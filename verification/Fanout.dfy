/** The subscription registry and its broadcast loop. */
module Fanout {
  import opened Basics

  /** One WATCH subscription. */
  datatype Subscriber = Subscriber(session: string, stream: nat)

  /** A DELTA body addressed to one stream. */
  datatype Outbound = Outbound(stream: nat, body: seq<Byte>)

  /** A session's bounded outbound channel. */
  datatype Channel = Channel(queue: seq<Outbound>, capacity: nat, cancelled: bool)

  predicate Full(ch: Channel) {
    |ch.queue| >= ch.capacity
  }

  /** `WriteHandle::send`: enqueue, or cancel the session when full. */
  function Offer(ch: Channel, m: Outbound): Channel {
    if Full(ch) then ch.(cancelled := true) else ch.(queue := ch.queue + [m])
  }

  /** `retain` on the session id. */
  function Without(subs: seq<Subscriber>, gone: set<string>): (r: seq<Subscriber>)
    ensures forall x :: x in r <==> x in subs && x.session !in gone
    decreases |subs|
  {
    if subs == [] then []
    else
      var rest := Without(subs[..|subs| - 1], gone);
      var last := subs[|subs| - 1];
      if last.session in gone then rest else rest + [last]
  }

  lemma {:induction false} WithoutNone(subs: seq<Subscriber>)
    ensures Without(subs, {}) == subs
    decreases |subs|
  {
    if subs != [] {
      WithoutNone(subs[..|subs| - 1]);
    }
  }

  function SubsAt(m: map<string, seq<Subscriber>>, k: string): seq<Subscriber> {
    if k in m then m[k] else []
  }

  predicate AllOpen(channels: map<string, Channel>, out: seq<Subscriber>) {
    forall i | 0 <= i < |out| :: out[i].session in channels
  }

  predicate Bounded(channels: map<string, Channel>) {
    forall s | s in channels :: |channels[s].queue| <= channels[s].capacity
  }

  // ---------- what a broadcast means to one session ----------

  /** The frames meant for session `s`, one per subscription it holds, in list order. */
  function FramesFor(out: seq<Subscriber>, s: string, body: seq<Byte>): seq<Outbound>
    decreases |out|
  {
    if out == [] then []
    else
      var last := out[|out| - 1];
      FramesFor(out[..|out| - 1], s, body) + if last.session == s then [Outbound(last.stream, body)] else []
  }

  lemma {:induction false} FramesWithout(subs: seq<Subscriber>, gone: set<string>, s: string, body: seq<Byte>)
    ensures FramesFor(Without(subs, gone), s, body) == if s in gone then [] else FramesFor(subs, s, body)
    decreases |subs|
  {
    if subs != [] {
      var init := subs[..|subs| - 1];
      FramesWithout(init, gone, s, body);
      if subs[|subs| - 1].session !in gone {
        var r := Without(subs, gone);
        assert r[..|r| - 1] == Without(init, gone);
      }
    }
  }

  /** A channel takes what it has room for; one frame too many cancels it. */
  function Accept(ch: Channel, frames: seq<Outbound>): Channel {
    var room := if Full(ch) then 0 else ch.capacity - |ch.queue|;
    if |frames| <= room then ch.(queue := ch.queue + frames)
    else ch.(queue := ch.queue + frames[..room], cancelled := true)
  }

  lemma AcceptNone(ch: Channel)
    ensures Accept(ch, []) == ch
  {
    assert ch.queue + [] == ch.queue;
  }

  lemma AcceptSnoc(ch: Channel, frames: seq<Outbound>, m: Outbound)
    requires |ch.queue| <= ch.capacity
    ensures Accept(ch, frames + [m]) == Offer(Accept(ch, frames), m)
    ensures Full(Accept(ch, frames)) <==> |ch.queue| + |frames| >= ch.capacity
  {
    var room := if Full(ch) then 0 else ch.capacity - |ch.queue|;
    if |frames| < room {
      assert ch.queue + (frames + [m]) == ch.queue + frames + [m];
    } else {
      assert (frames + [m])[..room] == frames[..room];
      assert |frames| == room ==> frames[..room] == frames;
    }
  }

  /** Every channel accepted exactly the frames meant for its session. */
  ghost predicate Offered(before: map<string, Channel>, after: map<string, Channel>, out: seq<Subscriber>, body: seq<Byte>) {
    && after.Keys == before.Keys
    && forall s | s in before :: after[s] == Accept(before[s], FramesFor(out, s, body))
  }

  /** The sessions whose channel had too little room. */
  function Slow(channels: map<string, Channel>, out: seq<Subscriber>, body: seq<Byte>): set<string> {
    set s | s in channels && |channels[s].queue| + |FramesFor(out, s, body)| > channels[s].capacity
  }

  lemma OfferedBound(before: map<string, Channel>, after: map<string, Channel>, out: seq<Subscriber>, body: seq<Byte>)
    requires Bounded(before) && Offered(before, after, out, body)
    ensures Bounded(after)
  {
  }

  /** One more subscriber in the send loop. */
  lemma SentOne(before: map<string, Channel>, now: map<string, Channel>, out: seq<Subscriber>, n: nat, body: seq<Byte>)
    requires n < |out| && Bounded(before) && out[n].session in before && Offered(before, now, out[..n], body)
    ensures var s := out[n].session;
            && Offered(before, now[s := Offer(now[s], Outbound(out[n].stream, body))], out[..n + 1], body)
            && Slow(before, out[..n + 1], body) == Slow(before, out[..n], body) + if Full(now[s]) then {s} else {}
  {
    hide Accept, Offer, Full;
    var s := out[n].session;
    assert out[..n + 1][..n] == out[..n];
    AcceptSnoc(before[s], FramesFor(out[..n], s, body), Outbound(out[n].stream, body));
    forall t | t in before && t != s ensures FramesFor(out[..n + 1], t, body) == FramesFor(out[..n], t, body) {
    }
    var more := Slow(before, out[..n + 1], body);
    var extra := if Full(now[s]) then {s} else {};
    forall t ensures t in more <==> t in Slow(before, out[..n], body) + extra {
      if t == s {
        assert |FramesFor(out[..n + 1], s, body)| == |FramesFor(out[..n], s, body)| + 1;
      }
    }
  }

  // ---------- the registry ----------

  function Except(exclude: Option<string>): set<string> {
    if exclude.Some? then {exclude.value} else {}
  }

  /** The registry and the channels as one value. */
  datatype Bus = Bus(subs: map<string, seq<Subscriber>>, channels: map<string, Channel>)

  /** Every subscriber has a channel, and no queue exceeds its capacity. */
  ghost predicate ValidBus(b: Bus) {
    (forall k | k in b.subs :: AllOpen(b.channels, b.subs[k])) && Bounded(b.channels)
  }

  lemma WithoutOpen(channels: map<string, Channel>, subs: seq<Subscriber>, gone: set<string>)
    requires AllOpen(channels, subs)
    ensures AllOpen(channels, Without(subs, gone))
  {
    var out := Without(subs, gone);
    forall i | 0 <= i < |out| ensures out[i].session in channels {
      assert out[i] in subs;
    }
  }

  /** One more subscription at the end of the key's list. */
  function Joined(b: Bus, key: string, sub: Subscriber): Bus {
    b.(subs := b.subs[key := SubsAt(b.subs, key) + [sub]])
  }

  /** The session leaves the lists of `keys`. */
  function Parted(b: Bus, keys: set<string>, session: string): Bus {
    b.(subs := map k | k in b.subs :: if k in keys then Without(b.subs[k], {session}) else b.subs[k])
  }

  lemma PartedValid(b: Bus, keys: set<string>, session: string)
    requires ValidBus(b)
    ensures ValidBus(Parted(b, keys, session))
  {
    forall k | k in b.subs ensures AllOpen(b.channels, Without(b.subs[k], {session})) {
      WithoutOpen(b.channels, b.subs[k], {session});
    }
  }

  /** One broadcast: every subscription of the key except those of `exclude` is offered the body
      once, in order; nobody else's channel moves; the sessions without room are cancelled and
      dropped from this key's list. */
  ghost predicate Broadcasted(a: Bus, b: Bus, key: string, body: seq<Byte>, exclude: Option<string>) {
    if key !in a.subs then b == a
    else
      var out := Without(a.subs[key], Except(exclude));
      && Offered(a.channels, b.channels, out, body)
      && b.subs == a.subs[key := Without(a.subs[key], Slow(a.channels, out, body))]
  }

  lemma BroadcastKeepsValid(a: Bus, b: Bus, key: string, body: seq<Byte>, exclude: Option<string>)
    requires ValidBus(a) && Broadcasted(a, b, key, body, exclude)
    ensures ValidBus(b)
  {
    hide Slow, Accept;
    if key in a.subs {
      var out := Without(a.subs[key], Except(exclude));
      OfferedBound(a.channels, b.channels, out, body);
      WithoutOpen(b.channels, a.subs[key], Slow(a.channels, out, body));
    }
  }

  class FanoutBus {
    var subscriptions: map<string, seq<Subscriber>>
    var channels: map<string, Channel>

    ghost predicate Valid()
      reads this
    {
      ValidBus(View())
    }

    ghost function View(): Bus
      reads this
    {
      Bus(subscriptions, channels)
    }

    /** `subscribe` */
    method Subscribe(key: string, sub: Subscriber)
      requires Valid() && sub.session in channels
      modifies this`subscriptions
      ensures Valid() && View() == Joined(old(View()), key, sub)
    {
      subscriptions := subscriptions[key := SubsAt(subscriptions, key) + [sub]];
    }

    /** `unsubscribe` */
    method Unsubscribe(key: string, session: string)
      requires Valid()
      modifies this`subscriptions
      ensures Valid() && View() == Parted(old(View()), {key}, session)
    {
      hide Without;
      PartedValid(View(), {key}, session);
      ghost var want := Parted(View(), {key}, session).subs;
      if key in subscriptions {
        subscriptions := subscriptions[key := Without(subscriptions[key], {session})];
      }
      assert subscriptions == want;
    }

    /** `remove_session`: the session disappears from every key, nobody else does. */
    method RemoveSession(session: string)
      requires Valid()
      modifies this`subscriptions
      ensures Valid() && View() == Parted(old(View()), old(subscriptions).Keys, session)
    {
      hide Without;
      PartedValid(View(), subscriptions.Keys, session);
      ghost var before := subscriptions;
      var todo := subscriptions.Keys;
      while todo != {}
        invariant todo <= before.Keys && subscriptions.Keys == before.Keys
        invariant forall k | k in before ::
          subscriptions[k] == if k in todo then before[k] else Without(before[k], {session})
        decreases todo
      {
        var k :| k in todo;
        todo := todo - {k};
        subscriptions := subscriptions[k := Without(subscriptions[k], {session})];
      }
      assert subscriptions == Parted(old(View()), before.Keys, session).subs;
    }

    /** `broadcast_encoded` */
    method Broadcast(key: string, body: seq<Byte>, exclude: Option<string>)
      requires Valid()
      modifies this
      ensures Valid() && Broadcasted(old(View()), View(), key, body, exclude)
    {
      if key !in subscriptions {
        return;
      }
      hide Without, Offered, Slow;
      var subs := subscriptions[key];
      var out := Without(subs, Except(exclude));
      WithoutOpen(channels, subs, Except(exclude));
      var slow := SendAll(out, body);
      WithoutNone(subs);
      if slow != {} {
        subscriptions := subscriptions[key := Without(subs, slow)];
      } else {
        assert subscriptions == subscriptions[key := subs];
      }
      BroadcastKeepsValid(old(View()), View(), key, body, exclude);
    }

    /** The send loop: collects the sessions whose channel was full. */
    method SendAll(out: seq<Subscriber>, body: seq<Byte>) returns (slow: set<string>)
      requires Bounded(channels) && AllOpen(channels, out)
      modifies this`channels
      ensures Offered(old(channels), channels, out, body)
      ensures slow == Slow(old(channels), out, body)
    {
      slow := {};
      ghost var before := channels;
      assert Offered(before, channels, out[..0], body) by {
        forall s | s in before ensures Accept(before[s], []) == before[s] {
          AcceptNone(before[s]);
        }
      }
      assert Slow(before, out[..0], body) == {};
      var n := 0;
      while n < |out|
        invariant 0 <= n <= |out|
        invariant Offered(before, channels, out[..n], body)
        invariant slow == Slow(before, out[..n], body)
      {
        hide Slow, Accept, Offer, FramesFor;
        var s := out[n].session;
        SentOne(before, channels, out, n, body);
        if Full(channels[s]) {
          slow := slow + {s};
        }
        channels := channels[s := Offer(channels[s], Outbound(out[n].stream, body))];
        n := n + 1;
      }
      assert out[..n] == out;
    }
  }
}
