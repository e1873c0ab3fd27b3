/** The fan-out bus and the replication protocol: what a broadcast or a direct send does to one
    session's channel is a send or an overflow of the protocol. */
module FanoutLink {
  import opened Basics
  import opened Store
  import P = Protocol
  import opened Fanout
  import D = Delivery

  /** How a body read off the socket is decoded. */
  type Decoder = seq<Byte> -> P.Frame

  /** The frames of one stream in a channel, decoded. */
  function Decoded(queue: seq<Outbound>, stream: nat, decode: Decoder): seq<P.Frame>
    decreases |queue|
  {
    if queue == [] then []
    else
      var last := queue[|queue| - 1];
      Decoded(queue[..|queue| - 1], stream, decode) + if last.stream == stream then [decode(last.body)] else []
  }

  /** The protocol's session is what the channel holds for its stream. */
  predicate Linked(ch: Channel, stream: nat, x: P.Session, decode: Decoder) {
    x.channel == Decoded(ch.queue, stream, decode) && x.cancelled == ch.cancelled
  }

  /** The protocol's step for sending delta `i` to a channel. */
  function SendStep(ch: Channel, sid: nat, i: nat): P.Action {
    if Full(ch) then P.Overflow(sid, i) else P.Push(sid, i)
  }

  /** One frame of the session's stream offered to its channel is one protocol step. */
  lemma OfferIsStep(ch: Channel, stream: nat, body: seq<Byte>, s: P.State, sid: nat, i: nat, decode: Decoder)
    requires P.CanSend(s, sid, i) && Linked(ch, stream, s.sessions[sid], decode)
    requires decode(body) == P.DeltaFrame(s.past.deltas[i].version, s.past.deltas[i].ops)
    ensures P.Enabled(s, SendStep(ch, sid, i))
    ensures Linked(Offer(ch, Outbound(stream, body)), stream, P.After(s, SendStep(ch, sid, i)).sessions[sid], decode)
  {
    var m := Outbound(stream, body);
    assert (ch.queue + [m])[..|ch.queue|] == ch.queue;
  }

  /** One broadcast, as session `s` sees it. */
  lemma BroadcastSeen(a: Bus, b: Bus, key: string, body: seq<Byte>, exclude: Option<string>, s: string)
    requires Broadcasted(a, b, key, body, exclude) && s in a.channels
    ensures s in b.channels
    ensures b.channels[s] == Accept(a.channels[s], if exclude == Some(s) then [] else FramesFor(SubsAt(a.subs, key), s, body))
  {
    if key in a.subs {
      FramesWithout(a.subs[key], Except(exclude), s, body);
    } else {
      AcceptNone(a.channels[s]);
    }
  }

  lemma OfferIsAccept(ch: Channel, frame: Outbound)
    requires |ch.queue| <= ch.capacity
    ensures Offer(ch, frame) == Accept(ch, [frame])
  {
    AcceptNone(ch);
    AcceptSnoc(ch, [], frame);
    assert [] + [frame] == [frame];
  }

  /** A broadcast, seen from a session that holds one subscription to the key: `Begin` lists the
      delta for the session, and the rest is exactly the protocol's `Push`, or `Overflow` if
      the channel is full. */
  lemma BroadcastIsSteps(a: Bus, b: Bus, key: string, body: seq<Byte>, exclude: Option<string>, name: string, stream: nat,
                         s: P.State, sid: nat, i: nat, decode: Decoder)
    requires ValidBus(a) && Broadcasted(a, b, key, body, exclude) && name in a.channels && exclude != Some(name)
    requires FramesFor(SubsAt(a.subs, key), name, body) == [Outbound(stream, body)]
    requires P.Enabled(s, P.Begin(i)) && P.Has(s, sid) && !s.sessions[sid].phase.Offline?
    requires Linked(a.channels[name], stream, s.sessions[sid], decode)
    requires decode(body) == P.DeltaFrame(s.past.deltas[i].version, s.past.deltas[i].ops)
    ensures var begun := P.After(s, P.Begin(i));
      && name in b.channels && P.Enabled(begun, SendStep(a.channels[name], sid, i))
      && Linked(b.channels[name], stream, P.After(begun, SendStep(a.channels[name], sid, i)).sessions[sid], decode)
  {
    hide P.After, P.Enabled, Broadcasted, Offer, Accept, Decoded;
    BeginLists(s, sid, i);
    BroadcastSeen(a, b, key, body, exclude, name);
    OfferIsAccept(a.channels[name], Outbound(stream, body));
    OfferIsStep(a.channels[name], stream, body, P.After(s, P.Begin(i)), sid, i, decode);
  }

  /** `Begin` lists the delta for every subscribed session, so that each may be sent it. */
  lemma BeginLists(s: P.State, sid: nat, i: nat)
    requires P.Enabled(s, P.Begin(i)) && P.Has(s, sid) && !s.sessions[sid].phase.Offline?
    ensures var begun := P.After(s, P.Begin(i));
      && P.CanSend(begun, sid, i) && begun.past == s.past
      && begun.sessions[sid].channel == s.sessions[sid].channel && begun.sessions[sid].cancelled == s.sessions[sid].cancelled
  {
  }

  /** One send of one loop among others, to the session's stream, is one protocol step. */
  lemma SendIsStep(a: D.Net, id: nat, stream: nat, s: P.State, sid: nat, i: nat, decode: Decoder)
    requires D.Enabled(a, D.Send(id)) && a.loops[id].out[a.loops[id].next].stream == stream
    requires var name := a.loops[id].out[a.loops[id].next].session;
      P.CanSend(s, sid, i) && Linked(a.bus.channels[name], stream, s.sessions[sid], decode)
    requires decode(a.loops[id].body) == P.DeltaFrame(s.past.deltas[i].version, s.past.deltas[i].ops)
    ensures var name := a.loops[id].out[a.loops[id].next].session;
      && P.Enabled(s, SendStep(a.bus.channels[name], sid, i))
      && Linked(D.After(a, D.Send(id)).bus.channels[name], stream,
                P.After(s, SendStep(a.bus.channels[name], sid, i)).sessions[sid], decode)
  {
    hide P.After, P.Enabled, Offer, Linked;
    var l := a.loops[id];
    OfferIsStep(a.bus.channels[l.out[l.next].session], stream, l.body, s, sid, i, decode);
  }
}
