/** Runs of the fan-out bus, with any number of broadcast loops and direct sends interleaved:
    a session that is not cancelled misses nothing. */
module Delivery {
  import opened Basics
  import opened Fanout

  /** A broadcast under way: the list it took, how far it got, and whom it found full. */
  datatype Loop = Loop(key: string, body: seq<Byte>, out: seq<Subscriber>, next: nat, slow: set<string>)

  datatype Net = Net(bus: Bus, loops: map<nat, Loop>)

  datatype Step =
    | Begin(id: nat, key: string, body: seq<Byte>, exclude: Option<string>)  // a broadcast takes its list
    | Send(id: nat)                              // and offers the body to the next subscriber
    | End(id: nat)                               // and drops those it found full
    | Direct(session: string, frame: Outbound)   // a writer's own copy
    | Join(key: string, sub: Subscriber)
    | Leave(key: string, session: string)
    | LeaveAll(session: string)
    | Take(session: string)                      // the session's writer takes the oldest frame

  predicate Enabled(a: Net, step: Step) {
    match step
    case Begin(id, _, _, _) => id !in a.loops
    case Send(id) => id in a.loops && a.loops[id].next < |a.loops[id].out| && a.loops[id].out[a.loops[id].next].session in a.bus.channels
    case End(id) => id in a.loops && a.loops[id].next == |a.loops[id].out|
    case Direct(s, _) => s in a.bus.channels
    case Join(_, sub) => sub.session in a.bus.channels
    case Leave(_, _) => true
    case LeaveAll(_) => true
    case Take(s) => s in a.bus.channels && a.bus.channels[s].queue != []
  }

  function WithChannel(b: Bus, s: string, ch: Channel): Bus {
    b.(channels := b.channels[s := ch])
  }

  /** The frame a loop sends next. */
  function NextFrame(l: Loop): Outbound
    requires l.next < |l.out|
  {
    Outbound(l.out[l.next].stream, l.body)
  }

  function After(a: Net, step: Step): Net
    requires Enabled(a, step)
  {
    match step
    case Begin(id, key, body, exclude) =>
      a.(loops := a.loops[id := Loop(key, body, Without(SubsAt(a.bus.subs, key), Except(exclude)), 0, {})])
    case Send(id) =>
      var l := a.loops[id];
      var s := l.out[l.next].session;
      var ch := a.bus.channels[s];
      Net(WithChannel(a.bus, s, Offer(ch, NextFrame(l))),
          a.loops[id := l.(next := l.next + 1, slow := if Full(ch) then l.slow + {s} else l.slow)])
    case End(id) =>
      var l := a.loops[id];
      var subs := if l.key in a.bus.subs then a.bus.subs[l.key := Without(a.bus.subs[l.key], l.slow)] else a.bus.subs;
      Net(a.bus.(subs := subs), a.loops - {id})
    case Direct(s, frame) => a.(bus := WithChannel(a.bus, s, Offer(a.bus.channels[s], frame)))
    case Join(key, sub) => a.(bus := Joined(a.bus, key, sub))
    case Leave(key, s) => a.(bus := Parted(a.bus, {key}, s))
    case LeaveAll(s) => a.(bus := Parted(a.bus, a.bus.subs.Keys, s))
    case Take(s) => a.(bus := WithChannel(a.bus, s, a.bus.channels[s].(queue := a.bus.channels[s].queue[1..])))
  }

  /** Loops hold open channels, and whoever they found full is cancelled. */
  ghost predicate LoopOk(b: Bus, l: Loop) {
    && l.next <= |l.out| && AllOpen(b.channels, l.out)
    && forall s | s in l.slow :: s in b.channels && b.channels[s].cancelled
  }

  ghost predicate ValidNet(a: Net) {
    ValidBus(a.bus) && forall id | id in a.loops :: LoopOk(a.bus, a.loops[id])
  }

  /** Session `s` changes its own subscriptions. */
  predicate IsOwn(step: Step, s: string) {
    match step
    case Join(_, sub) => sub.session == s
    case Leave(_, t) => t == s
    case LeaveAll(t) => t == s
    case _ => false
  }

  /** The frame a step offers session `s`, if any. */
  function Due(a: Net, s: string, step: Step): seq<Outbound>
    requires Enabled(a, step)
  {
    match step
    case Send(id) => if a.loops[id].out[a.loops[id].next].session == s then [NextFrame(a.loops[id])] else []
    case Direct(t, frame) => if t == s then [frame] else []
    case _ => []
  }

  /** What the writer of `s` takes in a step. */
  function Taken(a: Net, s: string, step: Step): seq<Outbound>
    requires Enabled(a, step)
  {
    if step.Take? && step.session == s then [a.bus.channels[s].queue[0]] else []
  }

  ghost predicate SameStreams(a: map<string, seq<Subscriber>>, b: map<string, seq<Subscriber>>, s: string) {
    forall k, body :: FramesFor(SubsAt(a, k), s, body) == FramesFor(SubsAt(b, k), s, body)
  }

  // ---------- one step ----------

  /** Changing one channel keeps the net valid if the channel stays within bounds and cancelled. */
  lemma ChannelStep(a: Net, s: string, ch: Channel)
    requires ValidNet(a) && s in a.bus.channels && |ch.queue| <= ch.capacity && (a.bus.channels[s].cancelled ==> ch.cancelled)
    ensures ValidNet(a.(bus := WithChannel(a.bus, s, ch)))
  {
    var b := WithChannel(a.bus, s, ch);
    forall k | k in b.subs ensures AllOpen(b.channels, b.subs[k]) {
      assert AllOpen(a.bus.channels, b.subs[k]);
    }
    forall id | id in a.loops ensures LoopOk(b, a.loops[id]) {
      assert LoopOk(a.bus, a.loops[id]);
    }
  }

  /** Changing subscriptions keeps the net valid if the bus stays valid. */
  lemma SubsStep(a: Net, b: Bus)
    requires ValidNet(a) && ValidBus(b) && b.channels == a.bus.channels
    ensures ValidNet(a.(bus := b))
  {
    forall id | id in a.loops ensures LoopOk(b, a.loops[id]) {
      assert LoopOk(a.bus, a.loops[id]);
    }
  }

  lemma SendKeepsValid(a: Net, id: nat)
    requires ValidNet(a) && Enabled(a, Send(id))
    ensures ValidNet(After(a, Send(id)))
  {
    var l := a.loops[id];
    var s := l.out[l.next].session;
    var ch := Offer(a.bus.channels[s], NextFrame(l));
    ChannelStep(a, s, ch);
    var b := After(a, Send(id));
    forall i | i in b.loops ensures LoopOk(b.bus, b.loops[i]) {
      assert LoopOk(b.bus, a.loops[i]);
    }
  }

  lemma EndKeepsValid(a: Net, id: nat)
    requires ValidNet(a) && Enabled(a, End(id))
    ensures ValidNet(After(a, End(id)))
  {
    hide Without;
    var l := a.loops[id];
    if l.key in a.bus.subs {
      WithoutOpen(a.bus.channels, a.bus.subs[l.key], l.slow);
    }
    SubsStep(a, After(a, End(id)).bus);
  }

  lemma BeginKeepsValid(a: Net, step: Step)
    requires ValidNet(a) && Enabled(a, step) && step.Begin?
    ensures ValidNet(After(a, step))
  {
    hide Without;
    WithoutOpen(a.bus.channels, SubsAt(a.bus.subs, step.key), Except(step.exclude));
  }

  lemma StepKeepsValid(a: Net, step: Step)
    requires ValidNet(a) && Enabled(a, step)
    ensures ValidNet(After(a, step))
  {
    hide Without, ValidNet;
    assert ValidBus(a.bus) by { BusValid(a); }
    match step
    case Begin(_, _, _, _) => BeginKeepsValid(a, step);
    case Send(id) => SendKeepsValid(a, id);
    case End(id) => EndKeepsValid(a, id);
    case Direct(s, frame) => ChannelStep(a, s, Offer(a.bus.channels[s], frame));
    case Take(s) => ChannelStep(a, s, a.bus.channels[s].(queue := a.bus.channels[s].queue[1..]));
    case Join(key, sub) => SubsStep(a, Joined(a.bus, key, sub));
    case Leave(key, t) => PartedValid(a.bus, {key}, t); SubsStep(a, Parted(a.bus, {key}, t));
    case LeaveAll(t) => PartedValid(a.bus, a.bus.subs.Keys, t); SubsStep(a, Parted(a.bus, a.bus.subs.Keys, t));
  }

  lemma BusValid(a: Net)
    requires ValidNet(a)
    ensures ValidBus(a.bus)
  {
  }

  lemma {:induction false} FramesAppend(a: seq<Subscriber>, b: seq<Subscriber>, s: string, body: seq<Byte>)
    ensures FramesFor(a + b, s, body) == FramesFor(a, s, body) + FramesFor(b, s, body)
    decreases |b|
  {
    if b == [] {
      assert a + b == a;
    } else {
      assert (a + b)[..|a + b| - 1] == a + b[..|b| - 1];
      FramesAppend(a, b[..|b| - 1], s, body);
    }
  }

  /** The subscriptions of `s` change only by its own steps, or when it is cancelled. */
  lemma OthersSubscribe(a: Net, step: Step, s: string)
    requires ValidNet(a) && Enabled(a, step) && !IsOwn(step, s) && s in a.bus.channels && !a.bus.channels[s].cancelled
    ensures SameStreams(a.bus.subs, After(a, step).bus.subs, s)
  {
    var subs, subs' := a.bus.subs, After(a, step).bus.subs;
    forall k, body ensures FramesFor(SubsAt(subs, k), s, body) == FramesFor(SubsAt(subs', k), s, body) {
      match step
      case Join(key, sub) =>
        FramesAppend(SubsAt(subs, key), [sub], s, body);
        assert [sub][..0] == [];
        assert FramesFor([sub], s, body) == FramesFor([], s, body) + [];
      case Leave(key, t) => FramesWithout(SubsAt(subs, k), {t}, s, body);
      case LeaveAll(t) => FramesWithout(SubsAt(subs, k), {t}, s, body);
      case End(id) =>
        assert LoopOk(a.bus, a.loops[id]);
        FramesWithout(SubsAt(subs, k), a.loops[id].slow, s, body);
      case _ =>
    }
  }

  /** What a session's own steps do to its subscriptions: one more frame per broadcast of the key at
      the end, or none any more. */
  lemma OwnSteps(a: Net, step: Step, s: string, k: string, body: seq<Byte>)
    requires Enabled(a, step) && IsOwn(step, s)
    ensures var was, now := FramesFor(SubsAt(a.bus.subs, k), s, body), FramesFor(SubsAt(After(a, step).bus.subs, k), s, body);
      && (step.Join? ==> now == was + if k == step.key then [Outbound(step.sub.stream, body)] else [])
      && (step.Leave? ==> now == if k == step.key then [] else was)
      && (step.LeaveAll? ==> now == [])
  {
    match step
    case Join(key, sub) =>
      FramesAppend(SubsAt(a.bus.subs, key), [sub], s, body);
      assert [sub][..0] == [];
      assert FramesFor([sub], s, body) == FramesFor([], s, body) + [Outbound(sub.stream, body)];
    case Leave(key, t) => FramesWithout(SubsAt(a.bus.subs, k), {t}, s, body);
    case LeaveAll(t) => FramesWithout(SubsAt(a.bus.subs, k), {t}, s, body);
    case _ =>
  }

  /** A step cancels `s` exactly when it offers `s` a frame that does not fit; otherwise the frame
      joins the queue behind those there, and only `s` itself changes its subscriptions. */
  lemma StepSeen(a: Net, step: Step, s: string)
    requires ValidNet(a) && Enabled(a, step) && s in a.bus.channels
    ensures ValidNet(After(a, step)) && s in After(a, step).bus.channels
    ensures var ch, ch' := a.bus.channels[s], After(a, step).bus.channels[s];
      && (ch'.cancelled <==> ch.cancelled || |ch.queue| + |Due(a, s, step)| > ch.capacity)
      && (!ch'.cancelled ==> ch.queue + Due(a, s, step) == Taken(a, s, step) + ch'.queue)
      && (!ch'.cancelled && !IsOwn(step, s) ==> SameStreams(a.bus.subs, After(a, step).bus.subs, s))
  {
    StepKeepsValid(a, step);
    if !IsOwn(step, s) && !a.bus.channels[s].cancelled {
      OthersSubscribe(a, step, s);
    }
  }

  // ---------- whole runs ----------

  ghost predicate IsRun(states: seq<Net>, steps: seq<Step>) {
    && |states| == |steps| + 1
    && forall i | 0 <= i < |steps| :: Enabled(states[i], steps[i]) && After(states[i], steps[i]) == states[i + 1]
  }

  lemma PrefixRun(states: seq<Net>, steps: seq<Step>, n: nat)
    requires IsRun(states, steps) && n <= |steps|
    ensures IsRun(states[..n + 1], steps[..n])
  {
  }

  /** All frames offered to `s`, in order. */
  ghost function AllDue(states: seq<Net>, s: string, steps: seq<Step>): seq<Outbound>
    requires IsRun(states, steps)
    decreases |steps|
  {
    if steps == [] then []
    else
      var n := |steps| - 1;
      PrefixRun(states, steps, n);
      AllDue(states[..n + 1], s, steps[..n]) + Due(states[n], s, steps[n])
  }

  ghost function AllTaken(states: seq<Net>, s: string, steps: seq<Step>): seq<Outbound>
    requires IsRun(states, steps)
    decreases |steps|
  {
    if steps == [] then []
    else
      var n := |steps| - 1;
      PrefixRun(states, steps, n);
      AllTaken(states[..n + 1], s, steps[..n]) + Taken(states[n], s, steps[n])
  }

  /** In every run of interleaved broadcasts, direct sends, subscriptions and socket writes, what a
      session that is not cancelled at the end has taken followed by what is queued is exactly
      what was offered to it, in order; its subscriptions change only by its own steps, and
      queues never exceed their capacity. */
  lemma {:induction false} NothingMissed(states: seq<Net>, steps: seq<Step>, s: string)
    requires IsRun(states, steps) && ValidNet(states[0]) && s in states[0].bus.channels
    ensures ValidNet(states[|steps|]) && s in states[|steps|].bus.channels
    ensures states[0].bus.channels[s].cancelled ==> states[|steps|].bus.channels[s].cancelled
    ensures !states[|steps|].bus.channels[s].cancelled ==>
      states[0].bus.channels[s].queue + AllDue(states, s, steps) == AllTaken(states, s, steps) + states[|steps|].bus.channels[s].queue
    ensures !states[|steps|].bus.channels[s].cancelled && (forall i | 0 <= i < |steps| :: !IsOwn(steps[i], s)) ==>
      SameStreams(states[0].bus.subs, states[|steps|].bus.subs, s)
    decreases |steps|
  {
    hide ValidNet, Enabled, After, SameStreams, Due, Taken, IsOwn;
    if steps == [] {
      SameStreamsRefl(states[0].bus.subs, s);
    } else {
      var n := |steps| - 1;
      var first, a, b := states[0], states[n], states[n + 1];
      PrefixRun(states, steps, n);
      NothingMissed(states[..n + 1], steps[..n], s);
      StepSeen(a, steps[n], s);
      if !b.bus.channels[s].cancelled {
        Splice(first.bus.channels[s].queue, AllDue(states[..n + 1], s, steps[..n]), AllTaken(states[..n + 1], s, steps[..n]),
               a.bus.channels[s].queue, Due(a, s, steps[n]), Taken(a, s, steps[n]), b.bus.channels[s].queue);
        if forall i | 0 <= i < |steps| :: !IsOwn(steps[i], s) {
          SameStreamsTrans(first.bus.subs, a.bus.subs, b.bus.subs, s);
        }
      }
    }
  }

  lemma SameStreamsRefl(a: map<string, seq<Subscriber>>, s: string)
    ensures SameStreams(a, a, s)
  {
  }

  lemma SameStreamsTrans(a: map<string, seq<Subscriber>>, b: map<string, seq<Subscriber>>, c: map<string, seq<Subscriber>>, s: string)
    requires SameStreams(a, b, s) && SameStreams(b, c, s)
    ensures SameStreams(a, c, s)
  {
  }

  lemma Splice(q0: seq<Outbound>, due: seq<Outbound>, taken: seq<Outbound>, qa: seq<Outbound>,
               d: seq<Outbound>, t: seq<Outbound>, qb: seq<Outbound>)
    requires q0 + due == taken + qa && qa + d == t + qb
    ensures q0 + (due + d) == taken + t + qb
  {
    assert q0 + (due + d) == (q0 + due) + d;
    assert taken + qa + d == taken + (qa + d);
    assert taken + (t + qb) == taken + t + qb;
  }

  // ---------- one loop among others ----------

  /** What loop `id` offers session `s` over a run. */
  ghost function LoopDue(states: seq<Net>, s: string, steps: seq<Step>, id: nat): seq<Outbound>
    requires IsRun(states, steps)
    decreases |steps|
  {
    if steps == [] then []
    else
      var n := |steps| - 1;
      PrefixRun(states, steps, n);
      LoopDue(states[..n + 1], s, steps[..n], id) + if steps[n] == Send(id) then Due(states[n], s, steps[n]) else []
  }

  /** However loops interleave, each one offers `s` exactly its subscriptions in the list taken at
      the start, in list order, and all of them by the time it may end. */
  lemma {:induction false} LoopIsComplete(states: seq<Net>, steps: seq<Step>, s: string, id: nat)
    requires IsRun(states, steps) && id in states[0].loops && states[0].loops[id].next == 0
    requires forall i | 0 <= i < |steps| :: steps[i] != End(id)
    ensures id in states[|steps|].loops
    ensures var l := states[|steps|].loops[id];
      && l == states[0].loops[id].(next := l.next, slow := l.slow) && l.next <= |l.out|
      && LoopDue(states, s, steps, id) == FramesFor(l.out[..l.next], s, l.body)
      && (Enabled(states[|steps|], End(id)) ==> LoopDue(states, s, steps, id) == FramesFor(l.out, s, l.body))
    decreases |steps|
  {
    if steps == [] {
      assert states[0].loops[id].out[..0] == [];
    } else {
      var n := |steps| - 1;
      PrefixRun(states, steps, n);
      LoopIsComplete(states[..n + 1], steps[..n], s, id);
      LoopAdvances(states[n], steps[n], s, id);
    }
    var l := states[|steps|].loops[id];
    assert l.next == |l.out| ==> l.out[..l.next] == l.out;
  }

  lemma LoopAdvances(a: Net, step: Step, s: string, id: nat)
    requires Enabled(a, step) && id in a.loops && a.loops[id].next <= |a.loops[id].out| && step != End(id)
    ensures id in After(a, step).loops
    ensures var l, l' := a.loops[id], After(a, step).loops[id];
      && l' == l.(next := l'.next, slow := l'.slow) && l'.next <= |l'.out|
      && FramesFor(l.out[..l'.next], s, l.body) == FramesFor(l.out[..l.next], s, l.body) + if step == Send(id) then Due(a, s, step) else []
  {
    var l := a.loops[id];
    if step == Send(id) {
      assert l.out[..l.next + 1][..l.next] == l.out[..l.next];
    }
  }

  // ---------- one loop alone ----------

  /** The net after loop 0 has begun and sent `n` times with nothing in between. */
  ghost predicate Alone(a: Bus, key: string, body: seq<Byte>, exclude: Option<string>, n: nat, now: Net) {
    var out := Without(SubsAt(a.subs, key), Except(exclude));
    && n <= |out| && now.bus.subs == a.subs
    && Offered(a.channels, now.bus.channels, out[..n], body)
    && now.loops == map[0 := Loop(key, body, out, n, Slow(a.channels, out[..n], body))]
  }

  lemma AloneBegins(a: Bus, key: string, body: seq<Byte>, exclude: Option<string>)
    requires ValidBus(a)
    ensures Alone(a, key, body, exclude, 0, After(Net(a, map[]), Begin(0, key, body, exclude)))
  {
    hide Without;
    var out := Without(SubsAt(a.subs, key), Except(exclude));
    assert out[..0] == [];
    forall s | s in a.channels ensures Accept(a.channels[s], []) == a.channels[s] {
      AcceptNone(a.channels[s]);
    }
    assert Slow(a.channels, [], body) == {};
  }

  lemma AloneSends(a: Bus, key: string, body: seq<Byte>, exclude: Option<string>, n: nat, now: Net)
    requires ValidBus(a) && Alone(a, key, body, exclude, n, now) && n < |now.loops[0].out|
    ensures Enabled(now, Send(0)) && Alone(a, key, body, exclude, n + 1, After(now, Send(0)))
  {
    hide Without, Slow, Accept, Offer, FramesFor, Full;
    var out := now.loops[0].out;
    WithoutOpen(a.channels, SubsAt(a.subs, key), Except(exclude));
    SentOne(a.channels, now.bus.channels, out, n, body);
    var l := After(now, Send(0)).loops[0];
    assert now.loops[0 := l] == map[0 := l];
    assert l.slow == Slow(a.channels, out[..n + 1], body);
    assert After(now, Send(0)).bus.subs == a.subs;
  }

  /** Loop 0 begins and sends `n` times. */
  function AloneSteps(key: string, body: seq<Byte>, exclude: Option<string>, n: nat): seq<Step> {
    [Begin(0, key, body, exclude)] + seq(n, _ => Send(0))
  }

  lemma RunSnoc(states: seq<Net>, steps: seq<Step>, step: Step)
    requires IsRun(states, steps) && Enabled(states[|steps|], step)
    ensures IsRun(states + [After(states[|steps|], step)], steps + [step])
  {
    hide Enabled, After;
    var states', steps' := states + [After(states[|steps|], step)], steps + [step];
    forall i | 0 <= i < |steps'| ensures Enabled(states'[i], steps'[i]) && After(states'[i], steps'[i]) == states'[i + 1] {
      assert i < |steps| ==> Enabled(states[i], steps[i]) && After(states[i], steps[i]) == states[i + 1];
    }
  }

  lemma {:induction false} AloneRuns(a: Bus, key: string, body: seq<Byte>, exclude: Option<string>, n: nat) returns (states: seq<Net>)
    requires ValidBus(a) && n <= |Without(SubsAt(a.subs, key), Except(exclude))|
    ensures IsRun(states, AloneSteps(key, body, exclude, n)) && states[0] == Net(a, map[])
    ensures Alone(a, key, body, exclude, n, states[n + 1])
    decreases n
  {
    hide Without, Enabled, After, ValidBus, Alone;
    if n == 0 {
      states := [Net(a, map[])];
      assert IsRun(states, []);
      MayBegin(a, key, body, exclude);
      RunSnoc(states, [], Begin(0, key, body, exclude));
      states := states + [After(states[0], Begin(0, key, body, exclude))];
      assert [] + [Begin(0, key, body, exclude)] == AloneSteps(key, body, exclude, 0);
      AloneBegins(a, key, body, exclude);
    } else {
      states := AloneRuns(a, key, body, exclude, n - 1);
      var now := states[n];
      AloneMore(a, key, body, exclude, n - 1, now);
      AloneSends(a, key, body, exclude, n - 1, now);
      RunSnoc(states, AloneSteps(key, body, exclude, n - 1), Send(0));
      states := states + [After(now, Send(0))];
      assert AloneSteps(key, body, exclude, n - 1) + [Send(0)] == AloneSteps(key, body, exclude, n);
    }
  }

  lemma MayBegin(a: Bus, key: string, body: seq<Byte>, exclude: Option<string>)
    ensures Enabled(Net(a, map[]), Begin(0, key, body, exclude))
  {
  }

  lemma AloneMore(a: Bus, key: string, body: seq<Byte>, exclude: Option<string>, n: nat, now: Net)
    requires Alone(a, key, body, exclude, n, now)
    ensures 0 in now.loops && now.loops[0].out == Without(SubsAt(a.subs, key), Except(exclude))
  {
  }

  /** A loop that nothing interrupts is one broadcast, as the bus's method performs it. */
  lemma AloneIsBroadcast(a: Bus, key: string, body: seq<Byte>, exclude: Option<string>) returns (states: seq<Net>)
    requires ValidBus(a)
    ensures var n := |Without(SubsAt(a.subs, key), Except(exclude))|;
      && IsRun(states, AloneSteps(key, body, exclude, n) + [End(0)]) && states[0] == Net(a, map[])
      && Broadcasted(a, states[n + 2].bus, key, body, exclude)
  {
    hide Without, IsRun, After;
    var n := |Without(SubsAt(a.subs, key), Except(exclude))|;
    states := AloneRuns(a, key, body, exclude, n);
    RunLength(states, AloneSteps(key, body, exclude, n));
    AloneEnds(a, key, body, exclude, states[n + 1]);
    RunSnoc(states, AloneSteps(key, body, exclude, n), End(0));
    states := states + [After(states[n + 1], End(0))];
  }

  lemma RunLength(states: seq<Net>, steps: seq<Step>)
    requires IsRun(states, steps)
    ensures |states| == |steps| + 1
  {
  }

  lemma AloneEnds(a: Bus, key: string, body: seq<Byte>, exclude: Option<string>, now: Net)
    requires ValidBus(a) && Alone(a, key, body, exclude, |Without(SubsAt(a.subs, key), Except(exclude))|, now)
    ensures Enabled(now, End(0)) && Broadcasted(a, After(now, End(0)).bus, key, body, exclude)
  {
    hide Without, Slow, Accept, FramesFor;
    var out := now.loops[0].out;
    assert out[..|out|] == out;
    if key !in a.subs {
      NobodyListed(a, now.bus, exclude, body);
    }
  }

  lemma NobodyListed(a: Bus, b: Bus, exclude: Option<string>, body: seq<Byte>)
    requires Offered(a.channels, b.channels, Without([], Except(exclude)), body) && b.subs == a.subs
    ensures b == a
  {
    forall s | s in a.channels ensures b.channels[s] == a.channels[s] {
      AcceptNone(a.channels[s]);
    }
    assert b.channels == a.channels;
  }
}
