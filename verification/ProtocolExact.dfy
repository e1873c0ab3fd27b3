/** Which runs of the protocol converge: the exact condition over all runs, and the
    runs that broadcast in version order. */
module ProtocolExact {
  import opened Basics
  import opened Json
  import opened Delta
  import opened Wire
  import opened Schedule
  import opened Store
  import opened Protocol

  /** Nothing is left to send or deliver to this live session. */
  predicate Drained(s: State, sid: nat) {
    && Has(s, sid)
    && var x := s.sessions[sid];
       (&& x.phase.Live? && !x.cancelled && x.channel == [] && x.pending == {}
        && forall i: nat | i < |s.past.deltas| :: i in s.begun)
  }

  /** A drained session with this snapshot moment and these deltas after it. */
  predicate DrainedAs(s: State, sid: nat, order: seq<nat>, at: nat, n: nat) {
    Drained(s, sid) && s.sessions[sid].phase.since == at && s.sessions[sid].order == order && |s.past.deltas| == n
  }

  /** Every run that ends this way leaves the client with the current value. */
  ghost predicate RunsConverge(key: string, order: seq<nat>, at: nat, n: nat) {
    forall s: State, actions: seq<Action>, end: State, sid: nat ::
      Initial(s) && s.key == key && Run(s, actions, end) && DrainedAs(end, sid, order, at, n)
      ==> end.past.slots != [] && Shows(end.sessions[sid].replica, Current(end.past))
  }

  // ---------- reaching every such end ----------

  ghost predicate Reach(s: State, t: State) {
    exists actions :: Run(s, actions, t)
  }

  lemma {:induction false} RunAppend(s: State, a: seq<Action>, mid: State, b: seq<Action>, end: State)
    requires Run(s, a, mid) && Run(mid, b, end)
    ensures Run(s, a + b, end)
    decreases |a|
  {
    hide Enabled, After;
    if a == [] {
      assert a + b == b;
    } else {
      assert (a + b)[1..] == a[1..] + b;
      RunAppend(After(s, a[0]), a[1..], mid, b, end);
    }
  }

  lemma ReachTrans(s: State, t: State, u: State)
    requires Reach(s, t) && Reach(t, u)
    ensures Reach(s, u)
  {
    hide Run;
    var a :| Run(s, a, t);
    var b :| Run(t, b, u);
    RunAppend(s, a, t, b, u);
  }

  lemma ReachSelf(s: State)
    ensures Reach(s, s)
  {
    assert Run(s, [], s);
  }

  lemma ReachOne(s: State, a: Action)
    requires Enabled(s, a)
    ensures Reach(s, After(s, a))
  {
    hide Enabled, After;
    assert [a][1..] == [];
    assert Run(After(s, a), [], After(s, a));
    assert Run(s, [a], After(s, a));
  }

  /** A past whose deltas carry the versions 1, 2, .. */
  ghost predicate Plain(p: Past) {
    && ValidPast(p) && (forall i | 0 <= i < |p.slots| :: SafeSlot(p.slots[i]))
    && forall i | 0 <= i < |p.deltas| :: p.deltas[i].version == i + 1
  }

  function Upto(p: Past, t: nat): Past
    requires t < |p.slots| && t <= |p.deltas|
  {
    Past(p.slots[..t + 1], p.deltas[..t])
  }

  /** One session, number 0, after `t` writes. */
  function Solo(key: string, p: Past, t: nat, begun: set<nat>, x: Session): State
    requires t < |p.slots| && t <= |p.deltas|
  {
    State(key, Upto(p, t), t, begun, map[0 := x])
  }

  lemma SoloWith(key: string, p: Past, t: nat, begun: set<nat>, x: Session, y: Session)
    requires t < |p.slots| && t <= |p.deltas|
    ensures With(Solo(key, p, t, begun, x), 0, y) == Solo(key, p, t, begun, y)
  {
    assert map[0 := x][0 := y] == map[0 := y];
  }

  lemma {:induction false} ReachWrites(key: string, p: Past, x: Session, from: nat, upTo: nat)
    requires Plain(p) && from <= upTo <= |p.deltas|
    ensures Reach(Solo(key, p, from, {}, x), Solo(key, p, upTo, {}, x))
    decreases upTo
  {
    hide IsWireDelta, SafeSlot, Run;
    if from == upTo {
      ReachSelf(Solo(key, p, from, {}, x));
    } else {
      ReachWrites(key, p, x, from, upTo - 1);
      var s, d := Solo(key, p, upTo - 1, {}, x), p.deltas[upTo - 1];
      assert Current(s.past) == p.slots[upTo - 1];
      assert Enabled(s, Write(p.slots[upTo], d));
      assert p.slots[..upTo] + [p.slots[upTo]] == p.slots[..upTo + 1];
      assert p.deltas[..upTo - 1] + [d] == p.deltas[..upTo];
      assert After(s, Write(p.slots[upTo], d)) == Solo(key, p, upTo, {}, x);
      ReachOne(s, Write(p.slots[upTo], d));
      ReachTrans(Solo(key, p, from, {}, x), s, Solo(key, p, upTo, {}, x));
    }
  }

  function Below(k: nat): (r: set<nat>)
    ensures forall i: nat :: i in r <==> i < k
  {
    if k == 0 then {} else Below(k - 1) + {k - 1}
  }

  lemma {:induction false} ReachBegins(key: string, p: Past, x: Session, k: nat)
    requires Plain(p) && k <= |p.deltas| && !x.phase.Offline?
    ensures var n := |p.deltas|;
      Reach(Solo(key, p, n, {}, x.(pending := {})), Solo(key, p, n, Below(k), x.(pending := Below(k))))
    decreases k
  {
    hide IsWireDelta, SafeSlot, Run, ValidPast;
    var n := |p.deltas|;
    PlainLengths(p);
    var first := Solo(key, p, n, {}, x.(pending := {}));
    if k == 0 {
      assert Below(0) == {};
      ReachSelf(first);
    } else {
      ReachBegins(key, p, x, k - 1);
      var s := Solo(key, p, n, Below(k - 1), x.(pending := Below(k - 1)));
      assert Below(k - 1) + {k - 1} == Below(k);
      var t := After(s, Begin(k - 1));
      assert t.sessions == map[0 := x.(pending := Below(k))];
      assert t == Solo(key, p, n, Below(k), x.(pending := Below(k)));
      ReachOne(s, Begin(k - 1));
      ReachTrans(first, s, t);
    }
  }

  lemma PlainLengths(p: Past)
    requires Plain(p)
    ensures |p.slots| == |p.deltas| + 1 && Upto(p, |p.deltas|) == p
  {
    hide IsWireDelta, SafeSlot;
    assert p.slots[..|p.slots|] == p.slots;
    assert p.deltas[..|p.deltas|] == p.deltas;
  }

  function Elems(list: seq<nat>): set<nat> {
    set i | i in list
  }

  /** A session after all of `list` has been sent to it. */
  function Sent(p: Past, x: Session, list: seq<nat>): Session
    requires InRange(list, |p.deltas|)
  {
    var y := x.(pending := x.pending - Elems(list), channel := x.channel + FramesOf(p, list));
    if x.phase.Live? then y.(order := x.order + list) else y.(early := x.early + Elems(list))
  }

  lemma SentSnoc(p: Past, x: Session, list: seq<nat>, i: nat)
    requires InRange(list, |p.deltas|) && i < |p.deltas|
    ensures Sent(p, x, list + [i]) == Pushed(Sent(p, x, list), i, DeltaFrame(p.deltas[i].version, p.deltas[i].ops))
  {
    var f := DeltaFrame(p.deltas[i].version, p.deltas[i].ops);
    assert Elems(list + [i]) == Elems(list) + {i};
    assert FramesOf(p, list + [i]) == FramesOf(p, list) + [f];
    assert x.channel + (FramesOf(p, list) + [f]) == x.channel + FramesOf(p, list) + [f];
    assert x.order + (list + [i]) == x.order + list + [i];
    assert x.early + (Elems(list) + {i}) == x.early + Elems(list) + {i};
    assert x.pending - (Elems(list) + {i}) == x.pending - Elems(list) - {i};
  }

  lemma {:induction false} ReachSent(key: string, p: Past, begun: set<nat>, x: Session, list: seq<nat>)
    requires Plain(p) && !x.phase.Offline? && InRange(list, |p.deltas|) && NoRepeats(list) && Elems(list) <= x.pending
    ensures Reach(Solo(key, p, |p.deltas|, begun, x), Solo(key, p, |p.deltas|, begun, Sent(p, x, list)))
    decreases |list|
  {
    hide Run, Plain;
    PlainLengths(p);
    var n := |p.deltas|;
    var first := Solo(key, p, n, begun, x);
    if list == [] {
      assert Elems([]) == {} && x.pending - {} == x.pending && x.early + {} == x.early;
      assert x.channel + FramesOf(p, []) == x.channel && x.order + [] == x.order;
      assert Sent(p, x, []) == x;
      ReachSelf(first);
    } else {
      var k := |list| - 1;
      var init, i := list[..k], list[k];
      assert list == init + [i];
      assert i in list && Elems(init) <= Elems(list);
      ReachSent(key, p, begun, x, init);
      var y := Sent(p, x, init);
      var s := Solo(key, p, n, begun, y);
      assert i in y.pending;
      assert Enabled(s, Push(0, i));
      SentSnoc(p, x, init, i);
      SoloWith(key, p, n, begun, y, Sent(p, x, list));
      ReachOne(s, Push(0, i));
      ReachTrans(first, s, Solo(key, p, n, begun, Sent(p, x, list)));
    }
  }

  function Emptied(key: string, x: Session): Session {
    x.(channel := [], replica := OnFrames(key, x.replica, x.channel))
  }

  lemma {:induction false} ReachEmptied(key: string, p: Past, t: nat, begun: set<nat>, x: Session)
    requires t < |p.slots| && t <= |p.deltas|
    ensures Reach(Solo(key, p, t, begun, x), Solo(key, p, t, begun, Emptied(key, x)))
    decreases |x.channel|
  {
    hide Run, OnFrame;
    var s := Solo(key, p, t, begun, x);
    if x.channel == [] {
      assert Emptied(key, x) == x;
      ReachSelf(s);
    } else {
      var y := x.(channel := x.channel[1..], replica := OnFrame(key, x.replica, x.channel[0]));
      SoloWith(key, p, t, begun, x, y);
      ReachOne(s, Deliver(0));
      ReachEmptied(key, p, t, begun, y);
      assert Emptied(key, y) == Emptied(key, x);
      ReachTrans(s, Solo(key, p, t, begun, y), Solo(key, p, t, begun, Emptied(key, x)));
    }
  }

  /** The numbers below `k` that are not in `order`. */
  function Others(order: seq<nat>, k: nat): (r: seq<nat>)
    ensures InRange(r, k) && NoRepeats(r)
    ensures forall i: nat :: i in r <==> i < k && i !in order
  {
    if k == 0 then [] else Others(order, k - 1) + if k - 1 in order then [] else [k - 1]
  }

  const NEWCOMER: Session := Session(Subscribed, {}, {}, [], [], FRESH, false)

  /** The session that has read moment `at`, has all deltas pending and has been sent
      everything outside `order`. */
  function Ready(p: Past, order: seq<nat>, at: nat, version: nat): Session {
    Sent(p, NEWCOMER.(phase := HasRead(at, version), pending := Below(|p.deltas|)), Others(order, |p.deltas|))
  }

  function Opened(key: string, p: Past): State
    requires p.slots != []
  {
    State(key, Past(p.slots[..1], []), 0, {}, map[])
  }

  lemma ReachRead(key: string, p: Past, at: nat) returns (version: nat)
    requires Plain(p) && at <= |p.deltas|
    ensures Reach(Opened(key, p), Solo(key, p, at, {}, NEWCOMER.(phase := HasRead(at, version))))
  {
    hide Run, IsWireDelta, SafeSlot;
    PlainLengths(p);
    var s0 := Opened(key, p);
    var x1 := Session(Offline, {}, {}, [], [], FRESH, false);
    assert map[][0 := x1] == map[0 := x1];
    assert After(s0, Connect(0)) == Solo(key, p, 0, {}, x1);
    ReachOne(s0, Connect(0));
    SoloWith(key, p, 0, {}, x1, NEWCOMER);
    ReachOne(Solo(key, p, 0, {}, x1), Subscribe(0));
    ReachTrans(s0, Solo(key, p, 0, {}, x1), Solo(key, p, 0, {}, NEWCOMER));
    ReachWrites(key, p, NEWCOMER, 0, at);
    var s := Solo(key, p, at, {}, NEWCOMER);
    ReachTrans(s0, Solo(key, p, 0, {}, NEWCOMER), s);
    version := InitVersion(s);
    SoloWith(key, p, at, {}, NEWCOMER, NEWCOMER.(phase := HasRead(at, version)));
    ReachOne(s, ReadSnapshot(0));
    ReachTrans(s0, s, Solo(key, p, at, {}, NEWCOMER.(phase := HasRead(at, version))));
  }

  lemma ReachReady(key: string, p: Past, order: seq<nat>, at: nat) returns (version: nat)
    requires Plain(p) && at <= |p.deltas|
    ensures Reach(Opened(key, p), Solo(key, p, |p.deltas|, Below(|p.deltas|), Ready(p, order, at, version)))
  {
    hide Run, Plain, Enabled, After;
    PlainLengths(p);
    var n := |p.deltas|;
    version := ReachRead(key, p, at);
    var x := NEWCOMER.(phase := HasRead(at, version));
    ReachWrites(key, p, x, at, n);
    ReachTrans(Opened(key, p), Solo(key, p, at, {}, x), Solo(key, p, n, {}, x));
    ReachBegins(key, p, x, n);
    assert x.(pending := {}) == x;
    var y := x.(pending := Below(n));
    ReachTrans(Opened(key, p), Solo(key, p, n, {}, x), Solo(key, p, n, Below(n), y));
    ReachSent(key, p, Below(n), y, Others(order, n));
    ReachTrans(Opened(key, p), Solo(key, p, n, Below(n), y), Solo(key, p, n, Below(n), Sent(p, y, Others(order, n))));
  }

  /** Every order of sends after every snapshot moment is the end of some run, whatever the values. */
  lemma Reachable(key: string, p: Past, order: seq<nat>, at: nat) returns (end: State)
    requires Plain(p) && at <= |p.deltas| && InRange(order, |p.deltas|) && NoRepeats(order)
    ensures Reach(Opened(key, p), end) && end.past == p && DrainedAs(end, 0, order, at, |p.deltas|)
  {
    hide Run, Plain, OnFrames;
    PlainLengths(p);
    var n := |p.deltas|;
    var version := ReachReady(key, p, order, at);
    var x := Ready(p, order, at, version);
    var s := Solo(key, p, n, Below(n), x);
    assert Enabled(s, SendInit(0));
    var y := x.(phase := Live(at, version), channel := x.channel + [InitFrame(version, p.slots[at])]);
    SoloWith(key, p, n, Below(n), x, y);
    ReachOne(s, SendInit(0));
    ReachTrans(Opened(key, p), s, Solo(key, p, n, Below(n), y));
    assert Elems(order) <= y.pending;
    ReachSent(key, p, Below(n), y, order);
    var z := Sent(p, y, order);
    ReachTrans(Opened(key, p), Solo(key, p, n, Below(n), y), Solo(key, p, n, Below(n), z));
    ReachEmptied(key, p, n, Below(n), z);
    end := Solo(key, p, n, Below(n), Emptied(key, z));
    ReachTrans(Opened(key, p), Solo(key, p, n, Below(n), z), end);
    assert y.order == [] && [] + order == order;
    assert z.pending == {};
  }

  // ---------- the exact condition ----------

  lemma ShowsOne(r: Replica, s: Slot, t: Slot)
    requires Shows(r, s)
    ensures Shows(r, t) <==> s == t
  {
  }

  function Numbered(ds: seq<seq<WOp>>): (r: seq<Logged>)
    ensures |r| == |ds|
    ensures forall i | 0 <= i < |ds| :: r[i] == Logged(i + 1, ds[i])
  {
    seq(|ds|, i requires 0 <= i < |ds| => Logged(i + 1, ds[i]))
  }

  /** The past in which only deltas `i` and `j` write field "a". */
  function MarkedPast(i: nat, j: nat, n: nat): Past {
    Past(MarkedSlots(i, j, n), Numbered(MarkedDeltas(i, j, n)))
  }

  lemma MarkedIsPlain(i: nat, j: nat, n: nat)
    requires i <= j
    ensures Plain(MarkedPast(i, j, n)) && Frames(MarkedPast(i, j, n).deltas) == MarkedDeltas(i, j, n)
    ensures |MarkedPast(i, j, n).deltas| == n
  {
    hide IsWireDelta, SafeSlot, MarkedDelta;
    MarkedHistory(i, j, n);
    var p, ds := MarkedPast(i, j, n), MarkedDeltas(i, j, n);
    forall t | 0 <= t < n ensures IsWireDelta(p.slots[t], p.slots[t + 1], p.deltas[t].ops) && p.deltas[t].ops != [] {
      assert IsWireDelta(MarkedSlots(i, j, n)[t], MarkedSlots(i, j, n)[t + 1], ds[t]);
      assert ds[t] == MarkedDelta(t, i, j);
    }
  }

  /** What a client shows at the end of the run that delivers this past in this order. */
  lemma OneRun(key: string, p: Past, order: seq<nat>, at: nat)
    requires Plain(p) && at <= |p.deltas| && InRange(order, |p.deltas|) && NoRepeats(order)
    requires (if key == "" then p.slots[at] else ReceiveAll(p.slots[at], Pick(Frames(p.deltas), order))) != p.slots[|p.deltas|]
    ensures !RunsConverge(key, order, at, |p.deltas|)
  {
    hide Run, OnFrames, ReceiveAll;
    PlainLengths(p);
    var s := Opened(key, p);
    assert Initial(s) by {
      assert SafeSlot(p.slots[0]);
    }
    var end := Reachable(key, p, order, at);
    var actions :| Run(s, actions, end);
    LiveShows(s, actions, end, 0);
    var x := end.sessions[0];
    assert OnFrames(end.key, x.replica, x.channel) == x.replica by { EmptyFrames(end.key, x); }
    ShowsOne(x.replica, Shown(end, at, order), Current(end.past));
  }

  lemma EmptyFrames(key: string, x: Session)
    requires x.channel == []
    ensures OnFrames(key, x.replica, x.channel) == x.replica
  {
  }

  lemma BadOrderRun(key: string, order: seq<nat>, at: nat, n: nat)
    requires key != "" && at <= n && InRange(order, n) && NoRepeats(order) && !GoodOrder(order, at, n)
    ensures !RunsConverge(key, order, at, n)
  {
    hide Plain, ReceiveAll, MarkedDelta, Marked, RunsConverge;
    if j :| at <= j < n && j !in order {
      MarkedIsPlain(j, j, n);
      PlainLengths(MarkedPast(j, j, n));
      MissingDiverges(order, at, n, j);
      OneRun(key, MarkedPast(j, j, n), order, at);
    } else {
      var p, j :| 0 <= p < |order| && order[p] < j < n && !ComesAfter(order, p, j);
      MarkedIsPlain(order[p], j, n);
      PlainLengths(MarkedPast(order[p], j, n));
      LateOldDiverges(order, at, n, p, j);
      OneRun(key, MarkedPast(order[p], j, n), order, at);
    }
  }

  /** The empty key: a write after the snapshot never shows. */
  lemma EmptyKeyRun(order: seq<nat>, at: nat, n: nat)
    requires at < n && InRange(order, n) && NoRepeats(order)
    ensures !RunsConverge("", order, at, n)
  {
    hide Plain, ReceiveAll, RunsConverge;
    MarkedIsPlain(0, 0, n);
    var p := MarkedPast(0, 0, n);
    assert |p.slots[at].value.fields["b"].elems| == at && |p.slots[n].value.fields["b"].elems| == n;
    OneRun("", p, order, at);
  }

  /** For every key, snapshot moment and order of the deltas sent after it: all runs that end
      this way leave the client with the current value exactly when, for the empty key,
      nothing was written after the snapshot and, for any other key, the order is good. */
  lemma RunsExact(key: string, order: seq<nat>, at: nat, n: nat)
    requires at <= n && InRange(order, n) && NoRepeats(order)
    ensures RunsConverge(key, order, at, n) <==> if key == "" then at == n else GoodOrder(order, at, n)
  {
    hide GoodOrder, Run, OnFrames, Shown;
    if if key == "" then at == n else GoodOrder(order, at, n) {
      forall s: State, actions: seq<Action>, end: State, sid: nat
        | Initial(s) && s.key == key && Run(s, actions, end) && DrainedAs(end, sid, order, at, n)
        ensures end.past.slots != [] && Shows(end.sessions[sid].replica, Current(end.past))
      {
        LiveShows(s, actions, end, sid);
        Convergence(s, actions, end, sid, []);
        var x := end.sessions[sid];
        assert x.channel + FramesOf(end.past, []) == x.channel && x.order + [] == x.order;
        EmptyFrames(end.key, x);
      }
    } else if key == "" {
      EmptyKeyRun(order, at, n);
    } else {
      BadOrderRun(key, order, at, n);
    }
  }

  /** STATE_INIT is sent in two steps, read and send: a delta sent in between is lost for good. */
  lemma OvertakenExact(key: string, c: nat, at: nat, n: nat)
    requires key != "" && c <= n && at <= n
    ensures RunsConverge(key, Range(c, n), at, n) <==> c <= at
  {
    hide GoodOrder, RunsConverge;
    RunsExact(key, Range(c, n), at, n);
    SuffixGood(c, at, n);
  }

  // ---------- runs in version order ----------

  /** Broadcasts start in version order and reach each session in version order. */
  predicate InVersionOrder(s: State, a: Action) {
    match a
    case Begin(i) => forall j: nat | j < i :: j in s.begun
    case Push(sid, i) => Has(s, sid) && forall j | j in s.sessions[sid].pending :: i <= j
    case Overflow(sid, i) => Has(s, sid) && forall j | j in s.sessions[sid].pending :: i <= j
    case _ => true
  }

  ghost predicate OrderedRun(s: State, actions: seq<Action>, end: State)
    decreases |actions|
  {
    if actions == [] then end == s
    else
      && Enabled(s, actions[0]) && InVersionOrder(s, actions[0])
      && OrderedRun(After(s, actions[0]), actions[1..], end)
  }

  /** Deltas `from` to `c` were sent before STATE_INIT, `c` to `cur` after it, `cur` to `b` are pending. */
  ghost predicate Split(x: Session, from: nat, c: nat, cur: nat, b: nat) {
    && from <= c <= cur <= b
    && (forall i: nat :: i in x.early <==> from <= i < c)
    && x.order == Range(c, cur)
    && (forall i: nat :: i in x.pending <==> cur <= i < b)
    && (HasMoment(x) ==> from <= Moment(x))
  }

  ghost predicate OrderedSession(x: Session, b: nat) {
    !x.cancelled && !x.phase.Offline? ==> exists from: nat, c: nat, cur: nat :: Split(x, from, c, cur, b)
  }

  ghost predicate OrderedInv(s: State, b: nat) {
    && Inv(s) && b <= |s.past.deltas|
    && (forall i: nat :: i in s.begun <==> i < b)
    && forall sid | sid in s.sessions :: OrderedSession(s.sessions[sid], b)
  }

  lemma OrderedBegin(s: State, b: nat, i: nat)
    requires OrderedInv(s, b) && Enabled(s, Begin(i)) && InVersionOrder(s, Begin(i))
    ensures i == b && OrderedInv(After(s, Begin(i)), b + 1)
  {
    hide Inv;
    StepKeepsInv(s, Begin(i));
    assert b !in s.begun;
    assert i == b;
    var s' := After(s, Begin(i));
    forall sid | sid in s'.sessions ensures OrderedSession(s'.sessions[sid], b + 1) {
      var x := s.sessions[sid];
      if !x.cancelled && !x.phase.Offline? {
        var from: nat, c: nat, cur: nat :| Split(x, from, c, cur, b);
        assert Split(Listed(x, i), from, c, cur, b + 1);
      }
    }
  }

  lemma OrderedPush(x: Session, i: nat, f: Frame, b: nat)
    requires !x.cancelled && !x.phase.Offline? && OrderedSession(x, b) && (!x.phase.Live? ==> x.order == [])
    requires i in x.pending && forall j | j in x.pending :: i <= j
    ensures OrderedSession(Pushed(x, i, f), b)
  {
    var from: nat, c: nat, cur: nat :| Split(x, from, c, cur, b);
    assert i == cur by {
      assert cur in x.pending;
    }
    var y := Pushed(x, i, f);
    if x.phase.Live? {
      assert Range(c, cur) + [cur] == Range(c, cur + 1);
      assert Split(y, from, c, cur + 1, b);
    } else {
      assert c == cur;
      assert Split(y, from, c + 1, c + 1, b);
    }
  }

  /** A step that leaves the bookkeeping of sends alone, or reads the snapshot now. */
  lemma KeepsSplit(x: Session, y: Session, b: nat)
    requires OrderedSession(x, b) && (x.cancelled ==> y.cancelled) && !x.phase.Offline?
    requires y.early == x.early && y.pending == x.pending && y.order == x.order
    requires HasMoment(y) ==> Moment(y) >= b || (HasMoment(x) && Moment(x) == Moment(y))
    ensures OrderedSession(y, b)
  {
    if !y.cancelled && !y.phase.Offline? {
      var from: nat, c: nat, cur: nat :| Split(x, from, c, cur, b);
      assert Split(y, from, c, cur, b);
    }
  }

  lemma FreshSplit(x: Session, b: nat)
    requires x.early == {} && x.pending == {} && x.order == [] && !HasMoment(x)
    ensures OrderedSession(x, b)
  {
    assert Range(b, b) == [];
    assert Split(x, b, b, b, b);
  }

  lemma OrderedOther(s: State, b: nat, a: Action, sid: nat)
    requires OrderedInv(s, b) && Enabled(s, a)
    requires a in {Connect(sid), Subscribe(sid), ReadLog(sid), SendReplay(sid), ReadSnapshot(sid), SendInit(sid),
                   LoseReplay(sid), LoseInit(sid), Deliver(sid), Drop(sid)}
    ensures OrderedSession(After(s, a).sessions[sid], b)
  {
    hide IsWireDelta, SafeSlot, OnFrames, OnFrame, Newer, Newest, Shown, OrderedSession;
    var y := After(s, a).sessions[sid];
    if a.Connect? || a.Subscribe? || a.Drop? {
      FreshSplit(y, b);
    } else {
      assert ValidSession(s, s.sessions[sid]);
      KeepsSplit(s.sessions[sid], y, b);
    }
  }

  lemma OrderedSend(s: State, b: nat, a: Action, sid: nat, i: nat)
    requires OrderedInv(s, b) && Enabled(s, a) && InVersionOrder(s, a) && a in {Push(sid, i), Overflow(sid, i)}
    ensures OrderedSession(After(s, a).sessions[sid], b)
  {
    hide IsWireDelta, SafeSlot, ValidPast, OnFrames, Shown;
    var x := s.sessions[sid];
    assert ValidSession(s, x);
    if a.Push? {
      var f := DeltaFrame(s.past.deltas[i].version, s.past.deltas[i].ops);
      if x.cancelled {
        assert Pushed(x, i, f).cancelled;
      } else {
        OrderedPush(x, i, f, b);
      }
    }
  }

  lemma OrderedOne(s: State, b: nat, a: Action, sid: nat)
    requires OrderedInv(s, b) && Enabled(s, a) && Inv(After(s, a)) && sid in After(s, a).sessions
    requires OrderedSession(After(s, a).sessions[sid], b)
    requires After(s, a) == With(s, sid, After(s, a).sessions[sid])
    ensures OrderedInv(After(s, a), b)
  {
    hide Inv, Enabled, After, OrderedSession;
  }

  lemma OrderedStep(s: State, b: nat, a: Action) returns (b': nat)
    requires OrderedInv(s, b) && Enabled(s, a) && InVersionOrder(s, a)
    ensures OrderedInv(After(s, a), b')
  {
    hide Inv, OrderedSession, OnFrame, Newer, Newest, InVersionOrder;
    b' := b;
    StepKeepsInv(s, a);
    match a
    case Write(t, d) =>
    case Touch(version) =>
    case Begin(i) => OrderedBegin(s, b, i); b' := b + 1;
    case Push(sid, i) => OrderedSend(s, b, a, sid, i); OrderedOne(s, b, a, sid);
    case Overflow(sid, i) => OrderedSend(s, b, a, sid, i); OrderedOne(s, b, a, sid);
    case Connect(sid) => OrderedOther(s, b, a, sid); OrderedOne(s, b, a, sid);
    case Subscribe(sid) => OrderedOther(s, b, a, sid); OrderedOne(s, b, a, sid);
    case ReadLog(sid) => OrderedOther(s, b, a, sid); OrderedOne(s, b, a, sid);
    case SendReplay(sid) => OrderedOther(s, b, a, sid); OrderedOne(s, b, a, sid);
    case LoseReplay(sid) => OrderedOther(s, b, a, sid); OrderedOne(s, b, a, sid);
    case ReadSnapshot(sid) => OrderedOther(s, b, a, sid); OrderedOne(s, b, a, sid);
    case SendInit(sid) => OrderedOther(s, b, a, sid); OrderedOne(s, b, a, sid);
    case LoseInit(sid) => OrderedOther(s, b, a, sid); OrderedOne(s, b, a, sid);
    case Deliver(sid) => OrderedOther(s, b, a, sid); OrderedOne(s, b, a, sid);
    case Drop(sid) => OrderedOther(s, b, a, sid); OrderedOne(s, b, a, sid);
  }

  lemma {:induction false} OrderedRunInv(s: State, b: nat, actions: seq<Action>, end: State) returns (b': nat)
    requires OrderedInv(s, b) && OrderedRun(s, actions, end)
    ensures OrderedInv(end, b') && Run(s, actions, end)
    decreases |actions|
  {
    hide OrderedInv, InVersionOrder, Enabled, After;
    if actions == [] {
      b' := b;
    } else {
      var b1 := OrderedStep(s, b, actions[0]);
      b' := OrderedRunInv(After(s, actions[0]), b1, actions[1..], end);
    }
  }

  /** Exactly the deltas from `cur` on are still to be sent to this session. */
  ghost predicate Unsent(s: State, x: Session, cur: nat) {
    cur <= |s.past.deltas| && forall i: nat :: i in x.pending || (i < |s.past.deltas| && i !in s.begun) <==> cur <= i < |s.past.deltas|
  }

  /** No delta newer than the snapshot was sent ahead of it. */
  predicate NotOvertaken(x: Session)
    requires HasMoment(x)
  {
    forall i | i in x.early :: i < Moment(x)
  }

  lemma SplitGood(x: Session, from: nat, c: nat, cur: nat, b: nat, n: nat)
    requires Split(x, from, c, cur, b) && x.phase.Live? && x.phase.since <= n && b <= n
    ensures GoodOrder(x.order + Range(cur, n), x.phase.since, n) <==> NotOvertaken(x)
  {
    hide GoodOrder;
    assert x.order + Range(cur, n) == Range(c, n);
    SuffixGood(c, x.phase.since, n);
    if from < c {
      assert c - 1 in x.early;
    }
  }

  /** When broadcasts start and arrive in version order, completing them in that order is a good
      order exactly when the snapshot was not overtaken; then cache plus frames in flight plus
      deltas not yet sent gives the current value, and a drained client equals the server. */
  lemma OrderedConvergence(s: State, actions: seq<Action>, end: State, sid: nat)
    requires Initial(s) && OrderedRun(s, actions, end) && sid in end.sessions
    requires end.sessions[sid].phase.Live? && !end.sessions[sid].cancelled
    ensures var x, n := end.sessions[sid], |end.past.deltas|;
      exists cur: nat ::
        && Unsent(end, x, cur)
        && (GoodOrder(x.order + Range(cur, n), x.phase.since, n) <==> NotOvertaken(x))
        && (end.key != "" && NotOvertaken(x) ==>
              end.past.slots != [] && Shows(OnFrames(end.key, x.replica, x.channel + FramesOf(end.past, Range(cur, n))), Current(end.past)))
    ensures end.key != "" && NotOvertaken(end.sessions[sid]) && Drained(end, sid) ==>
      end.past.slots != [] && Shows(end.sessions[sid].replica, Current(end.past))
  {
    hide Enabled, After, Inv, GoodOrder, OnFrames, Run, OrderedRun;
    InitialInv(s);
    assert OrderedInv(s, 0);
    var b := OrderedRunInv(s, 0, actions, end);
    var x, n := end.sessions[sid], |end.past.deltas|;
    assert OrderedSession(x, b);
    var from: nat, c: nat, cur: nat :| Split(x, from, c, cur, b);
    Convergence(s, actions, end, sid, Range(cur, n));
    SplitGood(x, from, c, cur, b, n);
    assert Unsent(end, x, cur);
    if Drained(end, sid) {
      assert b == n by { assert n > 0 ==> n - 1 in end.begun; }
      assert cur == n by { assert cur < n ==> cur in x.pending; }
      assert x.channel + FramesOf(end.past, Range(n, n)) == [];
      EmptyFrames(end.key, x);
    }
  }
}
