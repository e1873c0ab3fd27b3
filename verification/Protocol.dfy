/** Replication of one state key to any number of sessions, as interleaved atomic steps.

    A write, the start of its broadcast, each per-session send, the three parts of
    WATCH/RESUME (subscribe, read, send STATE_INIT), each delivery, and connection loss
    are separate steps. Broadcasts of one key may start and reach a session in any order;
    the writer's own copy, sent after its broadcast, is one of those sends. */
module Protocol {
  import opened Basics
  import opened Json
  import opened Delta
  import opened Paths
  import opened Wire
  import opened Schedule
  import opened Store

  /** STATE_INIT carries the value and whether the key exists; DELTA carries ops. */
  datatype Frame = InitFrame(version: nat, slot: Slot) | DeltaFrame(version: nat, ops: seq<WOp>)

  // ---------- client ----------

  /** A client's watch entry; `bound` says its stream id has been announced by STATE_INIT. */
  datatype Replica = Replica(bound: bool, value: Value, initialized: bool, version: nat)

  const FRESH: Replica := Replica(false, Null, false, 0)

  predicate IsRootRemove(op: WOp) {
    op.Remove? && op.path == "/"
  }

  /** `onStateInit` and `onDelta` of the watch entry of `key`: deltas are dropped on an
      unannounced stream, and always for the empty key. */
  function OnFrame(key: string, r: Replica, f: Frame): Replica {
    match f
    case InitFrame(version, slot) => Replica(true, Visible(slot), slot.Present?, version)
    case DeltaFrame(version, ops) =>
      if !r.bound || key == "" then r
      else Replica(true, Receive(r.value, ops), !(exists i | 0 <= i < |ops| :: IsRootRemove(ops[i])), version)
  }

  function OnFrames(key: string, r: Replica, fs: seq<Frame>): Replica
    decreases |fs|
  {
    if fs == [] then r else OnFrames(key, OnFrame(key, r, fs[0]), fs[1..])
  }

  /** A replica that shows `s`: the value, and whether the key exists. */
  predicate Shows(r: Replica, s: Slot) {
    r.bound && r.value == Visible(s) && r.initialized == s.Present?
  }

  // ---------- server ----------

  datatype Phase =
    | Offline
    | Subscribed                     // in the fanout list, nothing read yet
    | Replaying(rest: seq<Frame>)    // RESUME: logged deltas still to send
    | HasRead(at: nat, version: nat) // value of moment `at` read, STATE_INIT not yet sent
    | Live(since: nat, version: nat) // STATE_INIT with the value of moment `since` sent

  /** `pending` are the deltas some broadcast still has to send to this session, `early` those
      sent before STATE_INIT and `order` those sent after it, in that order; `cancelled`
      marks a session closed for overflow. */
  datatype Session = Session(phase: Phase, early: set<nat>, pending: set<nat>, order: seq<nat>,
                             channel: seq<Frame>, replica: Replica, cancelled: bool)

  /** `past` is the key's past, `version` its entry version, `begun` the deltas whose broadcast
      has taken its subscriber list. */
  datatype State = State(key: string, past: Past, version: nat, begun: set<nat>, sessions: map<nat, Session>)

  datatype Action =
    | Write(t: Slot, d: Logged)       // apply or delete that changes something
    | Touch(version: nat)             // apply that changes nothing
    | Begin(delta: nat)               // a broadcast takes its subscriber list
    | Connect(sid: nat)
    | Subscribe(sid: nat)
    | ReadLog(sid: nat)
    | SendReplay(sid: nat)
    | ReadSnapshot(sid: nat)
    | SendInit(sid: nat)
    | Push(sid: nat, delta: nat)      // one delta into one session's channel
    | Overflow(sid: nat, delta: nat)  // the channel was full: the delta is lost, the session cancelled
    | LoseReplay(sid: nat)            // the same for a replayed delta
    | LoseInit(sid: nat)              // and for STATE_INIT
    | Deliver(sid: nat)
    | Drop(sid: nat)

  function DeltaFrames(ds: seq<Logged>): (r: seq<Frame>)
    ensures |r| == |ds|
    ensures forall i | 0 <= i < |ds| :: r[i] == DeltaFrame(ds[i].version, ds[i].ops)
  {
    seq(|ds|, i requires 0 <= i < |ds| => DeltaFrame(ds[i].version, ds[i].ops))
  }

  /** The DELTA frames of the deltas numbered by `order`. */
  function FramesOf(p: Past, order: seq<nat>): (r: seq<Frame>)
    requires InRange(order, |p.deltas|)
    ensures |r| == |order|
  {
    DeltaFrames(Pick(p.deltas, order))
  }

  predicate Has(s: State, sid: nat) {
    sid in s.sessions
  }

  predicate CanReplay(s: State, sid: nat) {
    Has(s, sid) && s.sessions[sid].phase.Replaying? && s.sessions[sid].phase.rest != []
  }

  predicate CanInit(s: State, sid: nat) {
    Has(s, sid) && s.sessions[sid].phase.HasRead? && s.sessions[sid].phase.at < |s.past.slots|
  }

  predicate CanSend(s: State, sid: nat, i: nat) {
    Has(s, sid) && !s.sessions[sid].phase.Offline? && i in s.sessions[sid].pending && i < |s.past.deltas|
  }

  ghost predicate Enabled(s: State, a: Action) {
    match a
    case Write(t, d) =>
      && s.past.slots != [] && SafeSlot(t) && d.ops != [] && IsWireDelta(Current(s.past), t, d.ops)
      && d.version > s.version
    case Touch(version) => version > s.version && s.past.slots != [] && Current(s.past).Present?
    case Begin(i) => i < |s.past.deltas| && i !in s.begun
    case Connect(sid) => !Has(s, sid)
    case Subscribe(sid) => Has(s, sid) && s.sessions[sid].phase.Offline?
    case ReadLog(sid) => Has(s, sid) && s.sessions[sid].phase.Subscribed? && s.sessions[sid].replica.version > 0
    case SendReplay(sid) => CanReplay(s, sid)
    case LoseReplay(sid) => CanReplay(s, sid)
    case ReadSnapshot(sid) =>
      && Has(s, sid) && s.past.slots != []
      && (match s.sessions[sid].phase
          case Subscribed => s.sessions[sid].replica.version == 0
          case Replaying(rest) => rest == []
          case _ => false)
    case SendInit(sid) => CanInit(s, sid)
    case LoseInit(sid) => CanInit(s, sid)
    case Push(sid, i) => CanSend(s, sid, i)
    case Overflow(sid, i) => CanSend(s, sid, i)
    case Deliver(sid) => Has(s, sid) && s.sessions[sid].channel != []
    case Drop(sid) => Has(s, sid) && !s.sessions[sid].phase.Offline?
  }

  function With(s: State, sid: nat, x: Session): State {
    s.(sessions := s.sessions[sid := x])
  }

  /** A broadcast of delta `i` will send to every session subscribed now. */
  function Listed(x: Session, i: nat): Session {
    if x.phase.Offline? then x else x.(pending := x.pending + {i})
  }

  /** The version STATE_INIT carries: 0 for a key that does not exist. */
  function InitVersion(s: State): nat
    requires s.past.slots != []
  {
    if Current(s.past).Present? then s.version else 0
  }

  /** One delta sent to one session. */
  function Pushed(x: Session, i: nat, f: Frame): Session {
    var y := x.(pending := x.pending - {i}, channel := x.channel + [f]);
    if x.phase.Live? then y.(order := x.order + [i]) else y.(early := x.early + {i})
  }

  function After(s: State, a: Action): State
    requires Enabled(s, a)
  {
    match a
    case Write(t, d) => s.(past := Extend(s.past, t, d), version := d.version)
    case Touch(version) => s.(version := version)
    case Begin(i) =>
      s.(begun := s.begun + {i}, sessions := map sid | sid in s.sessions :: Listed(s.sessions[sid], i))
    case Connect(sid) => With(s, sid, Session(Offline, {}, {}, [], [], FRESH, false))
    case Subscribe(sid) => With(s, sid, Session(Subscribed, {}, {}, [], [], s.sessions[sid].replica, false))
    case ReadLog(sid) =>
      var x := s.sessions[sid];
      var missed := Newer(Newest(s.past.deltas, MAX_LOG), x.replica.version);
      With(s, sid, x.(phase := Replaying(DeltaFrames(missed))))
    case SendReplay(sid) =>
      var x := s.sessions[sid];
      With(s, sid, x.(phase := Replaying(x.phase.rest[1..]), channel := x.channel + [x.phase.rest[0]]))
    case ReadSnapshot(sid) =>
      With(s, sid, s.sessions[sid].(phase := HasRead(|s.past.slots| - 1, InitVersion(s))))
    case SendInit(sid) =>
      var x := s.sessions[sid];
      var init := InitFrame(x.phase.version, s.past.slots[x.phase.at]);
      With(s, sid, x.(phase := Live(x.phase.at, x.phase.version), channel := x.channel + [init]))
    case Push(sid, i) =>
      var d := s.past.deltas[i];
      With(s, sid, Pushed(s.sessions[sid], i, DeltaFrame(d.version, d.ops)))
    case Overflow(sid, i) =>
      var x := s.sessions[sid];
      With(s, sid, x.(pending := x.pending - {i}, cancelled := true))
    case LoseReplay(sid) =>
      var x := s.sessions[sid];
      With(s, sid, x.(phase := Replaying(x.phase.rest[1..]), cancelled := true))
    case LoseInit(sid) =>
      var x := s.sessions[sid];
      With(s, sid, x.(phase := Live(x.phase.at, x.phase.version), cancelled := true))
    case Deliver(sid) =>
      var x := s.sessions[sid];
      With(s, sid, x.(channel := x.channel[1..], replica := OnFrame(s.key, x.replica, x.channel[0])))
    case Drop(sid) =>
      var x := s.sessions[sid];
      With(s, sid, Session(Offline, {}, {}, [], [], x.replica.(bound := false), x.cancelled))
  }

  // ---------- client steps and slots ----------

  lemma {:induction false} OnFramesAppend(key: string, r: Replica, a: seq<Frame>, b: seq<Frame>)
    ensures OnFrames(key, r, a + b) == OnFrames(key, OnFrames(key, r, a), b)
    decreases |a|
  {
    if a == [] {
      assert a + b == b;
    } else {
      assert (a + b)[1..] == a[1..] + b;
      OnFramesAppend(key, OnFrame(key, r, a[0]), a[1..], b);
    }
  }

  lemma OnFramesSnoc(key: string, r: Replica, a: seq<Frame>, f: Frame)
    ensures OnFrames(key, r, a + [f]) == OnFrame(key, OnFrames(key, r, a), f)
  {
    OnFramesAppend(key, r, a, [f]);
    assert [f][1..] == [];
    var q := OnFrames(key, r, a);
    assert OnFrames(key, q, [f]) == OnFrames(key, OnFrame(key, q, f), []);
  }

  /** Slots stay present unless the last op is a root REMOVE. */
  lemma {:induction false} StaysPresent(s: Slot, ops: seq<POp>)
    requires ops != [] && !(ops[|ops| - 1].Remove? && ops[|ops| - 1].path == [])
    ensures ApplyAll(s, ops).Present?
    decreases |ops|
  {
    if |ops| == 1 {
      assert ops[1..] == [];
      assert ApplyAll(s, ops) == ApplySlot(s, ops[0]);
    } else {
      assert ops[1..][|ops| - 2] == ops[|ops| - 1];
      StaysPresent(ApplySlot(s, ops[0]), ops[1..]);
    }
  }

  lemma NoRootRemove(v: Value, w: Value, ops: seq<POp>, i: nat)
    requires IsDiff(v, w, ops) && i < |ops|
    ensures !(ops[i].Remove? && ops[i].path == [])
  {
  }

  /** A genuine delta updates a replica's value and its "exists" flag the way it updates a slot. */
  lemma DeltaOnReplica(key: string, s: Slot, t: Slot, ops: seq<WOp>, from: Slot, r: Replica, version: nat)
    requires key != "" && IsWireDelta(s, t, ops) && ops != [] && SafeSlot(s) && SafeSlot(t)
    requires Shows(r, from)
    ensures Shows(OnFrame(key, r, DeltaFrame(version, ops)), ReceiveFrame(from, ops))
  {
    WireDeltaParses(s, t, ops);
    var parsed := ParseAll(ops);
    ApplyOpsIsVisible(from, parsed);
    if t.Absent? {
      assert parsed == [Remove([])];
      assert parsed[1..] == [];
      assert ApplyAll(from, parsed) == Absent;
      RemoveIsRoot(ops);
    } else {
      forall i | 0 <= i < |ops| ensures !IsRootRemove(ops[i]) {
        assert parsed[i] == WithPath(ops[i], ParsePath(ops[i].path));
        if s.Present? {
          NoRootRemove(s.value, t.value, parsed, i);
        }
      }
      if s.Present? {
        NoRootRemove(s.value, t.value, parsed, |parsed| - 1);
      }
      StaysPresent(from, parsed);
    }
  }

  lemma RemoveIsRoot(ops: seq<WOp>)
    requires ParseAll(ops) == [Remove([])]
    ensures |ops| == 1 && IsRootRemove(ops[0])
  {
    assert ParseAll(ops)[0] == WithPath(ops[0], ParsePath(ops[0].path));
  }

  /** Delta `i` of a key's past, on a replica as on a slot. */
  lemma PastDeltaOnReplica(s: State, i: nat, from: Slot, r: Replica)
    requires ValidState(s) && s.key != "" && i < |s.past.deltas| && Shows(r, from)
    ensures var d := s.past.deltas[i];
      Shows(OnFrame(s.key, r, DeltaFrame(d.version, d.ops)), ReceiveFrame(from, d.ops))
  {
    hide IsWireDelta, SafeSlot, OnFrame, ReceiveFrame;
    DeltaOnReplica(s.key, s.past.slots[i], s.past.slots[i + 1], s.past.deltas[i].ops, from, r, s.past.deltas[i].version);
  }

  // ---------- the invariant ----------

  ghost predicate ValidState(s: State) {
    && ValidPast(s.past)
    && (forall i | 0 <= i < |s.past.slots| :: SafeSlot(s.past.slots[i]))
    && (forall i | 0 <= i < |s.past.deltas| :: s.past.deltas[i].version <= s.version)
    && (forall i | i in s.begun :: i < |s.past.deltas|)
  }

  /** What a client shows that starts from the value of moment `at` and receives these deltas. */
  function Shown(s: State, at: nat, order: seq<nat>): Slot
    requires at < |s.past.slots| && InRange(order, |s.past.deltas|)
  {
    if s.key == "" then s.past.slots[at] else ReceiveAll(s.past.slots[at], Pick(Frames(s.past.deltas), order))
  }

  predicate OnlyDeltas(fs: seq<Frame>) {
    forall i | 0 <= i < |fs| :: fs[i].DeltaFrame?
  }

  /** Between subscribing and STATE_INIT. */
  predicate Waiting(x: Session) {
    x.phase.Subscribed? || x.phase.Replaying? || x.phase.HasRead?
  }

  predicate HasMoment(x: Session) {
    x.phase.HasRead? || x.phase.Live?
  }

  /** The moment of the value read, once it has been read. */
  function Moment(x: Session): nat
    requires HasMoment(x)
  {
    if x.phase.HasRead? then x.phase.at else x.phase.since
  }

  /** The version sent with the value read: none for an absent key, otherwise one that tells exactly
      the deltas the value lacks from those it has. */
  predicate VersionMarks(s: State, x: Session)
    requires HasMoment(x) && Moment(x) < |s.past.slots|
  {
    && x.phase.version <= s.version
    && if s.past.slots[Moment(x)].Absent? then x.phase.version == 0
       else Store.Held(s.past.deltas, x.phase.version) == Moment(x)
  }

  /** The version a client holds once what is in flight has arrived. */
  function LatestVersion(s: State, x: Session): nat
    requires x.phase.Live? && InRange(x.order, |s.past.deltas|)
  {
    if s.key == "" || x.order == [] then x.phase.version else s.past.deltas[x.order[|x.order| - 1]].version
  }

  /** The bookkeeping of sends: each delta is sent at most once, and nothing after `at` is forgotten. */
  ghost predicate SendsOk(s: State, x: Session) {
    && x.pending <= s.begun && x.early <= s.begun && x.early !! x.pending
    && (forall p | 0 <= p < |x.order| :: x.order[p] in s.begun && x.order[p] !in x.early && x.order[p] !in x.pending)
    && NoRepeats(x.order)
    && (HasMoment(x) ==>
          && Moment(x) < |s.past.slots| && VersionMarks(s, x)
          && (!x.cancelled ==> forall j | j in s.begun && Moment(x) <= j :: j in x.pending || j in x.early || j in x.order))
  }

  ghost predicate ClientOk(s: State, x: Session)
    requires s.past.slots != [] && SendsOk(s, x) && ValidState(s)
  {
    && (!x.phase.Live? ==> !x.replica.bound && x.order == [])
    && (x.phase.Offline? ==> x.channel == [])
    && (x.phase.Replaying? ==> OnlyDeltas(x.phase.rest))
    && (Waiting(x) ==> OnlyDeltas(x.channel))
    && (x.phase.Live? && !x.cancelled ==>
          && Shows(OnFrames(s.key, x.replica, x.channel), Shown(s, x.phase.since, x.order))
          && OnFrames(s.key, x.replica, x.channel).version == LatestVersion(s, x))
  }

  ghost predicate ValidSession(s: State, x: Session)
    requires ValidState(s)
  {
    SendsOk(s, x) && ClientOk(s, x)
  }

  ghost predicate Inv(s: State) {
    ValidState(s) && forall sid | sid in s.sessions :: ValidSession(s, s.sessions[sid])
  }

  /** A step of one session keeps the invariant if that session stays valid. */
  lemma SessionStep(s: State, sid: nat, x: Session)
    requires Inv(s) && ValidSession(s, x)
    ensures Inv(With(s, sid, x))
  {
    hide IsWireDelta, SafeSlot, ValidPast, OnFrames, ReceiveAll;
    var s' := With(s, sid, x);
    assert ValidState(s');
    forall i | i in s'.sessions ensures ValidSession(s', s'.sessions[i]) {
      var y := if i == sid then x else s.sessions[i];
      assert ValidSession(s, y);
      SameFacts(s, s', y);
    }
  }

  /** A session's validity depends on the key, the past, the version and the begun broadcasts. */
  lemma SameFacts(s: State, t: State, x: Session)
    requires ValidState(s) && ValidSession(s, x)
    requires t == s.(sessions := t.sessions)
    ensures ValidState(t) && ValidSession(t, x)
  {
    hide IsWireDelta, SafeSlot, ValidPast, OnFrames, ReceiveAll;
  }

  // ---------- every step keeps the invariant ----------

  lemma ShownGrows(s: State, t: Slot, d: Logged, at: nat, order: seq<nat>)
    requires at < |s.past.slots| && InRange(order, |s.past.deltas|)
    ensures Shown(s.(past := Extend(s.past, t, d), version := d.version), at, order) == Shown(s, at, order)
  {
    assert Pick(Frames(s.past.deltas + [d]), order) == Pick(Frames(s.past.deltas), order);
  }

  /** A newer delta does not change what a version tells. */
  lemma {:induction false} HeldSnoc(ds: seq<Logged>, d: Logged, version: nat)
    requires d.version > version
    ensures Store.Held(ds + [d], version) == Store.Held(ds, version)
    decreases |ds|
  {
    if ds == [] {
      assert ds + [d] == [d];
    } else if ds[0].version <= version {
      assert (ds + [d])[1..] == ds[1..] + [d];
      HeldSnoc(ds[1..], d, version);
    }
  }

  /** A version no older than any delta tells that all of them are held. */
  lemma {:induction false} HeldAll(ds: seq<Logged>, version: nat)
    requires forall i | 0 <= i < |ds| :: ds[i].version <= version
    ensures Store.Held(ds, version) == |ds|
    decreases |ds|
  {
    if ds != [] {
      HeldAll(ds[1..], version);
    }
  }

  /** A write changes nothing for any session until it is broadcast. */
  lemma WriteKeepsSession(s: State, t: Slot, d: Logged, x: Session)
    requires ValidState(s) && Enabled(s, Write(t, d)) && ValidSession(s, x) && ValidState(After(s, Write(t, d)))
    ensures ValidSession(After(s, Write(t, d)), x)
  {
    hide IsWireDelta, SafeSlot, ValidPast, OnFrames, Shown, Store.Held;
    if HasMoment(x) {
      HeldSnoc(s.past.deltas, d, x.phase.version);
    }
    if x.phase.Live? {
      ShownGrows(s, t, d, x.phase.since, x.order);
    }
  }

  lemma WriteStep(s: State, t: Slot, d: Logged)
    requires Inv(s) && Enabled(s, Write(t, d))
    ensures Inv(After(s, Write(t, d)))
  {
    hide IsWireDelta, SafeSlot, ValidSession;
    ExtendValid(s.past, t, d);
    assert ValidState(After(s, Write(t, d)));
    forall sid | sid in s.sessions ensures ValidSession(After(s, Write(t, d)), s.sessions[sid]) {
      WriteKeepsSession(s, t, d, s.sessions[sid]);
    }
  }

  lemma TouchStep(s: State, version: nat)
    requires Inv(s) && Enabled(s, Touch(version))
    ensures Inv(After(s, Touch(version)))
  {
    hide IsWireDelta, SafeSlot, ValidPast, OnFrames, ReceiveAll;
    var s' := After(s, Touch(version));
    assert ValidState(s');
    forall sid | sid in s.sessions ensures ValidSession(s', s.sessions[sid]) {
      assert ValidSession(s, s.sessions[sid]);
    }
  }

  lemma BeginKeepsSession(s: State, t: State, i: nat, x: Session)
    requires ValidState(s) && ValidState(t) && ValidSession(s, x)
    requires i !in s.begun && t == s.(begun := s.begun + {i}, sessions := t.sessions)
    ensures ValidSession(t, Listed(x, i))
  {
    hide IsWireDelta, SafeSlot, ValidPast, OnFrames, ReceiveAll;
  }

  lemma BeginStep(s: State, i: nat)
    requires Inv(s) && Enabled(s, Begin(i))
    ensures Inv(After(s, Begin(i)))
  {
    hide IsWireDelta, SafeSlot, ValidPast, ValidSession, Listed;
    var s' := After(s, Begin(i));
    assert ValidState(s');
    forall sid | sid in s'.sessions ensures ValidSession(s', s'.sessions[sid]) {
      BeginKeepsSession(s, s', i, s.sessions[sid]);
    }
  }

  lemma SendInitKeepsSession(s: State, sid: nat)
    requires Inv(s) && Enabled(s, SendInit(sid))
    ensures ValidSession(s, After(s, SendInit(sid)).sessions[sid])
  {
    hide IsWireDelta, SafeSlot, ValidPast, Shown, OnFrames, VersionMarks;
    var x := s.sessions[sid];
    assert ValidSession(s, x);
    SameMarks(s, x, After(s, SendInit(sid)).sessions[sid]);
    var init := InitFrame(x.phase.version, s.past.slots[x.phase.at]);
    OnFramesSnoc(s.key, x.replica, x.channel, init);
    ShownAtFirst(s, x.phase.at);
  }

  lemma ShownAtFirst(s: State, at: nat)
    requires at < |s.past.slots|
    ensures Shown(s, at, []) == s.past.slots[at]
  {
    assert Pick(Frames(s.past.deltas), []) == [];
  }

  lemma ReceiveAllSnoc(s: Slot, ds: seq<seq<WOp>>, d: seq<WOp>)
    ensures ReceiveAll(s, ds + [d]) == ReceiveFrame(ReceiveAll(s, ds), d)
  {
    hide ReceiveFrame;
    ReceiveAllAppend(s, ds, [d]);
    assert [d][1..] == [];
    var t := ReceiveAll(s, ds);
    assert ReceiveAll(t, [d]) == ReceiveAll(ReceiveFrame(t, d), []);
  }

  lemma PushedShows(s: State, x: Session, i: nat)
    requires ValidState(s) && i < |s.past.deltas| && x.phase.Live? && x.phase.since < |s.past.slots|
    requires InRange(x.order, |s.past.deltas|)
    requires Shows(OnFrames(s.key, x.replica, x.channel), Shown(s, x.phase.since, x.order))
    ensures var f := DeltaFrame(s.past.deltas[i].version, s.past.deltas[i].ops);
      Shows(OnFrames(s.key, x.replica, x.channel + [f]), Shown(s, x.phase.since, x.order + [i]))
  {
    hide ValidState, OnFrames, ReceiveAll, ReceiveFrame;
    var d := s.past.deltas[i];
    var f := DeltaFrame(d.version, d.ops);
    var r := OnFrames(s.key, x.replica, x.channel);
    OnFramesSnoc(s.key, x.replica, x.channel, f);
    if s.key != "" {
      var frames := Frames(s.past.deltas);
      PastDeltaOnReplica(s, i, Shown(s, x.phase.since, x.order), r);
      assert Pick(frames, x.order + [i]) == Pick(frames, x.order) + [d.ops];
      ReceiveAllSnoc(s.past.slots[x.phase.since], Pick(frames, x.order), d.ops);
    }
  }

  lemma PushedVersion(s: State, x: Session, i: nat)
    requires i < |s.past.deltas| && x.phase.Live? && InRange(x.order, |s.past.deltas|)
    requires OnFrames(s.key, x.replica, x.channel).bound && OnFrames(s.key, x.replica, x.channel).version == LatestVersion(s, x)
    ensures var f := DeltaFrame(s.past.deltas[i].version, s.past.deltas[i].ops);
      OnFrames(s.key, x.replica, x.channel + [f]).version == LatestVersion(s, x.(order := x.order + [i]))
  {
    hide OnFrames, Receive;
    var f := DeltaFrame(s.past.deltas[i].version, s.past.deltas[i].ops);
    OnFramesSnoc(s.key, x.replica, x.channel, f);
  }

  lemma PushKeepsSession(s: State, sid: nat, i: nat)
    requires Inv(s) && Enabled(s, Push(sid, i))
    ensures ValidSession(s, After(s, Push(sid, i)).sessions[sid])
  {
    hide IsWireDelta, SafeSlot, ValidPast, OnFrames, Shown, VersionMarks;
    var x := s.sessions[sid];
    assert ValidSession(s, x);
    SameMarks(s, x, After(s, Push(sid, i)).sessions[sid]);
    if x.phase.Live? && !x.cancelled {
      PushedShows(s, x, i);
      PushedVersion(s, x, i);
    }
  }

  lemma SameMarks(s: State, x: Session, y: Session)
    requires HasMoment(x) == HasMoment(y)
    requires HasMoment(x) ==> Moment(x) == Moment(y) && x.phase.version == y.phase.version
    ensures HasMoment(x) && Moment(x) < |s.past.slots| ==> VersionMarks(s, x) == VersionMarks(s, y)
  {
  }

  lemma DeliverCloser(key: string, x: Session)
    requires x.channel != []
    ensures OnFrames(key, OnFrame(key, x.replica, x.channel[0]), x.channel[1..]) == OnFrames(key, x.replica, x.channel)
  {
  }

  lemma DeliverKeepsSession(s: State, sid: nat)
    requires Inv(s) && Enabled(s, Deliver(sid))
    ensures ValidSession(s, After(s, Deliver(sid)).sessions[sid])
  {
    hide IsWireDelta, SafeSlot, ValidPast, Receive, Shown, VersionMarks, NoRepeats, InRange;
    var x := s.sessions[sid];
    assert ValidSession(s, x);
    SameMarks(s, x, After(s, Deliver(sid)).sessions[sid]);
    DeliverCloser(s.key, x);
  }

  lemma LoggedAreDeltas(ds: seq<Logged>)
    ensures OnlyDeltas(DeltaFrames(ds))
  {
  }

  /** The steps that only move one session from phase to phase. */
  lemma EnterStep(s: State, a: Action, sid: nat)
    requires Inv(s) && Enabled(s, a) && a in {Connect(sid), Subscribe(sid), Drop(sid)}
    ensures ValidSession(s, After(s, a).sessions[sid])
  {
    hide IsWireDelta, SafeSlot, OnFrames, OnFrame, Shown, VersionMarks, LatestVersion, ValidPast;
    if sid in s.sessions {
      assert ValidSession(s, s.sessions[sid]);
    }
  }

  lemma SnapshotStep(s: State, sid: nat)
    requires Inv(s) && Enabled(s, ReadSnapshot(sid))
    ensures ValidSession(s, After(s, ReadSnapshot(sid)).sessions[sid])
  {
    hide IsWireDelta, SafeSlot, OnFrames, OnFrame, Shown, NoRepeats, LatestVersion, Store.Held;
    assert ValidSession(s, s.sessions[sid]);
    HeldAll(s.past.deltas, s.version);
  }

  lemma WaitStep(s: State, a: Action, sid: nat)
    requires Inv(s) && Enabled(s, a) && a in {ReadLog(sid), SendReplay(sid), LoseReplay(sid)}
    ensures ValidSession(s, After(s, a).sessions[sid])
  {
    hide IsWireDelta, SafeSlot, OnFrames, OnFrame, Newer, Newest, Shown, VersionMarks, NoRepeats, LatestVersion, ValidPast;
    assert ValidSession(s, s.sessions[sid]);
    if a.ReadLog? {
      LoggedAreDeltas(Newer(Newest(s.past.deltas, MAX_LOG), s.sessions[sid].replica.version));
    }
  }

  lemma LossStep(s: State, a: Action, sid: nat, i: nat)
    requires Inv(s) && Enabled(s, a) && a in {Overflow(sid, i), LoseInit(sid)}
    ensures ValidSession(s, After(s, a).sessions[sid])
  {
    hide IsWireDelta, SafeSlot, ValidPast, OnFrames, OnFrame, Shown, VersionMarks, LatestVersion;
    assert ValidSession(s, s.sessions[sid]);
    SameMarks(s, s.sessions[sid], After(s, a).sessions[sid]);
  }

  /** Every step keeps the invariant. */
  lemma StepKeepsInv(s: State, a: Action)
    requires Inv(s) && Enabled(s, a)
    ensures Inv(After(s, a))
  {
    hide Inv, ValidSession, ValidState, OnFrame, Newer, Newest;
    var s' := After(s, a);
    match a
    case Write(t, d) => WriteStep(s, t, d);
    case Touch(version) => TouchStep(s, version);
    case Begin(i) => BeginStep(s, i);
    case Connect(sid) => EnterStep(s, a, sid); SessionStep(s, sid, s'.sessions[sid]);
    case Subscribe(sid) => EnterStep(s, a, sid); SessionStep(s, sid, s'.sessions[sid]);
    case ReadLog(sid) => WaitStep(s, a, sid); SessionStep(s, sid, s'.sessions[sid]);
    case SendReplay(sid) => WaitStep(s, a, sid); SessionStep(s, sid, s'.sessions[sid]);
    case LoseReplay(sid) => WaitStep(s, a, sid); SessionStep(s, sid, s'.sessions[sid]);
    case ReadSnapshot(sid) => SnapshotStep(s, sid); SessionStep(s, sid, s'.sessions[sid]);
    case SendInit(sid) => SendInitKeepsSession(s, sid); SessionStep(s, sid, s'.sessions[sid]);
    case LoseInit(sid) => LossStep(s, a, sid, 0); SessionStep(s, sid, s'.sessions[sid]);
    case Push(sid, i) => PushKeepsSession(s, sid, i); SessionStep(s, sid, s'.sessions[sid]);
    case Overflow(sid, i) => LossStep(s, a, sid, i); SessionStep(s, sid, s'.sessions[sid]);
    case Deliver(sid) => DeliverKeepsSession(s, sid); SessionStep(s, sid, s'.sessions[sid]);
    case Drop(sid) => EnterStep(s, a, sid); SessionStep(s, sid, s'.sessions[sid]);
  }

  // ---------- runs ----------

  /** A server that has just opened its store, with or without a value for the key. */
  predicate Initial(s: State) {
    && |s.past.slots| == 1 && SafeSlot(s.past.slots[0]) && s.past.deltas == []
    && s.begun == {} && s.sessions == map[]
  }

  /** The state after `actions`, each of them enabled in turn. */
  ghost predicate Run(s: State, actions: seq<Action>, end: State)
    decreases |actions|
  {
    if actions == [] then end == s
    else Enabled(s, actions[0]) && Run(After(s, actions[0]), actions[1..], end)
  }

  lemma {:induction false} RunKeepsInv(s: State, actions: seq<Action>, end: State)
    requires Inv(s) && Run(s, actions, end)
    ensures Inv(end) && end.key == s.key
    decreases |actions|
  {
    hide Inv;
    if actions != [] {
      StepKeepsInv(s, actions[0]);
      RunKeepsInv(After(s, actions[0]), actions[1..], end);
    }
  }

  lemma PastHistory(s: State)
    requires ValidState(s)
    ensures History(s.past.slots, Frames(s.past.deltas))
  {
    hide IsWireDelta, SafeSlot;
    var ds := Frames(s.past.deltas);
    forall i | 0 <= i < |ds| ensures IsWireDelta(s.past.slots[i], s.past.slots[i + 1], ds[i]) {
      assert ds[i] == s.past.deltas[i].ops;
    }
  }

  /** Further deltas, in any order, on top of what a live client will show. */
  lemma {:induction false} RestShows(s: State, x: Session, rest: seq<nat>)
    requires ValidState(s) && x.phase.Live? && x.phase.since < |s.past.slots|
    requires InRange(x.order, |s.past.deltas|) && InRange(rest, |s.past.deltas|)
    requires Shows(OnFrames(s.key, x.replica, x.channel), Shown(s, x.phase.since, x.order))
    ensures Shows(OnFrames(s.key, x.replica, x.channel + FramesOf(s.past, rest)), Shown(s, x.phase.since, x.order + rest))
    decreases |rest|
  {
    hide ValidState, OnFrames, Shown;
    if rest == [] {
      assert x.channel + FramesOf(s.past, rest) == x.channel;
      assert x.order + rest == x.order;
    } else {
      var n := |rest| - 1;
      RestShows(s, x, rest[..n]);
      var y := x.(channel := x.channel + FramesOf(s.past, rest[..n]), order := x.order + rest[..n]);
      PushedShows(s, y, rest[n]);
      var f := DeltaFrame(s.past.deltas[rest[n]].version, s.past.deltas[rest[n]].ops);
      assert y.channel + [f] == x.channel + FramesOf(s.past, rest);
      assert y.order + [rest[n]] == x.order + rest;
    }
  }

  /** In every run, a live client shows, once what is in flight has arrived, exactly its snapshot
      plus the deltas sent after STATE_INIT in the order they were sent. */
  lemma LiveShows(s: State, actions: seq<Action>, end: State, sid: nat)
    requires Initial(s) && Run(s, actions, end) && sid in end.sessions
    ensures ValidState(end) && end.key == s.key
    ensures var x := end.sessions[sid];
      x.phase.Live? && !x.cancelled ==>
        && x.phase.since < |end.past.slots| == |end.past.deltas| + 1
        && InRange(x.order, |end.past.deltas|) && NoRepeats(x.order)
        && Shows(OnFrames(end.key, x.replica, x.channel), Shown(end, x.phase.since, x.order))
  {
    hide OnFrames, Shown, IsWireDelta, SafeSlot;
    InitialInv(s);
    RunKeepsInv(s, actions, end);
    assert ValidSession(end, end.sessions[sid]);
  }

  /** In every run, once what is in flight has arrived, a live client of a non-empty key holds the
      version of the last delta sent to it, or the version sent with its snapshot if there was
      none since. That version tells exactly the deltas up to it from those after it, so a
      later RESUME asks for the right ones. */
  lemma LiveVersion(s: State, actions: seq<Action>, end: State, sid: nat)
    requires Initial(s) && Run(s, actions, end) && sid in end.sessions
    requires end.sessions[sid].phase.Live? && !end.sessions[sid].cancelled
    ensures var x, ds := end.sessions[sid], end.past.deltas;
      && InRange(x.order, |ds|) && x.phase.since < |end.past.slots|
      && var v := OnFrames(end.key, x.replica, x.channel).version;
         if end.key == "" || x.order == [] then
           && v == x.phase.version
           && (if end.past.slots[x.phase.since].Absent? then v == 0 else Store.Held(ds, v) == x.phase.since)
         else
           v == ds[x.order[|x.order| - 1]].version && Store.Held(ds, v) == x.order[|x.order| - 1] + 1
  {
    hide Initial, Run, Inv, OnFrames, Store.Held;
    InitialInv(s);
    RunKeepsInv(s, actions, end);
    LiveFacts(end, sid);
    var x := end.sessions[sid];
    if x.order != [] {
      HeldAt(end.past.deltas, x.order[|x.order| - 1]);
    }
  }

  lemma LiveFacts(s: State, sid: nat)
    requires Inv(s) && sid in s.sessions && s.sessions[sid].phase.Live? && !s.sessions[sid].cancelled
    ensures var x := s.sessions[sid];
      && Ascending(s.past.deltas) && InRange(x.order, |s.past.deltas|) && x.phase.since < |s.past.slots| && VersionMarks(s, x)
      && OnFrames(s.key, x.replica, x.channel).version == LatestVersion(s, x)
  {
    hide OnFrames, Shown, IsWireDelta, SafeSlot, VersionMarks, LatestVersion;
    assert ValidSession(s, s.sessions[sid]);
  }

  lemma {:induction false} HeldSplit(ds: seq<Logged>, version: nat, n: nat)
    requires n <= |ds|
    requires (forall j | 0 <= j < n :: ds[j].version <= version) && (forall j | n <= j < |ds| :: ds[j].version > version)
    ensures Store.Held(ds, version) == n
    decreases |ds|
  {
    if n > 0 {
      HeldSplit(ds[1..], version, n - 1);
    }
  }

  lemma HeldAt(ds: seq<Logged>, i: nat)
    requires Ascending(ds) && i < |ds|
    ensures Store.Held(ds, ds[i].version) == i + 1
  {
    hide Store.Held;
    assert forall j | i < j < |ds| :: ds[i].version < ds[j].version;
    assert forall j | 0 <= j <= i :: ds[j].version <= ds[i].version;
    HeldSplit(ds, ds[i].version, i + 1);
  }

  /** RESUME replays every retained delta the client's version does not cover, in order. */
  lemma ResumeSends(s: State, sid: nat)
    requires ValidState(s) && Enabled(s, ReadLog(sid))
    ensures var p, v := s.past, s.sessions[sid].replica.version;
      After(s, ReadLog(sid)).sessions[sid].phase == Replaying(DeltaFrames(p.deltas[Max(Evicted(p), Store.Held(p.deltas, v))..]))
  {
    RetainedNewer(s.past, s.sessions[sid].replica.version);
  }

  function Replays(sid: nat, n: nat): (r: seq<Action>)
    ensures |r| == n && forall i | 0 <= i < n :: r[i] == SendReplay(sid)
  {
    seq(n, i => SendReplay(sid))
  }

  lemma OneReplay(s: State, sid: nat)
    requires CanReplay(s, sid)
    ensures var x := s.sessions[sid];
      After(s, SendReplay(sid)) == With(s, sid, x.(phase := Replaying(x.phase.rest[1..]), channel := x.channel + [x.phase.rest[0]]))
  {
  }

  lemma {:induction false} ReplaySent(s: State, sid: nat, rest: seq<Frame>, then_: seq<Action>, end: State)
    requires Has(s, sid) && s.sessions[sid].phase == Replaying(rest)
    requires Run(With(s, sid, s.sessions[sid].(phase := Replaying([]), channel := s.sessions[sid].channel + rest)), then_, end)
    ensures Run(s, Replays(sid, |rest|) + then_, end)
    decreases |rest|
  {
    hide Run, After;
    var x := s.sessions[sid];
    if rest == [] {
      assert x.channel + rest == x.channel;
      assert With(s, sid, x) == s;
      assert Replays(sid, 0) + then_ == then_;
    } else {
      OneReplay(s, sid);
      var next := After(s, SendReplay(sid));
      assert x.channel + [rest[0]] + rest[1..] == x.channel + rest;
      assert With(next, sid, next.sessions[sid].(phase := Replaying([]), channel := x.channel + rest))
          == With(s, sid, x.(phase := Replaying([]), channel := x.channel + rest));
      ReplaySent(next, sid, rest[1..], then_, end);
      StepThen(s, SendReplay(sid), Replays(sid, |rest| - 1) + then_, end);
      assert [SendReplay(sid)] + (Replays(sid, |rest| - 1) + then_) == Replays(sid, |rest|) + then_;
    }
  }

  /** The whole answer to a RESUME: with nothing in between, it puts every retained delta that the
      client's version does not cover into the channel, in order, and then STATE_INIT with the
      current value and version. */
  lemma ResumeReply(s: State, sid: nat)
    requires ValidState(s) && Enabled(s, ReadLog(sid)) && s.past.slots != []
    ensures var x, p := s.sessions[sid], s.past;
      var missed := p.deltas[Max(Evicted(p), Store.Held(p.deltas, x.replica.version))..];
      Run(s, [ReadLog(sid)] + (Replays(sid, |missed|) + [ReadSnapshot(sid), SendInit(sid)]),
          With(s, sid, x.(phase := Live(|p.slots| - 1, InitVersion(s)),
                          channel := x.channel + DeltaFrames(missed) + [InitFrame(InitVersion(s), Current(p))])))
  {
    hide ValidState, Newer, Newest, IsWireDelta, OnFrame, InitVersion, Run, With;
    var x, p := s.sessions[sid], s.past;
    var missed := p.deltas[Max(Evicted(p), Store.Held(p.deltas, x.replica.version))..];
    var rest := DeltaFrames(missed);
    var s1, y := After(s, ReadLog(sid)), x.(phase := Replaying([]), channel := x.channel + rest);
    LogRead(s, sid, rest);
    Replaced(s, sid, x.(phase := Replaying(rest)), y);
    var live := y.(phase := Live(|p.slots| - 1, InitVersion(s)), channel := x.channel + rest + [InitFrame(InitVersion(s), Current(p))]);
    Replaced(s, sid, y, live);
    var end := InitSent(With(s, sid, y), sid);
    ReplaySent(s1, sid, rest, [ReadSnapshot(sid), SendInit(sid)], end);
    StepThen(s, ReadLog(sid), Replays(sid, |missed|) + [ReadSnapshot(sid), SendInit(sid)], end);
  }

  lemma Replaced(s: State, sid: nat, x: Session, y: Session)
    requires s.past.slots != []
    ensures var t := With(s, sid, x);
      && Has(t, sid) && t.sessions[sid] == x && t.past == s.past && InitVersion(t) == InitVersion(s)
      && With(t, sid, y) == With(s, sid, y)
  {
    assert s.sessions[sid := x][sid := y] == s.sessions[sid := y];
  }

  lemma LogRead(s: State, sid: nat, rest: seq<Frame>)
    requires ValidState(s) && Enabled(s, ReadLog(sid))
    requires rest == DeltaFrames(s.past.deltas[Max(Evicted(s.past), Store.Held(s.past.deltas, s.sessions[sid].replica.version))..])
    ensures After(s, ReadLog(sid)) == With(s, sid, s.sessions[sid].(phase := Replaying(rest)))
  {
    hide ValidState, Newer, Newest, IsWireDelta, OnFrame;
    ResumeSends(s, sid);
  }

  lemma StepThen(s: State, a: Action, rest: seq<Action>, end: State)
    requires Enabled(s, a) && Run(After(s, a), rest, end)
    ensures Run(s, [a] + rest, end)
  {
    hide Enabled, After;
    assert ([a] + rest)[1..] == rest;
  }

  lemma InitSent(s: State, sid: nat) returns (end: State)
    requires Enabled(s, ReadSnapshot(sid))
    ensures Run(s, [ReadSnapshot(sid), SendInit(sid)], end)
    ensures end == With(s, sid, s.sessions[sid].(phase := Live(|s.past.slots| - 1, InitVersion(s)),
                                                 channel := s.sessions[sid].channel + [InitFrame(InitVersion(s), Current(s.past))]))
  {
    var steps := [ReadSnapshot(sid), SendInit(sid)];
    var s1 := After(s, ReadSnapshot(sid));
    end := After(s1, SendInit(sid));
    assert steps[1..] == [SendInit(sid)] && steps[1..][1..] == [];
    assert Run(end, [], end);
    assert Run(s1, [SendInit(sid)], end);
  }

  /** The version of the last write, whether or not it changed anything. */
  function LastWritten(actions: seq<Action>, version: nat): nat
    decreases |actions|
  {
    if actions == [] then version
    else
      match actions[0]
      case Write(_, d) => LastWritten(actions[1..], d.version)
      case Touch(v) => LastWritten(actions[1..], v)
      case _ => LastWritten(actions[1..], version)
  }

  /** In every run the version STATE_INIT would carry is that of the last write, changing or not,
      and 0 for a key that does not exist. */
  lemma {:induction false} SnapshotVersion(s: State, actions: seq<Action>, end: State)
    requires Run(s, actions, end)
    ensures end.version == LastWritten(actions, s.version)
    ensures end.past.slots != [] ==> InitVersion(end) == if Current(end.past).Present? then LastWritten(actions, s.version) else 0
    decreases |actions|
  {
    hide Receive, Newer, Newest, IsWireDelta, OnFrame;
    if actions != [] {
      SnapshotVersion(After(s, actions[0]), actions[1..], end);
    }
  }

  /** Nothing owed to a session disappears quietly: a replayed delta, a broadcast delta or STATE_INIT
      that is no longer due is in the channel, or the session is marked cancelled, which only a
      new subscription takes back. */
  lemma SentOrCancelled(s: State, a: Action, sid: nat)
    requires Enabled(s, a) && sid in s.sessions && a != Drop(sid) && a != Subscribe(sid)
    ensures sid in After(s, a).sessions
    ensures var x, x' := s.sessions[sid], After(s, a).sessions[sid];
      && (x.cancelled ==> x'.cancelled)
      && (x.phase.Replaying? && x'.phase != x.phase ==>
            || (x.phase.rest == [] && x'.phase.HasRead?)
            || (x.phase.rest != [] && x'.phase == Replaying(x.phase.rest[1..]) && (x'.cancelled || x'.channel == x.channel + [x.phase.rest[0]])))
      && (x.phase.HasRead? && x'.phase != x.phase ==>
            && x'.phase == Live(x.phase.at, x.phase.version) && x.phase.at < |s.past.slots|
            && (x'.cancelled || x'.channel == x.channel + [InitFrame(x.phase.version, s.past.slots[x.phase.at])]))
      && forall i | i in x.pending && i !in x'.pending ::
           i < |s.past.deltas| && (x'.cancelled || x'.channel == x.channel + [DeltaFrame(s.past.deltas[i].version, s.past.deltas[i].ops)])
  {
    hide Receive, Newer, Newest, IsWireDelta, OnFrame, InitVersion;
  }

  /** Only a delivery changes what a client has cached; losing the connection forgets nothing but
      the stream. */
  lemma OnlyDeliveryChanges(s: State, a: Action, sid: nat)
    requires Enabled(s, a) && sid in s.sessions && a != Deliver(sid)
    ensures sid in After(s, a).sessions
    ensures var r, r' := s.sessions[sid].replica, After(s, a).sessions[sid].replica;
      r' == r || (a == Drop(sid) && r' == r.(bound := false))
  {
    hide Receive, Newer, Newest, IsWireDelta;
  }

  /** Convergence: in every run, for every live session and every way `rest` the sends may go
      on, the client ends with the store's current value if the deltas sent after STATE_INIT
      form a good order on top of the snapshot. A client of the empty key stays with the
      snapshot. */
  lemma Convergence(s: State, actions: seq<Action>, end: State, sid: nat, rest: seq<nat>)
    requires Initial(s) && Run(s, actions, end) && sid in end.sessions && InRange(rest, |end.past.deltas|)
    ensures var x := end.sessions[sid];
      x.phase.Live? && !x.cancelled ==>
        && x.phase.since < |end.past.slots| == |end.past.deltas| + 1
        && InRange(x.order, |end.past.deltas|) && NoRepeats(x.order)
        && var r := OnFrames(end.key, x.replica, x.channel + FramesOf(end.past, rest));
           if end.key == "" then Shows(r, end.past.slots[x.phase.since])
           else GoodOrder(x.order + rest, x.phase.since, |end.past.deltas|) ==> Shows(r, Current(end.past))
  {
    hide OnFrames, GoodOrder, ValidState;
    LiveShows(s, actions, end, sid);
    var x := end.sessions[sid];
    if x.phase.Live? && !x.cancelled {
      RestShows(end, x, rest);
      if end.key != "" && GoodOrder(x.order + rest, x.phase.since, |end.past.deltas|) {
        PastHistory(end);
        GoodDelivery(end.past.slots, Frames(end.past.deltas), x.order + rest, x.phase.since);
      }
    }
  }

  lemma InitialInv(s: State)
    requires Initial(s)
    ensures Inv(s)
  {
  }

  lemma {:induction false} DeltasIgnored(key: string, r: Replica, fs: seq<Frame>)
    requires !r.bound && OnlyDeltas(fs)
    ensures OnFrames(key, r, fs) == r
    decreases |fs|
  {
    if fs != [] {
      DeltasIgnored(key, r, fs[1..]);
    }
  }

  /** In every run, a client ignores whatever it is sent before STATE_INIT, the whole RESUME
      replay included. */
  lemma ReplayIgnored(s: State, actions: seq<Action>, end: State, sid: nat)
    requires Initial(s) && Run(s, actions, end) && sid in end.sessions && Waiting(end.sessions[sid])
    ensures var x := end.sessions[sid];
      && OnFrames(end.key, x.replica, x.channel) == x.replica
      && (x.phase.Replaying? ==> OnFrames(end.key, x.replica, x.channel + x.phase.rest) == x.replica)
  {
    InitialInv(s);
    RunKeepsInv(s, actions, end);
    var x := end.sessions[sid];
    assert ValidSession(end, x);
    DeltasIgnored(end.key, x.replica, x.channel);
    if x.phase.Replaying? {
      DeltasIgnored(end.key, x.replica, x.channel + x.phase.rest);
    }
  }
}
