/** The shared write pool: one session's `in_pool` flag, `pending` counter and outbound
    queue, driven by any number of producers and pool workers. Every access to shared
    state is one atomic step; steps interleave freely, sequentially consistent. */
module WritePool {

  type Msg = string

  /** Where a call of `send` stands. */
  datatype Producer =
    | Counted(m: Msg)   // pending incremented
    | Refused           // try_send failed
    | Sent              // message queued, flag not yet tried
    | MustEnqueue       // flag won, handle not yet in the work queue

  /** Where a worker stands. */
  datatype Worker =
    | Draining          // handle taken from the work queue, about to receive
    | Got(m: Msg)       // message received, pending not yet decremented
    | Feeding(m: Msg)   // about to feed the socket
    | Flushing          // queue seen empty, or the socket failed
    | Unlocked          // flushed, flag not yet cleared
    | Cleared           // flag cleared, pending not yet loaded
    | Rechecking        // pending was positive, flag not yet tried
    | MustRequeue       // flag won again, handle not yet in the work queue
  {
    /** Between taking the handle and clearing the flag. */
    predicate Exclusive() {
      Draining? || Got? || Feeding? || Flushing? || Unlocked?
    }
  }

  /** Who is responsible for the session while the flag is set. */
  datatype Owner = NoOne | ByProducer(p: nat) | InQueue | ByWorker(w: nat)

  /** Absent producers and workers are outside `send` and `pool_drain`. `queue` counts this
      session's handle in the work queue; `accepted`, `taken` and `fed` are histories, and
      `lossy` records a socket or encoding error. */
  datatype State = State(inPool: bool, pending: int, outbound: seq<Msg>, capacity: nat, queue: nat,
                         producers: map<nat, Producer>, workers: map<nat, Worker>,
                         accepted: seq<Msg>, taken: seq<Msg>, fed: seq<Msg>, lossy: bool, owner: Owner)

  datatype Action =
    | Call(p: nat, m: Msg) | TrySend(p: nat) | TryFail(p: nat) | Undo(p: nat) | Swap(p: nat) | Enqueue(p: nat)
    | Dequeue(w: nat) | TryRecv(w: nat) | Uncount(w: nat) | Feed(w: nat) | FeedFail(w: nat) | Skip(w: nat)
    | Flush(w: nat) | Clear(w: nat) | Load(w: nat) | Reswap(w: nat) | Requeue(w: nat)

  predicate Enabled(s: State, a: Action) {
    match a
    case Call(p, _) => p !in s.producers
    case TrySend(p) => p in s.producers && s.producers[p].Counted? && |s.outbound| < s.capacity
    case TryFail(p) => p in s.producers && s.producers[p].Counted?
    case Undo(p) => p in s.producers && s.producers[p].Refused?
    case Swap(p) => p in s.producers && s.producers[p].Sent?
    case Enqueue(p) => p in s.producers && s.producers[p].MustEnqueue?
    case Dequeue(w) => w !in s.workers && s.queue > 0
    case TryRecv(w) => w in s.workers && s.workers[w].Draining?
    case Uncount(w) => w in s.workers && s.workers[w].Got?
    case Feed(w) => w in s.workers && s.workers[w].Feeding?
    case FeedFail(w) => w in s.workers && s.workers[w].Feeding?
    case Skip(w) => w in s.workers && s.workers[w].Feeding?
    case Flush(w) => w in s.workers && s.workers[w].Flushing?
    case Clear(w) => w in s.workers && s.workers[w].Unlocked?
    case Load(w) => w in s.workers && s.workers[w].Cleared?
    case Reswap(w) => w in s.workers && s.workers[w].Rechecking?
    case Requeue(w) => w in s.workers && s.workers[w].MustRequeue?
  }

  function Produce(s: State, p: nat, x: Producer): State {
    s.(producers := s.producers[p := x])
  }

  function Work(s: State, w: nat, x: Worker): State {
    s.(workers := s.workers[w := x])
  }

  function After(s: State, a: Action): State
    requires Enabled(s, a)
  {
    match a
    case Call(p, m) => Produce(s, p, Counted(m)).(pending := s.pending + 1)
    case TrySend(p) =>
      var m := s.producers[p].m;
      Produce(s, p, Sent).(outbound := s.outbound + [m], accepted := s.accepted + [m])
    case TryFail(p) => Produce(s, p, Refused)
    case Undo(p) => s.(producers := s.producers - {p}, pending := s.pending - 1)
    case Swap(p) =>
      if s.inPool then s.(producers := s.producers - {p})
      else Produce(s, p, MustEnqueue).(inPool := true, owner := ByProducer(p))
    case Enqueue(p) => s.(producers := s.producers - {p}, queue := s.queue + 1, owner := InQueue)
    case Dequeue(w) => Work(s, w, Draining).(queue := s.queue - 1, owner := ByWorker(w))
    case TryRecv(w) =>
      if s.outbound == [] then Work(s, w, Flushing)
      else Work(s, w, Got(s.outbound[0])).(outbound := s.outbound[1..], taken := s.taken + [s.outbound[0]])
    case Uncount(w) => Work(s, w, Feeding(s.workers[w].m)).(pending := s.pending - 1)
    case Feed(w) => Work(s, w, Draining).(fed := s.fed + [s.workers[w].m])
    case FeedFail(w) => Work(s, w, Flushing).(lossy := true)
    case Skip(w) => Work(s, w, Draining).(lossy := true)
    case Flush(w) => Work(s, w, Unlocked)
    case Clear(w) => Work(s, w, Cleared).(inPool := false, owner := NoOne)
    case Load(w) => if s.pending > 0 then Work(s, w, Rechecking) else s.(workers := s.workers - {w})
    case Reswap(w) =>
      if s.inPool then s.(workers := s.workers - {w})
      else Work(s, w, MustRequeue).(inPool := true, owner := ByWorker(w))
    case Requeue(w) => s.(workers := s.workers - {w}, queue := s.queue + 1, owner := InQueue)
  }

  // ---------- the invariant ----------

  /** The flag, the work queue and the program counters agree on one owner. */
  predicate OneOwner(s: State) {
    && (s.inPool <==> s.owner != NoOne)
    && s.queue == (if s.owner == InQueue then 1 else 0)
    && (forall p | p in s.producers :: s.producers[p].MustEnqueue? <==> s.owner == ByProducer(p))
    && (forall w | w in s.workers :: s.workers[w].Exclusive() || s.workers[w].MustRequeue? <==> s.owner == ByWorker(w))
    && (s.owner.ByProducer? ==> s.owner.p in s.producers)
    && (s.owner.ByWorker? ==> s.owner.w in s.workers)
  }

  /** Calls that have incremented `pending` for a message not in the queue. */
  function Counting(producers: map<nat, Producer>): set<nat> {
    set p | p in producers && Counts(producers[p])
  }

  function Received(s: State): nat {
    if s.owner.ByWorker? && s.owner.w in s.workers && s.workers[s.owner.w].Got? then 1 else 0
  }

  /** `pending` is exactly queued plus mid-step messages. */
  predicate PendingExact(s: State) {
    s.pending == |s.outbound| + |Counting(s.producers)| + Received(s)
  }

  function InHand(s: State): seq<Msg> {
    if s.owner.ByWorker? && s.owner.w in s.workers then
      match s.workers[s.owner.w]
      case Got(m) => [m]
      case Feeding(m) => [m]
      case _ => []
    else []
  }

  /** Nothing is lost or reordered between acceptance and the socket. */
  predicate InOrder(s: State) {
    && s.taken + s.outbound == s.accepted
    && (!s.lossy ==> s.fed + InHand(s) == s.taken)
  }

  /** Queued messages always have someone about to notice them. */
  predicate Noticed(s: State) {
    s.outbound != [] ==>
      || s.inPool
      || (exists p | p in s.producers :: s.producers[p].Sent?)
      || (exists w | w in s.workers :: s.workers[w].Cleared? || s.workers[w].Rechecking?)
  }

  predicate Inv(s: State) {
    OneOwner(s) && PendingExact(s) && InOrder(s) && Noticed(s)
  }

  predicate Counts(x: Producer) {
    x.Counted? || x.Refused?
  }

  lemma CountingUpdate(producers: map<nat, Producer>, p: nat, x: Producer)
    ensures var was := p in producers && Counts(producers[p]);
      |Counting(producers[p := x])| == |Counting(producers)| - (if was then 1 else 0) + (if Counts(x) then 1 else 0)
  {
    var before, after := Counting(producers), Counting(producers[p := x]);
    assert after - {p} == before - {p};
    assert p in after <==> Counts(x);
    assert p in before <==> p in producers && Counts(producers[p]);
    WithoutOne(before, p);
    WithoutOne(after, p);
  }

  lemma WithoutOne(s: set<nat>, p: nat)
    ensures |s - {p}| == |s| - (if p in s then 1 else 0)
  {
    if p !in s {
      assert s - {p} == s;
    }
  }

  lemma CountingRemove(producers: map<nat, Producer>, p: nat)
    requires p in producers
    ensures |Counting(producers - {p})| == |Counting(producers)| - (if Counts(producers[p]) then 1 else 0)
  {
    assert Counting(producers - {p}) == Counting(producers) - {p};
  }

  predicate ByProducerStep(a: Action) {
    a.Call? || a.TrySend? || a.TryFail? || a.Undo? || a.Swap? || a.Enqueue?
  }

  /** Worker steps that keep the handle. */
  predicate HoldingStep(a: Action) {
    a.TryRecv? || a.Uncount? || a.Feed? || a.FeedFail? || a.Skip? || a.Flush?
  }

  lemma ProducerStepOwner(s: State, a: Action)
    requires OneOwner(s) && Enabled(s, a) && ByProducerStep(a)
    ensures OneOwner(After(s, a))
  {
  }

  lemma HoldingStepOwner(s: State, a: Action)
    requires OneOwner(s) && Enabled(s, a) && HoldingStep(a)
    ensures OneOwner(After(s, a))
  {
  }

  lemma PassingStepOwner(s: State, a: Action)
    requires OneOwner(s) && Enabled(s, a) && !ByProducerStep(a) && !HoldingStep(a)
    ensures OneOwner(After(s, a))
  {
  }

  lemma ProducerStepPending(s: State, a: Action)
    requires OneOwner(s) && PendingExact(s) && Enabled(s, a) && ByProducerStep(a)
    ensures PendingExact(After(s, a))
  {
    hide OneOwner, Counting;
    match a
    case Call(p, m) => CountingUpdate(s.producers, p, Counted(m));
    case TrySend(p) => CountingUpdate(s.producers, p, Sent);
    case TryFail(p) => CountingUpdate(s.producers, p, Refused);
    case Undo(p) => CountingRemove(s.producers, p);
    case Swap(p) => SwapKeepsPending(s, p);
    case Enqueue(p) => EnqueueKeepsPending(s, p);
  }

  lemma SwapKeepsPending(s: State, p: nat)
    requires OneOwner(s) && PendingExact(s) && Enabled(s, Swap(p))
    ensures PendingExact(After(s, Swap(p)))
  {
    hide Counting;
    if s.inPool {
      CountingRemove(s.producers, p);
    } else {
      CountingUpdate(s.producers, p, MustEnqueue);
    }
  }

  lemma EnqueueKeepsPending(s: State, p: nat)
    requires OneOwner(s) && PendingExact(s) && Enabled(s, Enqueue(p))
    ensures PendingExact(After(s, Enqueue(p)))
  {
    hide Counting;
    CountingRemove(s.producers, p);
  }

  lemma WorkerStepPending(s: State, a: Action)
    requires OneOwner(s) && PendingExact(s) && Enabled(s, a) && !ByProducerStep(a)
    ensures PendingExact(After(s, a))
  {
    hide Counting;
  }

  lemma StepOrder(s: State, a: Action)
    requires OneOwner(s) && InOrder(s) && Enabled(s, a)
    ensures InOrder(After(s, a))
  {
    if a.TrySend? {
      var m := s.producers[a.p].m;
      assert s.taken + (s.outbound + [m]) == s.taken + s.outbound + [m];
    } else if a.TryRecv? && s.outbound != [] {
      assert s.taken + [s.outbound[0]] + s.outbound[1..] == s.taken + s.outbound;
    }
  }

  lemma StepNoticed(s: State, a: Action)
    requires OneOwner(s) && PendingExact(s) && Noticed(s) && Enabled(s, a)
    ensures Noticed(After(s, a))
  {
    hide Counting;
    var s' := After(s, a);
    if a.TrySend? {
      assert s'.producers[a.p].Sent?;
    } else if a.Clear? {
      assert s'.workers[a.w].Cleared?;
    } else if s.outbound != [] && !s.inPool && !s'.inPool {
      if p :| p in s.producers && s.producers[p].Sent? {
        assert p in s'.producers && s'.producers[p].Sent?;
      } else {
        var w :| w in s.workers && (s.workers[w].Cleared? || s.workers[w].Rechecking?);
        assert w in s'.workers && (s'.workers[w].Cleared? || s'.workers[w].Rechecking?);
      }
    }
  }

  lemma StepKeepsInv(s: State, a: Action)
    requires Inv(s) && Enabled(s, a)
    ensures Inv(After(s, a))
  {
    hide OneOwner, PendingExact, InOrder, Noticed, Enabled, After;
    if ByProducerStep(a) {
      ProducerStepOwner(s, a);
      ProducerStepPending(s, a);
    } else {
      WorkerStepPending(s, a);
      if HoldingStep(a) {
        HoldingStepOwner(s, a);
      } else {
        PassingStepOwner(s, a);
      }
    }
    StepOrder(s, a);
    StepNoticed(s, a);
  }

  // ---------- runs ----------

  predicate Initial(s: State) {
    && !s.inPool && s.pending == 0 && s.outbound == [] && s.queue == 0
    && s.producers == map[] && s.workers == map[]
    && s.accepted == [] && s.taken == [] && s.fed == [] && !s.lossy && s.owner == NoOne
  }

  predicate Run(s: State, actions: seq<Action>, end: State)
    decreases |actions|
  {
    if actions == [] then end == s
    else Enabled(s, actions[0]) && Run(After(s, actions[0]), actions[1..], end)
  }

  lemma {:induction false} RunKeepsInv(s: State, actions: seq<Action>, end: State)
    requires Inv(s) && Run(s, actions, end)
    ensures Inv(end)
    decreases |actions|
  {
    hide Inv;
    if actions != [] {
      StepKeepsInv(s, actions[0]);
      RunKeepsInv(After(s, actions[0]), actions[1..], end);
    }
  }

  /** No lost wakeup: when nobody is inside `send` or `pool_drain` and the work queue is
      empty, nothing is left behind, socket errors or not. */
  lemma NoLostWakeup(s: State, actions: seq<Action>, end: State)
    requires Initial(s) && Run(s, actions, end)
    requires end.producers == map[] && end.workers == map[] && end.queue == 0
    ensures end.outbound == [] && end.pending == 0 && !end.inPool
  {
    assert Counting(s.producers) == {};
    RunKeepsInv(s, actions, end);
    assert Counting(end.producers) == {};
  }

  predicate IsPrefix(a: seq<Msg>, b: seq<Msg>) {
    a <= b
  }

  /** Exclusivity, conservation and order: one worker at a time holds the session, `pending`
      is never negative and counts exactly what is queued or mid-step, and without errors
      the socket has been fed a prefix of the accepted messages. */
  lemma PoolSafety(s: State, actions: seq<Action>, end: State)
    requires Initial(s) && Run(s, actions, end)
    ensures forall w, w' | w in end.workers && w' in end.workers
      && end.workers[w].Exclusive() && end.workers[w'].Exclusive() :: w == w'
    ensures end.pending == |end.outbound| + |Counting(end.producers)| + Received(end) >= 0
    ensures end.taken + end.outbound == end.accepted
    ensures !end.lossy ==> IsPrefix(end.fed, end.accepted)
  {
    assert Counting(s.producers) == {};
    RunKeepsInv(s, actions, end);
    if !end.lossy {
      assert end.accepted == end.fed + (InHand(end) + end.outbound);
    }
  }

  // ---------- progress ----------

  /** How far a worker is from leaving. While messages are pending the way leads round to
      receiving one; otherwise it leads out. */
  function Distance(x: Worker, busy: bool): nat {
    match x
    case Feeding(_) => 13
    case Flushing => if busy then 12 else 5
    case Unlocked => if busy then 11 else 4
    case Cleared => if busy then 10 else 3
    case Rechecking => 9
    case MustRequeue => 8
    case Draining => 6
    case Got(_) => 2
  }

  const QUEUED: nat := 7
  const FARTHEST: nat := 13

  /** The workers at least `d` away. */
  function Beyond(workers: map<nat, Worker>, busy: bool, d: nat): set<nat> {
    set w | w in workers && Distance(workers[w], busy) >= d
  }

  /** The sum of all distances, each cut off at `d`. */
  function Total(workers: map<nat, Worker>, busy: bool, d: nat): nat {
    if d == 0 then 0 else Total(workers, busy, d - 1) + |Beyond(workers, busy, d)|
  }

  function Cut(n: nat, d: nat): nat {
    if n < d then n else d
  }

  /** What worker `w` adds to the sum. */
  function Share(workers: map<nat, Worker>, busy: bool, d: nat, w: nat): nat {
    if w in workers then Cut(Distance(workers[w], busy), d) else 0
  }

  lemma LevelUpdate(workers: map<nat, Worker>, busy: bool, d: nat, w: nat, x: Worker)
    ensures |Beyond(workers[w := x], busy, d)| + (if w in workers && Distance(workers[w], busy) >= d then 1 else 0)
         == |Beyond(workers, busy, d)| + (if Distance(x, busy) >= d then 1 else 0)
  {
    hide Distance;
    var before, after := Beyond(workers, busy, d), Beyond(workers[w := x], busy, d);
    assert after - {w} == before - {w};
    WithoutOne(before, w);
    WithoutOne(after, w);
  }

  lemma LevelRemove(workers: map<nat, Worker>, busy: bool, d: nat, w: nat)
    ensures |Beyond(workers - {w}, busy, d)| + (if w in workers && Distance(workers[w], busy) >= d then 1 else 0)
         == |Beyond(workers, busy, d)|
  {
    hide Distance;
    var before := Beyond(workers, busy, d);
    assert Beyond(workers - {w}, busy, d) == before - {w};
    WithoutOne(before, w);
  }

  lemma {:induction false} TotalUpdate(workers: map<nat, Worker>, busy: bool, d: nat, w: nat, x: Worker)
    ensures Total(workers[w := x], busy, d) + Share(workers, busy, d, w) == Total(workers, busy, d) + Cut(Distance(x, busy), d)
    decreases d
  {
    hide Distance, Beyond;
    if d > 0 {
      TotalUpdate(workers, busy, d - 1, w, x);
      LevelUpdate(workers, busy, d, w, x);
    }
  }

  lemma {:induction false} TotalRemove(workers: map<nat, Worker>, busy: bool, d: nat, w: nat)
    ensures Total(workers - {w}, busy, d) + Share(workers, busy, d, w) == Total(workers, busy, d)
    decreases d
  {
    hide Distance, Beyond;
    if d > 0 {
      TotalRemove(workers, busy, d - 1, w);
      LevelRemove(workers, busy, d, w);
    }
  }

  lemma LevelBound(workers: map<nat, Worker>, busy: bool, d: nat)
    ensures |Beyond(workers, busy, d)| <= |workers|
  {
    hide Distance;
    Within(Beyond(workers, busy, d), workers.Keys);
    assert |workers.Keys| == |workers|;
  }

  lemma {:induction false} TotalBound(workers: map<nat, Worker>, busy: bool, d: nat)
    ensures Total(workers, busy, d) <= d * |workers|
    decreases d
  {
    hide Distance, Beyond;
    if d > 0 {
      TotalBound(workers, busy, d - 1);
      LevelBound(workers, busy, d);
      assert d * |workers| == (d - 1) * |workers| + |workers|;
    }
  }

  lemma {:induction false} Within(a: set<nat>, b: set<nat>)
    requires a <= b
    ensures |a| <= |b|
    decreases |a|
  {
    if a != {} {
      var x :| x in a;
      Within(a - {x}, b - {x});
    }
  }

  /** The way left for all workers and the queued handle. */
  function Way(s: State): nat {
    Total(s.workers, s.pending > 0, FARTHEST) + QUEUED * s.queue
  }

  /** Workers and the handle in the work queue. */
  function Hands(s: State): nat {
    |s.workers| + s.queue
  }

  predicate Settled(s: State) {
    Inv(s) && s.producers == map[]
  }

  lemma SettledPending(s: State)
    requires Settled(s)
    ensures s.pending == |s.outbound| + Received(s)
  {
    assert Counting(map[]) == {};
  }

  /** A worker about to receive finds a message exactly when some are pending. */
  lemma DrainingSees(s: State, w: nat)
    requires Settled(s) && w in s.workers && s.workers[w].Draining?
    ensures s.outbound == [] <==> s.pending == 0
  {
    SettledPending(s);
    assert s.workers[w].Exclusive();
  }

  /** With nobody inside `send`, every step is progress: `pending` falls, or it stays and the way
      left gets shorter. No step adds a worker or a handle. */
  lemma StepIsProgress(s: State, a: Action)
    requires Settled(s) && Enabled(s, a) && !a.Call?
    ensures var s' := After(s, a);
      && Settled(s') && Hands(s') <= Hands(s)
      && (s'.pending < s.pending || (s'.pending == s.pending && Way(s') < Way(s)))
  {
    hide Counting, InOrder, Noticed, Inv, Total;
    StepKeepsInv(s, a);
    StepMoves(s, a);
  }

  lemma StepMoves(s: State, a: Action)
    requires Settled(s) && Enabled(s, a) && !a.Call?
    ensures var s' := After(s, a);
      && s'.producers == map[] && Hands(s') <= Hands(s)
      && (s'.pending < s.pending || (s'.pending == s.pending && Way(s') < Way(s)))
  {
    hide Inv, Total;
    StepSees(s, a);
    var s', busy := After(s, a), s.pending > 0;
    if a.Dequeue? {
      TotalUpdate(s.workers, busy, FARTHEST, a.w, Draining);
      GrowsByOne(s.workers, a.w, Draining);
    } else if a.Requeue? {
      TotalRemove(s.workers, busy, FARTHEST, a.w);
      ShrinksByOne(s.workers, a.w);
    } else if a.Uncount? {
      SameSize(s.workers, a.w, s'.workers[a.w]);
    } else if !ByProducerStep(a) {
      LeavesOrMoves(s, a.w, s');
    }
  }

  /** A worker about to receive knows from `pending` what it will find. */
  predicate Sees(s: State, a: Action) {
    a.TryRecv? ==> (s.outbound == [] <==> s.pending == 0) && s.pending >= 0
  }

  lemma StepSees(s: State, a: Action)
    requires Settled(s) && Enabled(s, a)
    ensures Sees(s, a)
  {
    if a.TryRecv? {
      DrainingSees(s, a.w);
      SettledPending(s);
    }
  }

  lemma LeavesOrMoves(s: State, w: nat, s': State)
    requires w in s.workers && s'.queue == s.queue && s'.pending == s.pending
    requires s'.workers == s.workers - {w} || (w in s'.workers && s'.workers == s.workers[w := s'.workers[w]])
    requires w in s'.workers ==> Distance(s'.workers[w], s.pending > 0) < Distance(s.workers[w], s.pending > 0)
    requires Distance(s.workers[w], s.pending > 0) > 0
    ensures Way(s') < Way(s) && Hands(s') <= Hands(s)
  {
    hide Total;
    var busy := s.pending > 0;
    if w in s'.workers {
      TotalUpdate(s.workers, busy, FARTHEST, w, s'.workers[w]);
      SameSize(s.workers, w, s'.workers[w]);
    } else {
      TotalRemove(s.workers, busy, FARTHEST, w);
      ShrinksByOne(s.workers, w);
    }
  }

  lemma GrowsByOne(m: map<nat, Worker>, w: nat, x: Worker)
    requires w !in m
    ensures |m[w := x]| == |m| + 1
  {
    assert m[w := x].Keys == m.Keys + {w};
    assert |m[w := x].Keys| == |m.Keys| + 1;
  }

  lemma ShrinksByOne(m: map<nat, Worker>, w: nat)
    requires w in m
    ensures |m - {w}| == |m| - 1
  {
    assert (m - {w}).Keys == m.Keys - {w};
    assert |(m - {w}).Keys| == |m.Keys| - 1;
  }

  lemma SameSize(m: map<nat, Worker>, w: nat, x: Worker)
    requires w in m
    ensures |m[w := x]| == |m|
  {
    assert m[w := x].Keys == m.Keys;
    assert |m[w := x].Keys| == |m.Keys|;
  }

  // ---------- every schedule drains ----------

  predicate NoCalls(actions: seq<Action>) {
    forall i | 0 <= i < |actions| :: !actions[i].Call?
  }

  /** An upper bound on the steps left, for at most `hands` workers and handles. */
  function StepsLeft(s: State, hands: nat): int {
    s.pending * (FARTHEST * hands + 1) + Way(s)
  }

  lemma WayBound(s: State)
    ensures Way(s) <= FARTHEST * Hands(s)
  {
    TotalBound(s.workers, s.pending > 0, FARTHEST);
  }

  lemma StepCounts(s: State, a: Action, hands: nat)
    requires Settled(s) && Enabled(s, a) && !a.Call? && Hands(s) <= hands
    ensures Settled(After(s, a)) && Hands(After(s, a)) <= hands && StepsLeft(After(s, a), hands) < StepsLeft(s, hands)
  {
    hide Settled, Enabled, After, Way, Hands;
    StepIsProgress(s, a);
    var s' := After(s, a);
    WayBound(s');
    var k := FARTHEST * hands + 1;
    if s'.pending < s.pending {
      assert s'.pending * k <= (s.pending - 1) * k;
      assert s.pending * k == (s.pending - 1) * k + k;
    }
  }

  /** Once nobody is inside `send`, no schedule of the workers goes on for ever. */
  lemma {:induction false} SchedulesEnd(s: State, actions: seq<Action>, end: State, hands: nat)
    requires Settled(s) && Run(s, actions, end) && NoCalls(actions) && Hands(s) <= hands
    ensures Settled(end) && |actions| + StepsLeft(end, hands) <= StepsLeft(s, hands)
    decreases |actions|
  {
    hide Settled, Enabled, After, StepsLeft, Hands;
    if actions != [] {
      StepCounts(s, actions[0], hands);
      SchedulesEnd(After(s, actions[0]), actions[1..], end, hands);
    }
  }

  /** The workers' next step, without errors. */
  function NextStep(s: State): (a: Action)
    requires s.workers != map[] || s.queue > 0
    ensures Enabled(s, a) && !a.Call? && !a.FeedFail? && !a.Skip?
  {
    if s.workers == map[] then Dequeue(0)
    else
      assert s.workers.Keys != {};
      var w := Least(s.workers.Keys);
      match s.workers[w]
      case Draining => TryRecv(w)
      case Got(_) => Uncount(w)
      case Feeding(_) => Feed(w)
      case Flushing => Flush(w)
      case Unlocked => Clear(w)
      case Cleared => Load(w)
      case Rechecking => Reswap(w)
      case MustRequeue => Requeue(w)
  }

  function Least(ws: set<nat>): (w: nat)
    requires ws != {}
    ensures w in ws
  {
    LeastExists(ws);
    var w: nat :| w in ws && forall v | v in ws :: w <= v;
    w
  }

  lemma {:induction false} LeastExists(ws: set<nat>)
    requires ws != {}
    ensures exists w: nat :: w in ws && forall v | v in ws :: w <= v
    decreases |ws|
  {
    var x :| x in ws;
    if ws == {x} {
      assert forall v | v in ws :: x <= v;
    } else {
      var rest := ws - {x};
      assert ws == rest + {x};
      LeastExists(rest);
      var w: nat :| w in rest && forall v | v in rest :: w <= v;
      var m := if x < w then x else w;
      assert m in ws && forall v | v in ws :: m <= v;
    }
  }

  lemma StepExists(s: State)
    ensures (s.workers == map[] && s.queue == 0) || (exists a :: Enabled(s, a) && !a.Call?)
  {
    if s.workers != map[] || s.queue > 0 {
      var a := NextStep(s);
    }
  }

  predicate Quiescent(s: State) {
    s.producers == map[] && s.workers == map[] && s.queue == 0
  }

  /** What is true once everybody has left. */
  lemma QuiescentIsDone(s: State)
    requires Inv(s) && Quiescent(s)
    ensures s.outbound == [] && s.pending == 0 && !s.inPool && s.taken == s.accepted && (!s.lossy ==> s.fed == s.accepted)
  {
    assert Counting(s.producers) == {};
    assert s.taken + [] == s.taken && s.fed + [] == s.fed;
  }

  /** A schedule of the workers that cannot go on has drained the session: with the bound above,
      every schedule does so. */
  lemma StuckIsDone(s: State)
    requires Settled(s) && forall a | Enabled(s, a) :: a.Call?
    ensures Quiescent(s) && s.outbound == [] && s.taken == s.accepted && (!s.lossy ==> s.fed == s.accepted)
  {
    hide Inv, Enabled;
    StepExists(s);
    QuiescentIsDone(s);
  }

  /** One flush per batch: a worker flushes only once it has seen the queue empty or the socket failed. */
  lemma DrainsBeforeFlush(s: State, a: Action, w: nat)
    requires Enabled(s, a) && w in After(s, a).workers && After(s, a).workers[w].Flushing?
    ensures (w in s.workers && s.workers[w].Flushing?) || a == FeedFail(w) || (a == TryRecv(w) && s.outbound == [])
  {
  }

  // ---------- from every run ----------

  predicate NoErrors(actions: seq<Action>) {
    forall i | 0 <= i < |actions| :: !actions[i].FeedFail? && !actions[i].Skip?
  }

  lemma {:induction false} RunAppend(s: State, a: seq<Action>, mid: State, b: seq<Action>, end: State)
    requires Run(s, a, mid) && Run(mid, b, end)
    ensures Run(s, a + b, end)
    decreases |a|
  {
    hide Enabled, After;
    if a == [] {
      assert a + b == b;
    } else {
      assert (a + b)[1..] == a[1..] + b;
      RunAppend(After(s, a[0]), a[1..], mid, b, end);
    }
  }

  lemma RunOne(s: State, a: Action)
    requires Enabled(s, a)
    ensures Run(s, [a], After(s, a))
  {
    hide Enabled, After;
    assert [a][1..] == [];
    assert Run(After(s, a), [], After(s, a));
  }

  /** The next step of a call of `send` already begun. */
  function NextSend(s: State, p: nat): (a: Action)
    requires p in s.producers
    ensures Enabled(s, a) && ByProducerStep(a) && !a.Call?
  {
    match s.producers[p]
    case Counted(_) => if |s.outbound| < s.capacity then TrySend(p) else TryFail(p)
    case Refused => Undo(p)
    case Sent => Swap(p)
    case MustEnqueue => Enqueue(p)
  }

  function SendSteps(x: Producer): nat {
    match x
    case Counted(_) => 3
    case Refused => 1
    case Sent => 2
    case MustEnqueue => 1
  }

  lemma SendMoves(s: State, p: nat)
    requires p in s.producers
    ensures var s' := After(s, NextSend(s, p));
      && s'.lossy == s.lossy && s.accepted <= s'.accepted
      && (s'.producers == s.producers - {p} || (p in s'.producers && s'.producers == s.producers[p := s'.producers[p]]
                                                && SendSteps(s'.producers[p]) < SendSteps(s.producers[p])))
  {
  }

  /** A call of `send` already begun can finish. */
  lemma {:induction false} FinishSend(s: State, p: nat, left: nat) returns (more: seq<Action>, end: State)
    requires Inv(s) && p in s.producers && SendSteps(s.producers[p]) <= left
    ensures Run(s, more, end) && NoCalls(more) && NoErrors(more) && Inv(end)
    ensures end.producers == s.producers - {p} && end.lossy == s.lossy && s.accepted <= end.accepted
    decreases left
  {
    hide Inv, After, Enabled, Run;
    var a := NextSend(s, p);
    var next := After(s, a);
    StepKeepsInv(s, a);
    SendMoves(s, p);
    RunOne(s, a);
    if p in next.producers {
      var rest;
      rest, end := FinishSend(next, p, left - 1);
      RunAppend(s, [a], next, rest, end);
      more := [a] + rest;
    } else {
      more, end := [a], next;
    }
  }

  lemma {:induction false} FinishSends(s: State) returns (more: seq<Action>, end: State)
    requires Inv(s)
    ensures Run(s, more, end) && NoCalls(more) && NoErrors(more) && Settled(end)
    ensures end.lossy == s.lossy && s.accepted <= end.accepted
    decreases |s.producers.Keys|
  {
    hide Inv, Run;
    if s.producers == map[] {
      more, end := [], s;
      RunNone(s);
    } else {
      assert s.producers.Keys != {};
      var p :| p in s.producers.Keys;
      var first, mid := FinishSend(s, p, 3);
      assert mid.producers.Keys == s.producers.Keys - {p};
      var rest;
      rest, end := FinishSends(mid);
      RunAppend(s, first, mid, rest, end);
      more := first + rest;
    }
  }

  lemma RunNone(s: State)
    ensures Run(s, [], s)
  {
  }

  lemma WorkKeeps(s: State, a: Action)
    requires Enabled(s, a) && !ByProducerStep(a) && !a.FeedFail? && !a.Skip?
    ensures After(s, a).lossy == s.lossy && After(s, a).accepted == s.accepted
  {
  }

  lemma {:induction false} FinishWork(s: State, left: nat) returns (more: seq<Action>, end: State)
    requires Settled(s) && StepsLeft(s, Hands(s)) <= left
    ensures Run(s, more, end) && NoCalls(more) && NoErrors(more) && Settled(end) && Quiescent(end)
    ensures end.lossy == s.lossy && end.accepted == s.accepted
    decreases left
  {
    hide Inv, Run, After, Enabled, StepsLeft, Hands;
    if s.workers == map[] && s.queue == 0 {
      more, end := [], s;
      RunNone(s);
    } else {
      var a := NextStep(s);
      var next := After(s, a);
      StepCounts(s, a, Hands(s));
      FewerHands(next, Hands(s));
      NotASend(s, a);
      WorkKeeps(s, a);
      LeftIsNat(next);
      var rest;
      rest, end := FinishWork(next, left - 1);
      RunOne(s, a);
      RunAppend(s, [a], next, rest, end);
      more := [a] + rest;
    }
  }

  lemma NotASend(s: State, a: Action)
    requires s.producers == map[] && Enabled(s, a) && !a.Call?
    ensures !ByProducerStep(a)
  {
  }

  lemma FewerHands(s: State, hands: nat)
    requires Settled(s) && Hands(s) <= hands
    ensures StepsLeft(s, Hands(s)) <= StepsLeft(s, hands)
  {
    hide Hands, Way;
    SettledPending(s);
    var a, b := FARTHEST * Hands(s) + 1, FARTHEST * hands + 1;
    assert s.pending * a <= s.pending * b;
  }

  lemma LeftIsNat(s: State)
    requires Settled(s)
    ensures 0 <= StepsLeft(s, Hands(s))
  {
    hide Hands, Way;
    SettledPending(s);
    assert 0 <= s.pending * (FARTHEST * Hands(s) + 1);
  }

  /** From the end of every run, the calls of `send` already begun and the workers can go on, without
      errors, until everybody has left: then every accepted message has been taken, and fed to
      the socket if no error had occurred before. */
  lemma CanDrain(s: State, actions: seq<Action>, now: State) returns (more: seq<Action>, end: State)
    requires Initial(s) && Run(s, actions, now)
    ensures Run(now, more, end) && NoCalls(more) && NoErrors(more) && Quiescent(end)
    ensures end.outbound == [] && now.accepted <= end.accepted == end.taken && (!now.lossy ==> end.fed == end.accepted)
  {
    hide Run, Inv, StepsLeft, Hands;
    assert Inv(s) by { InitialInv(s); }
    RunKeepsInv(s, actions, now);
    var first, mid := FinishSends(now);
    LeftIsNat(mid);
    var rest;
    rest, end := FinishWork(mid, StepsLeft(mid, Hands(mid)));
    RunAppend(now, first, mid, rest, end);
    more := first + rest;
    QuiescentIsDone(end);
  }

  lemma InitialInv(s: State)
    requires Initial(s)
    ensures Inv(s)
  {
    assert Counting(s.producers) == {};
  }
}
