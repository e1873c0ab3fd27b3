/** The Go server's persistence over every run of writes, compactions, crashes and restarts. */
module GoRuns {
  import opened Basics
  import opened Json
  import opened GoStore
  import opened GoWal

  // ---------- snapshot and log must overlap ----------

  /** For all orderly records, loading the snapshot after `i` of them and a log that starts at
      record `j` restores exactly the final entries. */
  ghost predicate LoadsExactly(i: nat, j: nat, n: nat)
    requires i <= n && j <= n
  {
    forall recs: seq<Rec>, s0: Loading :: |recs| == n && Orderly(recs, i, j) && s0.entries == Live(recs[..i]) - {""}
      ==> LoadRecs(s0, recs[j..]).entries == Live(recs) - {""}
  }

  /** Every record writes "b", except record `i`, which writes "a". */
  function OneOdd(i: nat, n: nat): (r: seq<Rec>)
    ensures |r| == n
    ensures forall t | 0 <= t < n :: r[t] == Put(if t == i then "a" else "b", t + 1, Null)
  {
    seq(n, t requires 0 <= t => Put(if t == i then "a" else "b", t + 1, Null))
  }

  lemma {:induction false} Untouched(recs: seq<Rec>, s: Loading, k: string)
    requires k !in s.entries && forall t | 0 <= t < |recs| :: recs[t].key != k
    ensures k !in Live(recs) && k !in LoadRecs(s, recs).entries
    decreases |recs|
  {
    if recs != [] {
      Untouched(recs[..|recs| - 1], s, k);
    }
  }

  lemma {:induction false} LiveVersion(recs: seq<Rec>, k: string)
    requires k in Live(recs)
    ensures exists t | 0 <= t < |recs| :: recs[t].key == k && recs[t].version == Live(recs)[k].version
    decreases |recs|
  {
    var n := |recs| - 1;
    if recs[n].key == k {
      assert recs[n].version == Live(recs)[k].version;
    } else {
      LiveVersion(recs[..n], k);
      var t :| 0 <= t < n && recs[..n][t].key == k && recs[..n][t].version == Live(recs[..n])[k].version;
      assert recs[t] == recs[..n][t];
    }
  }

  lemma OddOrderly(i: nat, j: nat, n: nat)
    requires i <= n && j <= n
    ensures Orderly(OneOdd(i, n), i, j)
  {
    hide Live;
    var recs := OneOdd(i, n);
    assert KeyOrdered(recs[j..]);
    forall k | k in Live(recs[..i]) ensures 0 < Live(recs[..i])[k].version <= i {
      LiveVersion(recs[..i], k);
      var t :| 0 <= t < i && recs[..i][t].key == k && recs[..i][t].version == Live(recs[..i])[k].version;
    }
  }

  lemma {:induction false} OddLive(i: nat, n: nat)
    requires i < n
    ensures "a" in Live(OneOdd(i, n))
    decreases n
  {
    var recs := OneOdd(i, n);
    if i < n - 1 {
      OddLive(i, n - 1);
      assert recs[..n - 1] == OneOdd(i, n - 1);
      assert recs[n - 1].key == "b";
    }
  }

  /** The log may be truncated up to record `j` only if the snapshot covers it: loading is exact
      for all records exactly when `j <= i`. Records written between reading the entries and
      truncating the log are lost. */
  lemma GapExact(i: nat, j: nat, n: nat)
    requires i <= n && j <= n
    ensures LoadsExactly(i, j, n) <==> j <= i
  {
    hide Live, LoadRecs, Orderly;
    if j <= i {
      forall recs: seq<Rec>, s0: Loading | |recs| == n && Orderly(recs, i, j) && s0.entries == Live(recs[..i]) - {""}
        ensures LoadRecs(s0, recs[j..]).entries == Live(recs) - {""}
      {
        Overlap(recs, i, j, s0);
      }
    } else {
      var recs := OneOdd(i, n);
      OddOrderly(i, j, n);
      Untouched(recs[..i], Loading(map[], 0), "a");
      var s0 := Loading(Live(recs[..i]) - {""}, 0);
      Untouched(recs[j..], s0, "a");
      OddLive(i, n);
      assert "a" in Live(recs) - {""} && "a" !in LoadRecs(s0, recs[j..]).entries;
    }
  }

  // ---------- the server ----------

  /** A copy of the entries and the moment it was made, counted in records since the last
      start; none for a copy from before. */
  datatype Copy = Copy(entries: Entries, at: Option<nat>)

  /** How far a compaction has got. */
  datatype Stage = Took | Wrote | Renamed
  datatype Job = Job(copy: Copy, stage: Stage)

  /** `mem` and `counter` are the running store, or what it was when the process died. `snap`,
      `tmp` and `wal` are files. `n` counts the records written since the last start, `cut` is
      the moment the log was last emptied since, `torn` says that the log had a torn piece at
      the start and has not been emptied since, and `gone` are the keys evicted since their
      last write. */
  datatype Server = Server(up: bool, mem: Entries, counter: nat, snap: Copy, tmp: Option<Copy>, wal: seq<Piece>,
                           jobs: map<nat, Job>, n: nat, cut: Option<nat>, torn: bool, gone: set<string>)

  datatype Action =
    | Write(r: Rec)          // a mutation and its log record
    | Evict(keys: set<string>)
    | Take(id: nat)          // a compaction reads the entries
    | WriteTmp(id: nat)      // and writes the shared temporary file
    | Rename(id: nat)        // and puts it in place, or gives up if another one took it
    | Truncate(id: nat)      // and empties the log
    | Crash(midRecord: bool)
    | Restart(s0: Loading)   // load the snapshot as `s0`, replay the log, append to it from then on

  function Applied(mem: Entries, r: Rec): Entries {
    match r
    case Put(k, version, value) => mem[k := StateEntry(value, version)]
    case Del(k, _) => mem - {k}
  }

  predicate AtStage(f: Server, id: nat, stage: Stage) {
    f.up && id in f.jobs && f.jobs[id].stage == stage
  }

  ghost predicate Enabled(f: Server, a: Action) {
    match a
    case Write(r) => f.up && r.version > f.counter && (r.Del? ==> r.key in f.mem)
    case Evict(keys) => f.up
    case Take(id) => f.up && id !in f.jobs
    case WriteTmp(id) => AtStage(f, id, Took)
    case Rename(id) => AtStage(f, id, Wrote)
    case Truncate(id) => AtStage(f, id, Renamed)
    case Crash(_) => f.up
    case Restart(s0) => !f.up && s0.entries == f.snap.entries - {""} && IsTopVersion(f.snap.entries, s0.global)
  }

  function After(f: Server, a: Action): Server
    requires Enabled(f, a)
  {
    match a
    case Write(r) =>
      f.(mem := Applied(f.mem, r), counter := r.version, wal := f.wal + [Whole(r)], n := f.n + 1,
         gone := if r.Put? then f.gone - {r.key} else f.gone)
    case Evict(keys) => f.(mem := f.mem - keys, gone := f.gone + (keys * f.mem.Keys))
    case Take(id) => f.(jobs := f.jobs[id := Job(Copy(f.mem, Some(f.n)), Took)])
    case WriteTmp(id) => f.(tmp := Some(f.jobs[id].copy), jobs := f.jobs[id := f.jobs[id].(stage := Wrote)])
    case Rename(id) =>
      if f.tmp.None? then f.(jobs := f.jobs - {id})
      else f.(snap := f.tmp.value, tmp := None, jobs := f.jobs[id := f.jobs[id].(stage := Renamed)])
    case Truncate(id) => f.(wal := [], cut := Some(f.n), torn := false, jobs := f.jobs - {id})
    case Crash(midRecord) => f.(up := false, wal := if midRecord then f.wal + [Torn] else f.wal, jobs := map[])
    case Restart(s0) =>
      var loaded := LoadRecs(s0, Readable(f.wal));
      Server(true, loaded.entries, loaded.global, Copy(f.snap.entries, None), None, f.wal, map[], 0, None, Torn in f.wal, {})
  }

  // ---------- the invariant ----------

  predicate Fresh(f: Server, at: Option<nat>) {
    f.cut.None? || (at.Some? && f.cut.value <= at.value)
  }

  /** The key's last record in the log is a delete. */
  predicate EndsInDel(recs: seq<Rec>, k: string) {
    HasRec(recs, k) && FromNothing(recs, k).None?
  }

  /** What any copy of the entries, once loaded, makes of key `k`. */
  ghost predicate CopyOk(f: Server, c: Copy, k: string) {
    var log, x, m := Readable(f.wal), EntryAt(c.entries, k), EntryAt(f.mem, k);
    && (x.Some? ==> 0 < x.value.version <= f.counter)
    && (c.at.Some? ==> c.at.value <= f.n)
    && (k !in f.gone && !f.torn && Fresh(f, c.at) ==> Fold(x, log, k) == m)
    && (k !in f.gone && f.torn && f.n == 0 ==> Fold(x, log, k) == m)
    && (k !in f.gone && c.at == Some(f.n) ==> x == m)
    && (!f.torn && EndsInDel(log, k) ==> Fold(x, log, k) == None)
  }

  ghost predicate MemOk(f: Server, k: string) {
    var log, m := Readable(f.wal), EntryAt(f.mem, k);
    && (m.Some? ==> 0 < m.value.version <= f.counter)
    && (k in f.gone ==> m.None?)
    && (k !in f.gone && (!f.torn || f.n == 0) ==> Fold(m, log, k) == m)
    && (!f.torn && (m.Some? || k in f.gone) ==> !EndsInDel(log, k))
  }

  ghost predicate LogOk(f: Server) {
    var log := Readable(f.wal);
    && KeyOrdered(log) && Positive(log)
    && (forall q | 0 <= q < |log| && log[q].Put? && log[q].key != "" :: log[q].version <= f.counter)
    && (f.up && !f.torn ==> Torn !in f.wal)
    && (f.torn ==> f.cut.None? && Torn in f.wal)
    && (f.cut.Some? ==> f.cut.value <= f.n && f.snap.at.Some?)
    && (f.tmp.Some? ==> f.tmp.value.at.Some?)
    && (forall id | id in f.jobs :: f.jobs[id].copy.at.Some? && (f.jobs[id].stage.Renamed? ==> f.snap.at.Some?))
  }

  predicate IsCopy(f: Server, c: Copy) {
    c == f.snap || f.tmp == Some(c) || exists id | id in f.jobs :: f.jobs[id].copy == c
  }

  ghost predicate Inv(f: Server) {
    && LogOk(f)
    && (forall k | k != "" :: MemOk(f, k))
    && (forall c, k | IsCopy(f, c) && k != "" :: CopyOk(f, c, k))
  }

  // ---------- the readable log ----------

  lemma {:induction false} ReadableSnoc(wal: seq<Piece>, p: Piece)
    ensures Readable(wal + [p]) == if Torn !in wal && p.Whole? then Readable(wal) + [p.r] else Readable(wal)
    decreases |wal|
  {
    if wal == [] {
      assert wal + [p] == [p];
    } else {
      assert (wal + [p])[1..] == wal[1..] + [p];
      ReadableSnoc(wal[1..], p);
    }
  }

  lemma FoldSnoc(x: Option<StateEntry>, log: seq<Rec>, r: Rec, k: string)
    ensures Fold(x, log + [r], k) == if r.key == k then Guarded(Fold(x, log, k), r) else Fold(x, log, k)
    ensures EndsInDel(log + [r], k) <==> if r.key == k then r.Del? else EndsInDel(log, k)
  {
    assert (log + [r])[..|log|] == log;
    if r.key == k {
      assert (log + [r])[|log|].key == k;
    } else {
      assert HasRec(log, k) ==> HasRec(log + [r], k) by {
        if HasRec(log, k) {
          var p :| 0 <= p < |log| && log[p].key == k;
          assert (log + [r])[p].key == k;
        }
      }
    }
  }

  /** Nothing loaded is newer than the counter. */
  lemma FoldBound(f: Server, x: Option<StateEntry>, k: string)
    requires LogOk(f) && k != "" && (x.Some? ==> 0 < x.value.version <= f.counter)
    ensures var y := Fold(x, Readable(f.wal), k); y.Some? ==> 0 < y.value.version <= f.counter
  {
    hide Fold;
    var log := Readable(f.wal);
    FoldShape(x, log, k);
    if FromNothing(log, k).Some? {
      var q := FromPut(log, k);
    }
  }

  lemma OrderedSnoc(log: seq<Rec>, r: Rec, counter: nat)
    requires KeyOrdered(log) && Positive(log) && r.version > counter
    requires forall q | 0 <= q < |log| && log[q].Put? && log[q].key != "" :: log[q].version <= counter
    ensures KeyOrdered(log + [r]) && Positive(log + [r])
  {
    forall p, q | 0 <= p < q < |log + [r]| && (log + [r])[p].key == (log + [r])[q].key != "" && (log + [r])[p].Put?
      ensures Follows((log + [r])[q], (log + [r])[p].version)
    {
      assert (log + [r])[p] == log[p];
      if q < |log| {
        Ordered(log, p, q);
      }
    }
  }

  // ---------- writing ----------

  /** A new record overrides whatever a copy held for its key. */
  lemma Overrides(f: Server, x: Option<StateEntry>, r: Rec)
    requires LogOk(f) && r.version > f.counter && r.key != "" && (x.Some? ==> 0 < x.value.version <= f.counter)
    ensures Guarded(Fold(x, Readable(f.wal), r.key), r) == if r.Put? then Some(StateEntry(r.value, r.version)) else None
  {
    hide Fold;
    FoldBound(f, x, r.key);
  }

  lemma WriteCopy(f: Server, r: Rec, c: Copy, k: string)
    requires Inv(f) && Enabled(f, Write(r)) && k != "" && CopyOk(f, c, k)
    ensures CopyOk(After(f, Write(r)), c, k)
  {
    hide Fold, EndsInDel, Guarded, Inv, LogOk, FromNothing;
    assert LogOk(f) && MemOk(f, k) by { InvParts(f, k); }
    var log := Readable(f.wal);
    ReadableSnoc(f.wal, Whole(r));
    FoldSnoc(EntryAt(c.entries, k), log, r, k);
    if r.key == k {
      Overrides(f, EntryAt(c.entries, k), r);
    }
    TornFlag(f);
  }

  lemma InvParts(f: Server, k: string)
    requires Inv(f) && k != ""
    ensures LogOk(f) && MemOk(f, k)
  {
  }

  lemma TornFlag(f: Server)
    requires LogOk(f) && f.up
    ensures f.torn <==> Torn in f.wal
  {
  }

  lemma WriteMem(f: Server, r: Rec, k: string)
    requires Inv(f) && Enabled(f, Write(r)) && k != ""
    ensures MemOk(After(f, Write(r)), k)
  {
    hide Fold, EndsInDel, Inv, LogOk, FromNothing;
    InvParts(f, k);
    var log := Readable(f.wal);
    ReadableSnoc(f.wal, Whole(r));
    TornFlag(f);
    var m' := EntryAt(Applied(f.mem, r), k);
    FoldSnoc(m', log, r, k);
    if r.key == k {
      Settles(f, m', r);
    }
  }

  lemma Settles(f: Server, m: Option<StateEntry>, r: Rec)
    requires LogOk(f) && r.version > f.counter && r.key != ""
    requires m == if r.Put? then Some(StateEntry(r.value, r.version)) else None
    ensures Guarded(Fold(m, Readable(f.wal), r.key), r) == m
  {
    hide Fold, FromNothing;
    var log := Readable(f.wal);
    FoldShape(m, log, r.key);
    if FromNothing(log, r.key).Some? {
      var q := FromPut(log, r.key);
    }
  }

  lemma WriteStep(f: Server, r: Rec)
    requires Inv(f) && Enabled(f, Write(r))
    ensures Inv(After(f, Write(r)))
  {
    hide CopyOk, MemOk, KeyOrdered;
    var f' := After(f, Write(r));
    ReadableSnoc(f.wal, Whole(r));
    OrderedSnoc(Readable(f.wal), r, f.counter);
    forall k | k != "" ensures MemOk(f', k) {
      WriteMem(f, r, k);
    }
    forall c, k | IsCopy(f', c) && k != "" ensures CopyOk(f', c, k) {
      assert IsCopy(f, c);
      WriteCopy(f, r, c, k);
    }
  }

  // ---------- the other steps ----------

  lemma EvictStep(f: Server, keys: set<string>)
    requires Inv(f) && Enabled(f, Evict(keys))
    ensures Inv(After(f, Evict(keys)))
  {
    hide Fold, EndsInDel, KeyOrdered, Positive;
    var f' := After(f, Evict(keys));
    forall k | k != "" ensures MemOk(f', k) {
      assert MemOk(f, k);
    }
    forall c, k | IsCopy(f', c) && k != "" ensures CopyOk(f', c, k) {
      assert IsCopy(f, c) && CopyOk(f, c, k) && MemOk(f, k);
    }
  }

  lemma MemIsCopy(f: Server, k: string)
    requires Inv(f) && k != ""
    ensures CopyOk(f, Copy(f.mem, Some(f.n)), k)
  {
    hide Fold, KeyOrdered, FromNothing;
    assert MemOk(f, k) && LogOk(f);
    var log := Readable(f.wal);
    FoldShape(EntryAt(f.mem, k), log, k);
  }

  /** Steps that only move copies around. */
  lemma CopyStep(f: Server, a: Action)
    requires Inv(f) && Enabled(f, a) && (a.Take? || a.WriteTmp? || a.Rename?)
    ensures Inv(After(f, a))
  {
    hide Fold, EndsInDel, KeyOrdered, Positive;
    var f' := After(f, a);
    forall k | k != "" ensures MemOk(f', k) {
      assert MemOk(f, k);
    }
    forall c, k | IsCopy(f', c) && k != "" ensures CopyOk(f', c, k) {
      MemIsCopy(f, k);
      assert IsCopy(f, c) || (a.Take? && c == Copy(f.mem, Some(f.n)));
      assert CopyOk(f, c, k);
    }
  }

  lemma TruncateStep(f: Server, id: nat)
    requires Inv(f) && Enabled(f, Truncate(id))
    ensures Inv(After(f, Truncate(id)))
  {
    var f' := After(f, Truncate(id));
    assert Readable([]) == [];
    forall k | k != "" ensures MemOk(f', k) {
      assert MemOk(f, k);
    }
    forall c, k | IsCopy(f', c) && k != "" ensures CopyOk(f', c, k) {
      assert IsCopy(f, c) && CopyOk(f, c, k);
    }
  }

  lemma CrashStep(f: Server, midRecord: bool)
    requires Inv(f) && Enabled(f, Crash(midRecord))
    ensures Inv(After(f, Crash(midRecord)))
  {
    hide Fold, EndsInDel, KeyOrdered, Positive;
    var f' := After(f, Crash(midRecord));
    ReadableSnoc(f.wal, Torn);
    forall k | k != "" ensures MemOk(f', k) {
      assert MemOk(f, k);
    }
    forall c, k | IsCopy(f', c) && k != "" ensures CopyOk(f', c, k) {
      assert IsCopy(f, c) && CopyOk(f, c, k);
    }
  }

  lemma RestartKey(f: Server, s0: Loading, k: string)
    requires Inv(f) && Enabled(f, Restart(s0)) && k != ""
    ensures var f' := After(f, Restart(s0));
      && MemOk(f', k) && CopyOk(f', f'.snap, k)
      && EntryAt(f'.mem, k) == Fold(EntryAt(f.snap.entries, k), Readable(f.wal), k)
  {
    hide Fold, LoadRecs, KeyOrdered, FromNothing;
    var log, x := Readable(f.wal), EntryAt(f.snap.entries, k);
    var loaded := LoadRecs(s0, log);
    assert IsCopy(f, f.snap) && CopyOk(f, f.snap, k) && LogOk(f);
    LoadIsFold(s0, log, k);
    FoldAgain(x, log, k);
    CounterRises(s0, log);
    FoldShape(x, log, k);
    if FromNothing(log, k).Some? {
      var q := FromPut(log, k);
    }
  }

  lemma RestartStep(f: Server, s0: Loading)
    requires Inv(f) && Enabled(f, Restart(s0))
    ensures Inv(After(f, Restart(s0)))
  {
    hide Fold, LoadRecs, KeyOrdered, MemOk, CopyOk;
    var f' := After(f, Restart(s0));
    CounterRises(s0, Readable(f.wal));
    forall k | k != "" ensures MemOk(f', k) && CopyOk(f', f'.snap, k) {
      RestartKey(f, s0, k);
    }
    forall c | IsCopy(f', c) ensures c == f'.snap {
    }
  }

  lemma StepKeepsInv(f: Server, a: Action)
    requires Inv(f) && Enabled(f, a)
    ensures Inv(After(f, a))
  {
    hide Inv, LoadRecs;
    match a
    case Write(r) => WriteStep(f, r);
    case Evict(keys) => EvictStep(f, keys);
    case Take(_) => CopyStep(f, a);
    case WriteTmp(_) => CopyStep(f, a);
    case Rename(_) => CopyStep(f, a);
    case Truncate(id) => TruncateStep(f, id);
    case Crash(midRecord) => CrashStep(f, midRecord);
    case Restart(s0) => RestartStep(f, s0);
  }

  // ---------- runs ----------

  const EMPTY: Server := Server(true, map[], 0, Copy(map[], None), None, [], map[], 0, None, false, {})

  ghost predicate Run(f: Server, actions: seq<Action>, end: Server)
    decreases |actions|
  {
    if actions == [] then end == f
    else Enabled(f, actions[0]) && Run(After(f, actions[0]), actions[1..], end)
  }

  lemma {:induction false} RunKeepsInv(f: Server, actions: seq<Action>, end: Server)
    requires Inv(f) && Run(f, actions, end)
    ensures Inv(end)
    decreases |actions|
  {
    hide Inv, Enabled, After;
    if actions != [] {
      StepKeepsInv(f, actions[0]);
      RunKeepsInv(After(f, actions[0]), actions[1..], end);
    }
  }

  lemma EmptyInv()
    ensures Inv(EMPTY)
  {
    assert Readable([]) == [];
  }

  /** How the files stand to the `n` records written since the last start. Either the log was
      kept, with `read` records before its first torn piece if it has one, and the snapshot is
      the old one or of moment `snap`; or the log was emptied at moment `from`. */
  datatype Shape =
    | Kept(torn: bool, read: nat, snap: Option<nat>, n: nat)
    | Emptied(snap: Option<nat>, from: nat, n: nat)

  function ShapeOf(f: Server): Shape {
    if f.cut.Some? then Emptied(f.snap.at, f.cut.value, f.n)
    else Kept(f.torn, |Readable(f.wal)|, f.snap.at, f.n)
  }

  /** A log with a torn piece takes no more records; an emptied log needs a snapshot at least as new. */
  predicate GoodShape(s: Shape) {
    match s
    case Kept(torn, read, snap, n) => !torn || n == 0 || (snap == Some(n) && read == 0)
    case Emptied(snap, from, _) => snap.Some? && from <= snap.value
  }

  /** Loading the files gives key `k` what memory had. */
  predicate Restores(f: Server, k: string) {
    Fold(EntryAt(f.snap.entries, k), Readable(f.wal), k) == EntryAt(f.mem, k)
  }

  /** In every run of writes, evictions, overlapping compactions, crashes in mid record or not,
      and restarts: if the files have a good shape, loading restores every key that was not
      evicted, with its value and version. */
  lemma LoadsWhatWasWritten(actions: seq<Action>, end: Server, k: string)
    requires Run(EMPTY, actions, end) && k != "" && k !in end.gone && GoodShape(ShapeOf(end))
    ensures Restores(end, k)
  {
    hide Run, KeyOrdered, FromNothing;
    EmptyInv();
    RunKeepsInv(EMPTY, actions, end);
    assert IsCopy(end, end.snap) && CopyOk(end, end.snap, k);
    if end.torn && end.n > 0 {
      assert Readable(end.wal) == [];
    }
  }

  /** Some record of the key in the log overrides an entry of this version. */
  predicate Overridden(log: seq<Rec>, k: string, version: nat) {
    exists q | 0 <= q < |log| && log[q].key == k :: Follows(log[q], version)
  }

  /** The files still hold a key: the log's last record of it is a Put, or the snapshot has an
      entry that no record of the log overrides. */
  predicate FilesHold(snap: Entries, log: seq<Rec>, k: string) {
    FromNothing(log, k).Some? || (k in snap && !Overridden(log, k, snap[k].version))
  }

  lemma {:induction false} FoldExact(x: Option<StateEntry>, log: seq<Rec>, k: string)
    requires k != "" && KeyOrdered(log) && Positive(log)
    ensures Fold(x, log, k) == if x.Some? && !Overridden(log, k, x.value.version) then x else FromNothing(log, k)
    decreases |log|
  {
    if log != [] {
      var n := |log| - 1;
      var init, r := log[..n], log[n];
      FoldExact(x, init, k);
      assert x.Some? ==> (Overridden(log, k, x.value.version) <==>
        Overridden(init, k, x.value.version) || (r.key == k && Follows(r, x.value.version))) by {
        if x.Some? {
          OverriddenSnoc(init, r, k, x.value.version);
          assert log == init + [r];
        }
      }
      if r.key == k && FromNothing(init, k).Some? {
        var q := FromPut(init, k);
        assert log[q] == init[q];
        assert Follows(r, log[q].version);
      }
    }
  }

  lemma OverriddenSnoc(init: seq<Rec>, r: Rec, k: string, version: nat)
    ensures Overridden(init + [r], k, version) <==> Overridden(init, k, version) || (r.key == k && Follows(r, version))
  {
    var log := init + [r];
    if Overridden(init, k, version) {
      var q :| 0 <= q < |init| && init[q].key == k && Follows(init[q], version);
      assert log[q] == init[q];
    }
    if r.key == k && Follows(r, version) {
      assert log[|init|] == r;
    }
  }

  /** In every run an evicted key stays gone after a restart exactly when the files no longer hold
      it; with no torn piece in the log, when neither snapshot nor log mentions it. */
  lemma EvictExact(actions: seq<Action>, end: Server, k: string)
    requires Run(EMPTY, actions, end) && k != "" && k in end.gone
    ensures Restores(end, k) <==> !FilesHold(end.snap.entries, Readable(end.wal), k)
    ensures !end.torn ==> (Restores(end, k) <==> k !in end.snap.entries && !HasRec(Readable(end.wal), k))
  {
    hide Run, KeyOrdered;
    EmptyInv();
    RunKeepsInv(EMPTY, actions, end);
    assert MemOk(end, k) && LogOk(end);
    var log, x := Readable(end.wal), EntryAt(end.snap.entries, k);
    FoldExact(x, log, k);
    if HasRec(log, k) {
      if !end.torn {
        PutStays(x, log, k);
      }
    } else {
      NoRecord(x, log, k);
    }
  }

  lemma {:induction false} NoRecord(x: Option<StateEntry>, log: seq<Rec>, k: string)
    requires !HasRec(log, k)
    ensures Fold(x, log, k) == x
    decreases |log|
  {
    if log != [] {
      assert forall p | 0 <= p < |log| :: log[p].key != k;
      NoRecord(x, log[..|log| - 1], k);
    }
  }

  lemma {:induction false} PutStays(x: Option<StateEntry>, log: seq<Rec>, k: string)
    requires FromNothing(log, k).Some? && Positive(log)
    ensures Fold(x, log, k).Some?
    decreases |log|
  {
    var n := |log| - 1;
    if log[n].key != k {
      PutStays(x, log[..n], k);
    }
  }

  /** What `Restart` does is what `Restores` speaks of. */
  lemma RestartLoads(actions: seq<Action>, end: Server, s0: Loading, k: string)
    requires Run(EMPTY, actions, end) && Enabled(end, Restart(s0)) && k != ""
    ensures EntryAt(After(end, Restart(s0)).mem, k) == EntryAt(end.mem, k) <==> Restores(end, k)
    ensures var counter := After(end, Restart(s0)).counter;
      && (counter == 0 || OnFile(end.snap.entries, Readable(end.wal), counter))
      && forall version: nat | OnFile(end.snap.entries, Readable(end.wal), version) :: version <= counter
  {
    hide Run;
    EmptyInv();
    RunKeepsInv(EMPTY, actions, end);
    RestartKey(end, s0, k);
    CounterIsOnFile(end.snap.entries, s0, Readable(end.wal));
    CounterRises(s0, Readable(end.wal));
  }
}
