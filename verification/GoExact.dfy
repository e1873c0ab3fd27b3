/** The Go server's persistence: exactly which shapes of its files restore what was written. */
module GoExact {
  import opened Basics
  import opened Json
  import opened GoStore
  import opened GoWal
  import opened GoRuns

  /** Every run that leaves the files in this shape restores every key that was not evicted. */
  ghost predicate RunsRestore(shape: Shape) {
    forall actions: seq<Action>, end: Server, k: string ::
      Run(EMPTY, actions, end) && ShapeOf(end) == shape && k != "" && k !in end.gone ==> Restores(end, k)
  }

  /** The moments of the snapshot and of emptying the log are moments of the run. */
  predicate WellShaped(s: Shape) {
    match s
    case Kept(_, _, snap, n) => snap.Some? ==> snap.value <= n
    case Emptied(snap, from, n) => snap.Some? && snap.value <= n && from <= n
  }

  // ---------- building runs ----------

  ghost predicate Reach(f: Server, g: Server) {
    exists actions :: Run(f, actions, g)
  }

  lemma {:induction false} RunAppend(f: Server, a: seq<Action>, mid: Server, b: seq<Action>, end: Server)
    requires Run(f, a, mid) && Run(mid, b, end)
    ensures Run(f, a + b, end)
    decreases |a|
  {
    hide Enabled, After;
    if a == [] {
      assert a + b == b;
    } else {
      assert (a + b)[1..] == a[1..] + b;
      RunAppend(After(f, a[0]), a[1..], mid, b, end);
    }
  }

  lemma ReachTrans(f: Server, g: Server, h: Server)
    requires Reach(f, g) && Reach(g, h)
    ensures Reach(f, h)
  {
    hide Run;
    var a :| Run(f, a, g);
    var b :| Run(g, b, h);
    RunAppend(f, a, g, b, h);
  }

  lemma ReachSelf(f: Server)
    ensures Reach(f, f)
  {
    assert Run(f, [], f);
  }

  lemma ReachOne(f: Server, a: Action)
    requires Enabled(f, a)
    ensures Reach(f, After(f, a))
  {
    hide Enabled, After;
    assert [a][1..] == [];
    assert Run(After(f, a), [], After(f, a));
    assert Run(f, [a], After(f, a));
  }

  function AppliedAll(mem: Entries, recs: seq<Rec>): Entries
    decreases |recs|
  {
    if recs == [] then mem else Applied(AppliedAll(mem, recs[..|recs| - 1]), recs[|recs| - 1])
  }

  function Wholes(recs: seq<Rec>): (r: seq<Piece>)
    ensures |r| == |recs|
    ensures forall i | 0 <= i < |recs| :: r[i] == Whole(recs[i])
  {
    seq(|recs|, i requires 0 <= i < |recs| => Whole(recs[i]))
  }

  /** The server after writing `recs`. */
  function Written(f: Server, recs: seq<Rec>): Server {
    f.(mem := AppliedAll(f.mem, recs), counter := f.counter + |recs|, wal := f.wal + Wholes(recs), n := f.n + |recs|)
  }

  /** Puts with the next versions in turn. */
  predicate NextPuts(recs: seq<Rec>, counter: nat) {
    forall i | 0 <= i < |recs| :: recs[i].Put? && recs[i].version == counter + 1 + i
  }

  lemma {:induction false} ReachWritten(f: Server, recs: seq<Rec>)
    requires f.up && f.gone == {} && NextPuts(recs, f.counter)
    ensures Reach(f, Written(f, recs))
    decreases |recs|
  {
    hide Run;
    if recs == [] {
      assert f.wal + Wholes([]) == f.wal;
      ReachSelf(f);
    } else {
      var n := |recs| - 1;
      ReachWritten(f, recs[..n]);
      var g := Written(f, recs[..n]);
      assert g.wal + [Whole(recs[n])] == f.wal + Wholes(recs);
      assert g.gone - {recs[n].key} == {};
      assert After(g, Write(recs[n])) == Written(f, recs);
      ReachOne(g, Write(recs[n]));
      ReachTrans(f, g, Written(f, recs));
    }
  }

  /** The server after a compaction has put its snapshot in place. */
  function Snapped(f: Server): Server {
    f.(snap := Copy(f.mem, Some(f.n)), jobs := map[0 := Job(Copy(f.mem, Some(f.n)), Renamed)])
  }

  lemma ReachSnapped(f: Server)
    requires f.up && f.jobs == map[] && f.tmp == None
    ensures Reach(f, Snapped(f))
  {
    hide Run;
    var c := Copy(f.mem, Some(f.n));
    var g := f.(jobs := map[0 := Job(c, Took)]);
    assert f.jobs[0 := Job(c, Took)] == map[0 := Job(c, Took)];
    ReachOne(f, Take(0));
    FinishSnapshot(g, c);
    ReachTrans(f, g, Snapped(f));
  }

  lemma FinishSnapshot(g: Server, c: Copy)
    requires g.up && g.jobs == map[0 := Job(c, Took)] && g.tmp == None
    ensures Reach(g, g.(snap := c, jobs := map[0 := Job(c, Renamed)]))
  {
    hide Run;
    var h := g.(tmp := Some(c), jobs := map[0 := Job(c, Wrote)]);
    assert g.jobs[0 := Job(c, Wrote)] == map[0 := Job(c, Wrote)];
    ReachOne(g, WriteTmp(0));
    assert h.jobs[0 := Job(c, Renamed)] == map[0 := Job(c, Renamed)];
    ReachOne(h, Rename(0));
    ReachTrans(g, h, g.(snap := c, jobs := map[0 := Job(c, Renamed)]));
  }

  // ---------- keys and readable parts ----------

  lemma {:induction false} AppliedLacks(mem: Entries, recs: seq<Rec>, k: string)
    requires k !in mem && forall i | 0 <= i < |recs| :: recs[i].key != k
    ensures k !in AppliedAll(mem, recs)
    decreases |recs|
  {
    if recs != [] {
      AppliedLacks(mem, recs[..|recs| - 1], k);
    }
  }

  lemma {:induction false} AppliedHas(mem: Entries, recs: seq<Rec>, k: string)
    requires (forall i | 0 <= i < |recs| :: recs[i].Put?) && (k in mem || HasRec(recs, k))
    ensures k in AppliedAll(mem, recs)
    decreases |recs|
  {
    if recs != [] {
      var n := |recs| - 1;
      if recs[n].key != k {
        assert HasRec(recs, k) ==> HasRec(recs[..n], k) by {
          if HasRec(recs, k) {
            var p :| 0 <= p < |recs| && recs[p].key == k;
            assert recs[..n][p].key == k;
          }
        }
        AppliedHas(mem, recs[..n], k);
      }
    }
  }

  lemma {:induction false} ReadableWholes(recs: seq<Rec>, rest: seq<Piece>)
    requires rest == [] || rest[0].Torn?
    ensures Readable(Wholes(recs) + rest) == recs
    decreases |recs|
  {
    var wal := Wholes(recs) + rest;
    if recs == [] {
      assert wal == rest;
    } else {
      assert wal[1..] == Wholes(recs[1..]) + rest;
      ReadableWholes(recs[1..], rest);
    }
  }

  /** A key that memory has and neither the snapshot nor the log mentions is lost. */
  lemma Lost(f: Server, k: string)
    requires k in f.mem && k !in f.snap.entries && !HasRec(Readable(f.wal), k)
    ensures !Restores(f, k)
  {
    NoRecord(None, Readable(f.wal), k);
  }

  lemma Refuted(f: Server, k: string)
    requires Reach(EMPTY, f) && k != "" && k !in f.gone && !Restores(f, k)
    ensures !RunsRestore(ShapeOf(f))
  {
    hide Run, Restores;
    var actions :| Run(EMPTY, actions, f);
  }

  // ---------- emptying the log too far ----------

  lemma OddPuts(i: nat, n: nat, from: nat, upTo: nat)
    requires from <= upTo <= n
    ensures NextPuts(OneOdd(i, n)[from..upTo], from)
    ensures i < from || upTo <= i ==> !HasRec(OneOdd(i, n)[from..upTo], "a")
    ensures from <= i < upTo ==> HasRec(OneOdd(i, n)[from..upTo], "a")
  {
    var part := OneOdd(i, n)[from..upTo];
    if from <= i < upTo {
      assert part[i - from].key == "a";
    }
  }

  /** A compaction that has read the entries. */
  function Reading(f: Server): Server {
    f.(jobs := map[0 := Job(Copy(f.mem, Some(f.n)), Took)])
  }

  lemma ReachReading(f: Server)
    requires f.up && f.jobs == map[]
    ensures Reach(f, Reading(f))
  {
    hide Run;
    var j := Job(Copy(f.mem, Some(f.n)), Took);
    assert f.jobs[0 := j] == map[0 := j];
    ReachOne(f, Take(0));
  }

  /** It finishes and empties the log. */
  function Finished(f: Server, c: Copy): Server {
    f.(snap := c, wal := [], cut := Some(f.n), torn := false, jobs := map[])
  }

  lemma ReachFinished(f: Server, c: Copy)
    requires f.up && f.jobs == map[0 := Job(c, Took)] && f.tmp == None
    ensures Reach(f, Finished(f, c))
  {
    hide Run;
    var g := f.(snap := c, jobs := map[0 := Job(c, Renamed)]);
    FinishSnapshot(f, c);
    assert g.jobs - {0} == map[];
    ReachOne(g, Truncate(0));
    ReachTrans(f, g, Finished(f, c));
  }

  /** Entries read after `a`, log emptied after `b` more records, then `d`. */
  lemma ReachEmptied(a: seq<Rec>, b: seq<Rec>, d: seq<Rec>) returns (f: Server)
    requires NextPuts(a, 0) && NextPuts(b, |a|) && NextPuts(d, |a| + |b|)
    ensures Reach(EMPTY, f) && f.gone == {} && ShapeOf(f) == Emptied(Some(|a|), |a| + |b|, |a| + |b| + |d|)
    ensures f.snap.entries == AppliedAll(map[], a) && f.wal == Wholes(d)
    ensures f.mem == AppliedAll(AppliedAll(AppliedAll(map[], a), b), d)
  {
    hide Run, AppliedAll, Enabled, After, NextPuts, Reach;
    var f1 := Written(EMPTY, a);
    ReachWritten(EMPTY, a);
    var c := Copy(f1.mem, Some(|a|));
    ReachReading(f1);
    ReachTrans(EMPTY, f1, Reading(f1));
    var f3 := Written(Reading(f1), b);
    ReachWritten(Reading(f1), b);
    ReachTrans(EMPTY, Reading(f1), f3);
    ReachFinished(f3, c);
    ReachTrans(EMPTY, f3, Finished(f3, c));
    f := Written(Finished(f3, c), d);
    ReachWritten(Finished(f3, c), d);
    ReachTrans(EMPTY, Finished(f3, c), f);
    assert [] + Wholes(d) == Wholes(d);
  }

  /** Records written between reading the entries and emptying the log are lost. */
  lemma EmptiedTooFar(p: nat, q: nat, n: nat)
    requires p < q <= n
    ensures !RunsRestore(Emptied(Some(p), q, n))
  {
    hide Run, Restores, RunsRestore, OneOdd, AppliedAll, NextPuts, HasRec, Reach;
    var recs := OneOdd(p, n);
    var a, b, d := recs[0..p], recs[p..q], recs[q..n];
    OddPuts(p, n, 0, p);
    OddPuts(p, n, p, q);
    OddPuts(p, n, q, n);
    var f := ReachEmptied(a, b, d);
    OddKeys(a, b, d);
    assert Wholes(d) + [] == Wholes(d);
    ReadableWholes(d, []);
    Lost(f, "a");
    Refuted(f, "a");
  }

  lemma OddKeys(a: seq<Rec>, b: seq<Rec>, d: seq<Rec>)
    requires !HasRec(a, "a") && HasRec(b, "a") && forall i | 0 <= i < |b| :: b[i].Put?
    requires forall i | 0 <= i < |d| :: d[i].Put?
    ensures "a" !in AppliedAll(map[], a) && "a" in AppliedAll(AppliedAll(AppliedAll(map[], a), b), d)
  {
    hide AppliedAll;
    NoKey(a, "a");
    AppliedLacks(map[], a, "a");
    AppliedHas(AppliedAll(map[], a), b, "a");
    AppliedHas(AppliedAll(AppliedAll(map[], a), b), d, "a");
  }

  lemma NoKey(recs: seq<Rec>, k: string)
    requires !HasRec(recs, k)
    ensures forall i | 0 <= i < |recs| :: recs[i].key != k
  {
  }

  // ---------- a torn log ----------

  /** `n` writes of one key, from the version after `counter` on. */
  function Same(k: string, counter: nat, n: nat): (r: seq<Rec>)
    ensures |r| == n && NextPuts(r, counter)
    ensures forall i | 0 <= i < n :: r[i].key == k
  {
    seq(n, i requires 0 <= i => Put(k, counter + 1 + i, Null))
  }

  /** A server restarted on a log of `r` records and a torn piece. */
  lemma ReachTorn(r: nat) returns (f: Server)
    ensures Reach(EMPTY, f) && ShapeOf(f) == Kept(true, r, None, 0) && Readable(f.wal) == Same("a", 0, r)
    ensures f.up && f.gone == {} && f.jobs == map[] && f.tmp == None && f.snap.entries == map[] && Torn in f.wal
    ensures f.mem.Keys == if r == 0 then {} else {"a"}
  {
    hide Run;
    var recs := Same("a", 0, r);
    var g := Written(EMPTY, recs);
    ReachWritten(EMPTY, recs);
    ReachOne(g, Crash(true));
    var h := After(g, Crash(true));
    ReachTrans(EMPTY, g, h);
    assert h.wal == Wholes(recs) + [Torn];
    ReadableWholes(recs, [Torn]);
    assert h.wal[r] == Torn;
    var s0 := Loading(map[], 0);
    assert s0.entries == h.snap.entries - {""};
    ReachOne(h, Restart(s0));
    f := After(h, Restart(s0));
    ReachTrans(EMPTY, h, f);
    LoadSame(r);
  }

  lemma {:induction false} LoadSame(r: nat)
    ensures LoadRecs(Loading(map[], 0), Same("a", 0, r)).entries.Keys == if r == 0 then {} else {"a"}
    decreases r
  {
    if r > 0 {
      LoadSame(r - 1);
      assert Same("a", 0, r)[..r - 1] == Same("a", 0, r - 1);
    }
  }

  /** More records behind a torn piece stay unread. */
  lemma {:induction false} StaysUnread(wal: seq<Piece>, more: seq<Piece>)
    requires Torn in wal
    ensures Readable(wal + more) == Readable(wal)
    decreases |wal|
  {
    var all := wal + more;
    if wal[0].Whole? {
      assert all[1..] == wal[1..] + more;
      StaysUnread(wal[1..], more);
    }
  }

  /** The server writes behind the torn piece, taking a snapshot at moment `p` if given. */
  lemma ReachBehind(r: nat, at: Option<nat>, n: nat) returns (f: Server)
    requires at.Some? ==> at.value <= n
    ensures Reach(EMPTY, f) && ShapeOf(f) == Kept(true, r, at, n) && Readable(f.wal) == Same("a", 0, r)
    ensures f.up && f.gone == {} && Torn in f.wal && f.tmp == None && (at.None? ==> f.jobs == map[])
    ensures f.mem.Keys == (if r == 0 then {} else {"a"}) + if n == 0 then {} else {"b"}
    ensures f.snap.entries.Keys <= {"a", "b"}
  {
    hide Run;
    f := ReachTorn(r);
    if at.Some? {
      f := ReachMore(f, at.value, r, None);
      ReachSnapped(f);
      ReachTrans(EMPTY, f, Snapped(f));
      f := Snapped(f);
      f := ReachMore(f, n - at.value, r, at);
    } else {
      f := ReachMore(f, n, r, None);
    }
  }

  lemma ReachMore(f: Server, n: nat, r: nat, at: Option<nat>) returns (g: Server)
    requires Reach(EMPTY, f) && ShapeOf(f) == Kept(true, r, at, f.n) && Readable(f.wal) == Same("a", 0, r)
    requires f.up && f.gone == {} && Torn in f.wal
    ensures Reach(EMPTY, g) && ShapeOf(g) == Kept(true, r, at, f.n + n) && Readable(g.wal) == Same("a", 0, r)
    ensures g == f.(mem := g.mem, counter := g.counter, wal := g.wal, n := f.n + n) && Torn in g.wal
    ensures g.mem.Keys == f.mem.Keys + if n == 0 then {} else {"b"}
  {
    hide Run;
    var recs := Same("b", f.counter, n);
    g := Written(f, recs);
    ReachWritten(f, recs);
    ReachTrans(EMPTY, f, g);
    StaysUnread(f.wal, Wholes(recs));
    AddsKey(f.mem, f.counter, n);
  }

  lemma {:induction false} AddsKey(mem: Entries, counter: nat, n: nat)
    ensures AppliedAll(mem, Same("b", counter, n)).Keys == mem.Keys + if n == 0 then {} else {"b"}
    decreases n
  {
    if n > 0 {
      AddsKey(mem, counter, n - 1);
      assert Same("b", counter, n)[..n - 1] == Same("b", counter, n - 1);
    }
  }

  lemma LastStep(f: Server, a: Action, r: nat, at: Option<nat>)
    requires Reach(EMPTY, f) && Enabled(f, a) && a.Write? && ShapeOf(f) == Kept(true, r, at, f.n) && Torn in f.wal && f.gone == {}
    ensures var g := After(f, a);
      && Reach(EMPTY, g) && ShapeOf(g) == Kept(true, r, at, f.n + 1) && Readable(g.wal) == Readable(f.wal) && g.gone == {}
  {
    hide Run;
    ReachOne(f, a);
    ReachTrans(EMPTY, f, After(f, a));
    StaysUnread(f.wal, [Whole(a.r)]);
  }

  /** A record written behind a torn piece, after the snapshot, is lost. */
  lemma TornTailRun(r: nat, at: Option<nat>, n: nat)
    requires 0 < n && (at.Some? ==> at.value < n)
    ensures !RunsRestore(Kept(true, r, at, n))
  {
    hide Run, Restores, RunsRestore, HasRec, After, Enabled, Readable;
    var f := ReachBehind(r, at, n - 1);
    var rec := Put("c", f.counter + 1, Null);
    WritesFresh(f, rec);
    LastStep(f, Write(rec), r, at);
    var g := After(f, Write(rec));
    NotAmong(r);
    Lost(g, "c");
    Refuted(g, "c");
  }

  lemma WritesFresh(f: Server, rec: Rec)
    requires f.up && rec.Put? && rec.version == f.counter + 1
    ensures Enabled(f, Write(rec)) && rec.key in After(f, Write(rec)).mem && After(f, Write(rec)).snap == f.snap
  {
  }

  lemma NotAmong(r: nat)
    ensures !HasRec(Same("a", 0, r), "c")
  {
  }

  /** A snapshot does not help a log whose readable part still holds a key deleted since. */
  lemma StaleLogRun(r: nat, n: nat)
    requires 0 < r && 0 < n
    ensures !RunsRestore(Kept(true, r, Some(n), n))
  {
    hide Run, Restores, RunsRestore;
    var f := ReachBehind(r, None, n - 1);
    var w := Write(Del("a", f.counter + 1));
    LastStep(f, w, r, None);
    var g := After(f, w);
    ReachSnapped(g);
    ReachTrans(EMPTY, g, Snapped(g));
    var h := Snapped(g);
    ComesBack(h, r);
    Refuted(h, "a");
  }

  lemma ComesBack(h: Server, r: nat)
    requires 0 < r && Readable(h.wal) == Same("a", 0, r) && "a" !in h.mem
    ensures !Restores(h, "a")
  {
    PutStays(EntryAt(h.snap.entries, "a"), Same("a", 0, r), "a");
  }

  /** For every shape of the files: all runs that leave this shape restore every key that was not
      evicted exactly when the shape is good. */
  lemma RunsExact(shape: Shape)
    requires WellShaped(shape)
    ensures RunsRestore(shape) <==> GoodShape(shape)
  {
    hide Run, Restores;
    if GoodShape(shape) {
      forall actions: seq<Action>, end: Server, k: string
        | Run(EMPTY, actions, end) && ShapeOf(end) == shape && k != "" && k !in end.gone
        ensures Restores(end, k)
      {
        LoadsWhatWasWritten(actions, end, k);
      }
    } else {
      match shape
      case Kept(_, r, at, n) =>
        if at == Some(n) {
          StaleLogRun(r, n);
        } else {
          TornTailRun(r, at, n);
        }
      case Emptied(at, from, n) => EmptiedTooFar(at.value, from, n);
    }
  }
}
