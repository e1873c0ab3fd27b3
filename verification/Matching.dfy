/** When the entries on disk stand for a given memory, and which changes keep it so. */
module Matching {
  import opened Basics
  import opened Json
  import opened Wire
  import opened Store
  import opened Segment
  import opened Recovery

  /** A key's entries appear in version order. */
  predicate KeyMonotone(es: seq<LogEntry>) {
    forall i, j | 0 <= i < j < |es| && es[i].key == es[j].key :: es[i].version <= es[j].version
  }

  /** Replaying `es` shows what `m` shows, and goes on doing so as the log changes. */
  ghost predicate Matches(es: seq<LogEntry>, m: Memory) {
    && (forall i | 0 <= i < |es| :: es[i].version <= m.version)
    && (forall k | k in m.entries :: m.entries[k].version <= m.version)
    && (forall i | 0 <= i < |es| && es[i].key in m.entries :: es[i].version <= m.entries[es[i].key].version)
    && (forall e | IsNewest(es, e) :: e.value == Visible(SlotAt(m.entries, e.key)))
    && (forall k | Visible(SlotAt(m.entries, k)) != Null :: HasKey(es, k))
    && KeyMonotone(es)
    && RisingOps(es)
  }

  /** The delta log rebuilt from `es` is the recent part of `m`'s; all of it when `exact`. */
  ghost predicate LogMatches(es: seq<LogEntry>, m: Memory, exact: bool) {
    forall k ::
      && IsSuffix(Newest(OpsOf(es, k), MAX_LOG), LogAt(m.log, k))
      && (exact ==> Newest(OpsOf(es, k), MAX_LOG) == LogAt(m.log, k))
  }

  ghost predicate SameVisible(a: Memory, b: Memory) {
    forall k :: Visible(SlotAt(a.entries, k)) == Visible(SlotAt(b.entries, k))
  }

  /** A write or delete of `k`, in memory. */
  function Mutated(m: Memory, k: string, t: Slot, ops: seq<WOp>): Memory {
    Memory(
      if t.Present? then m.entries[k := StateEntry(m.version + 1, t.value)] else m.entries - {k},
      m.version + 1,
      m.log[k := Newest(LogAt(m.log, k) + [Logged(m.version + 1, ops)], MAX_LOG)])
  }

  function EntryFor(m: Memory, k: string, t: Slot, ops: seq<WOp>): LogEntry {
    LogEntry(m.version + 1, k, ops, Visible(t))
  }

  /** A write that changed nothing: only versions move. */
  function Touched(m: Memory, k: string): Memory
    requires k in m.entries
  {
    m.(entries := m.entries[k := StateEntry(m.version + 1, m.entries[k].value)], version := m.version + 1)
  }

  predicate IsSnapshotEntry(m: Memory, e: LogEntry) {
    e.key in m.entries && e == LogEntry(m.entries[e.key].version, e.key, [], m.entries[e.key].value)
  }

  /** One entry per live key, in any order. */
  predicate IsSnapshot(m: Memory, es: seq<LogEntry>) {
    && (forall i | 0 <= i < |es| :: IsSnapshotEntry(m, es[i]))
    && (forall k | k in m.entries :: HasKey(es, k))
  }

  // ---------- changes that keep Matches ----------

  lemma TouchMatches(es: seq<LogEntry>, m: Memory, k: string, exact: bool)
    requires Matches(es, m) && LogMatches(es, m, exact) && k in m.entries
    ensures Matches(es, Touched(m, k)) && LogMatches(es, Touched(m, k), exact)
    ensures SameVisible(m, Touched(m, k)) && (Capped(m) ==> Capped(Touched(m, k)))
  {
    var m' := Touched(m, k);
    assert forall k' :: SlotAt(m'.entries, k') == SlotAt(m.entries, k');
  }

  lemma HasKeySnoc(es: seq<LogEntry>, e: LogEntry, k: string)
    ensures HasKey(es + [e], k) <==> HasKey(es, k) || e.key == k
  {
    if e.key == k {
      assert (es + [e])[|es|].key == k;
    }
    if i :| 0 <= i < |es| && es[i].key == k {
      assert (es + [e])[i].key == k;
    }
  }

  lemma WriteNewest(es: seq<LogEntry>, m: Memory, k: string, t: Slot, ops: seq<WOp>, x: LogEntry)
    requires Matches(es, m) && IsNewest(es + [EntryFor(m, k, t, ops)], x)
    ensures x.value == Visible(SlotAt(Mutated(m, k, t, ops).entries, x.key))
  {
    var e := EntryFor(m, k, t, ops);
    assert forall y | y in es :: y.version < e.version;
    if x.key == k {
      assert e in es + [e];
      assert x == e;
    } else {
      assert IsNewest(es, x);
    }
  }

  lemma WriteMatches(es: seq<LogEntry>, m: Memory, k: string, t: Slot, ops: seq<WOp>)
    requires Matches(es, m) && ops != []
    ensures Matches(es + [EntryFor(m, k, t, ops)], Mutated(m, k, t, ops))
  {
    hide IsNewest, HasKey;
    var e, m' := EntryFor(m, k, t, ops), Mutated(m, k, t, ops);
    var es' := es + [e];
    forall x | IsNewest(es', x) ensures x.value == Visible(SlotAt(m'.entries, x.key)) {
      WriteNewest(es, m, k, t, ops, x);
    }
    forall k' | Visible(SlotAt(m'.entries, k')) != Null ensures HasKey(es', k') {
      HasKeySnoc(es, e, k');
      assert k' != k ==> SlotAt(m'.entries, k') == SlotAt(m.entries, k');
    }
  }

  lemma OpsOfSnoc(es: seq<LogEntry>, e: LogEntry, k: string)
    ensures OpsOf(es + [e], k)
         == OpsOf(es, k) + (if e.key == k && e.ops != [] then [Logged(e.version, e.ops)] else [])
  {
    assert (es + [e])[..|es|] == es;
  }

  lemma SuffixSnoc(a: seq<Logged>, b: seq<Logged>, d: Logged)
    requires IsSuffix(Newest(a, MAX_LOG), b) && |b| <= MAX_LOG
    ensures IsSuffix(Newest(a + [d], MAX_LOG), Newest(b + [d], MAX_LOG))
  {
    var x, y := Newest(a, MAX_LOG), b;
    NewestSnoc(a, d);
    assert Newest(a + [d], MAX_LOG) == Newest(x + [d], MAX_LOG);
    assert IsSuffix(x + [d], y + [d]);
  }

  predicate Capped(m: Memory) {
    forall k | k in m.log :: |m.log[k]| <= MAX_LOG
  }

  lemma WriteLogMatches(es: seq<LogEntry>, m: Memory, k: string, t: Slot, ops: seq<WOp>, exact: bool)
    requires LogMatches(es, m, exact) && Capped(m) && ops != []
    ensures LogMatches(es + [EntryFor(m, k, t, ops)], Mutated(m, k, t, ops), exact)
    ensures Capped(Mutated(m, k, t, ops))
  {
    var e, m' := EntryFor(m, k, t, ops), Mutated(m, k, t, ops);
    var es' := es + [e];
    forall k'
      ensures IsSuffix(Newest(OpsOf(es', k'), MAX_LOG), LogAt(m'.log, k'))
      ensures exact ==> Newest(OpsOf(es', k'), MAX_LOG) == LogAt(m'.log, k')
    {
      OpsOfSnoc(es, e, k');
      assert IsSuffix(Newest(OpsOf(es, k'), MAX_LOG), LogAt(m.log, k'));
      if k' == k {
        var d := Logged(e.version, ops);
        SuffixSnoc(OpsOf(es, k), LogAt(m.log, k), d);
        NewestSnoc(OpsOf(es, k), d);
      } else {
        assert OpsOf(es', k') == OpsOf(es, k');
      }
    }
  }

  lemma SnapshotEntryMatches(es: seq<LogEntry>, m: Memory, e: LogEntry)
    requires Matches(es, m) && IsSnapshotEntry(m, e)
    ensures Matches(es + [e], m)
  {
    var es' := es + [e];
    forall x | IsNewest(es', x) ensures x.value == Visible(SlotAt(m.entries, x.key)) {
      if x != e {
        assert IsNewest(es, x);
      }
    }
    forall k | Visible(SlotAt(m.entries, k)) != Null ensures HasKey(es', k) {
      HasKeySnoc(es, e, k);
    }
  }

  /** Snapshot entries, as many as reached the disk, change nothing. */
  lemma {:induction false} SnapshotMatches(es: seq<LogEntry>, m: Memory, snap: seq<LogEntry>, exact: bool)
    requires Matches(es, m) && LogMatches(es, m, exact)
    requires forall i | 0 <= i < |snap| :: IsSnapshotEntry(m, snap[i])
    ensures Matches(es + snap, m) && LogMatches(es + snap, m, exact)
    decreases |snap|
  {
    if snap == [] {
      assert es + snap == es;
    } else {
      var n := |snap| - 1;
      SnapshotMatches(es, m, snap[..n], exact);
      SnapshotEntryMatches(es + snap[..n], m, snap[n]);
      assert es + snap[..n] + [snap[n]] == es + snap;
      forall k ensures OpsOf(es + snap, k) == OpsOf(es + snap[..n], k) {
        OpsOfSnoc(es + snap[..n], snap[n], k);
      }
    }
  }

  lemma {:induction false} OpsOfAppend(a: seq<LogEntry>, b: seq<LogEntry>, k: string)
    ensures OpsOf(a + b, k) == OpsOf(a, k) + OpsOf(b, k)
    decreases |b|
  {
    hide OpsOf;
    if b == [] {
      assert a + b == a;
      OpsOfNone(k);
    } else {
      var n := |b| - 1;
      assert a + b == (a + b[..n]) + [b[n]] && b == b[..n] + [b[n]];
      OpsOfSnoc(a + b[..n], b[n], k);
      OpsOfSnoc(b[..n], b[n], k);
      OpsOfAppend(a, b[..n], k);
    }
  }

  lemma OpsOfNone(k: string)
    ensures OpsOf([], k) == []
  {
  }

  lemma NewestOfSuffix(a: seq<Logged>, b: seq<Logged>)
    ensures IsSuffix(Newest(b, MAX_LOG), Newest(a + b, MAX_LOG))
  {
  }

  lemma SuffixTransitive(a: seq<Logged>, b: seq<Logged>, c: seq<Logged>)
    requires IsSuffix(a, b) && IsSuffix(b, c)
    ensures IsSuffix(a, c)
  {
  }

  /** Dropping the oldest entries is harmless as long as every visible key keeps one. */
  lemma DropEntries(gone: seq<LogEntry>, es: seq<LogEntry>, m: Memory)
    requires Matches(gone + es, m)
    requires forall k | Visible(SlotAt(m.entries, k)) != Null :: HasKey(es, k)
    ensures Matches(es, m)
  {
    var all := gone + es;
    forall i | 0 <= i < |es| ensures es[i] == all[|gone| + i] {
    }
    assert forall i | 0 <= i < |es| :: es[i].version <= m.version && (es[i].key in m.entries ==> es[i].version <= m.entries[es[i].key].version);
    forall x | IsNewest(es, x) ensures x.value == Visible(SlotAt(m.entries, x.key)) {
      var i :| 0 <= i < |es| && es[i] == x;
      forall y | y in all && y.key == x.key ensures y.version <= x.version {
        if y !in es {
          var j :| 0 <= j < |gone| && gone[j] == y;
          assert all[j] == y && all[|gone| + i] == x;
        }
      }
      assert IsNewest(all, x);
    }
    assert KeyMonotone(es);
    assert RisingOps(es);
  }

  lemma DropMatches(gone: seq<LogEntry>, es: seq<LogEntry>, m: Memory, exact: bool)
    requires Matches(gone + es, m) && LogMatches(gone + es, m, exact)
    requires forall k | Visible(SlotAt(m.entries, k)) != Null :: HasKey(es, k)
    ensures Matches(es, m) && LogMatches(es, m, false)
  {
    var all := gone + es;
    DropEntries(gone, es, m);
    forall k ensures IsSuffix(Newest(OpsOf(es, k), MAX_LOG), LogAt(m.log, k)) {
      OpsOfAppend(gone, es, k);
      NewestOfSuffix(OpsOf(gone, k), OpsOf(es, k));
      SuffixTransitive(Newest(OpsOf(es, k), MAX_LOG), Newest(OpsOf(all, k), MAX_LOG), LogAt(m.log, k));
    }
  }

  lemma WeakenLog(es: seq<LogEntry>, m: Memory, exact: bool)
    requires LogMatches(es, m, exact)
    ensures LogMatches(es, m, false)
  {
  }

  // ---------- reopening ----------

  lemma RecoveredCounter(es: seq<LogEntry>, mem: Memory)
    requires Recovers(es, mem)
    ensures mem.version == 0 || exists i | 0 <= i < |es| :: es[i].version == mem.version
  {
    var sorted :| IsSortOf(es, sorted) && mem == InsertAll(sorted);
    CounterIsNewest(sorted);
    if sorted != [] {
      var e :| e in sorted && mem.version == e.version;
      assert e in multiset(sorted);
      assert e in es;
    }
  }

  /** What `open` rebuilds shows every key as before, with a counter no lower than any entry. */
  lemma ReopenVisible(es: seq<LogEntry>, m: Memory, mem: Memory)
    requires Matches(es, m) && Recovers(es, mem)
    ensures SameVisible(m, mem)
    ensures forall i | 0 <= i < |es| :: es[i].version <= mem.version
    ensures forall k | k in mem.entries :: mem.entries[k].version <= mem.version
    ensures forall i | 0 <= i < |es| :: es[i].key in mem.entries && es[i].version <= mem.entries[es[i].key].version
    ensures mem.version == 0 || exists i | 0 <= i < |es| :: es[i].version == mem.version
  {
    RecoveredCounter(es, mem);
    var sorted :| IsSortOf(es, sorted) && mem == InsertAll(sorted);
    forall k ensures Visible(SlotAt(m.entries, k)) == Visible(SlotAt(mem.entries, k)) {
      InsertedEntry(sorted, k);
      SortKeepsKeys(es, sorted, k);
      if k in mem.entries {
        var e :| IsNewest(sorted, e) && e.key == k && mem.entries[k] == StateEntry(e.version, e.value);
        SortKeepsNewest(es, sorted, e);
      }
    }
    forall i | 0 <= i < |es|
      ensures es[i].version <= mem.version
      ensures es[i].key in mem.entries && es[i].version <= mem.entries[es[i].key].version
    {
      assert es[i] in multiset(es);
      assert es[i] in sorted;
      InsertedVersion(sorted, es[i]);
      var k := es[i].key;
      assert HasKey(es, k);
      SortKeepsKeys(es, sorted, k);
      InsertedEntry(sorted, k);
      var e :| IsNewest(sorted, e) && e.key == k && mem.entries[k] == StateEntry(e.version, e.value);
    }
    forall k | k in mem.entries ensures mem.entries[k].version <= mem.version {
      InsertedEntry(sorted, k);
      var e :| IsNewest(sorted, e) && e.key == k && mem.entries[k] == StateEntry(e.version, e.value);
      InsertedVersion(sorted, e);
    }
  }

  lemma ReopenMatches(es: seq<LogEntry>, m: Memory, mem: Memory)
    requires Matches(es, m) && Recovers(es, mem)
    ensures Matches(es, mem) && LogMatches(es, mem, true) && Capped(mem)
  {
    ReopenVisible(es, m, mem);
    forall k | Visible(SlotAt(mem.entries, k)) != Null ensures HasKey(es, k) {
      assert Visible(SlotAt(m.entries, k)) != Null;
    }
    var sorted :| IsSortOf(es, sorted) && mem == InsertAll(sorted);
    forall k ensures Newest(OpsOf(es, k), MAX_LOG) == LogAt(mem.log, k) {
      InsertedLog(sorted, k);
      SortKeepsOps(es, sorted, k);
    }
    forall k | k in mem.log ensures |mem.log[k]| <= MAX_LOG {
      assert LogAt(mem.log, k) == Newest(OpsOf(es, k), MAX_LOG);
    }
  }
}
