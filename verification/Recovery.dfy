/** Rebuilding the store from replayed log entries, and what those entries must satisfy. */
module Recovery {
  import opened Basics
  import opened Json
  import opened Wire
  import opened Store
  import opened Segment

  /** The store's memory: entries, version counter, per-key delta log. */
  datatype Memory = Memory(entries: map<string, StateEntry>, version: nat, log: map<string, seq<Logged>>)

  const BLANK: Memory := Memory(map[], 0, map[])

  // ---------- StateStore::open ----------

  /** One round of the rebuild loop: last write wins, ops go to the delta log. */
  function Insert(m: Memory, e: LogEntry): Memory {
    Memory(
      m.entries[e.key := StateEntry(e.version, e.value)],
      e.version,
      if e.ops == [] then m.log
      else m.log[e.key := Newest(LogAt(m.log, e.key) + [Logged(e.version, e.ops)], MAX_LOG)])
  }

  function InsertAll(es: seq<LogEntry>): Memory
    decreases |es|
  {
    if es == [] then BLANK else Insert(InsertAll(es[..|es| - 1]), es[|es| - 1])
  }

  predicate ByVersion(es: seq<LogEntry>) {
    forall i, j | 0 <= i < j < |es| :: es[i].version <= es[j].version
  }

  /** `mem` is what `open` may build from `replayed`: the sort is unstable, so ties fall either way. */
  ghost predicate Recovers(replayed: seq<LogEntry>, mem: Memory) {
    exists sorted :: IsSortOf(replayed, sorted) && mem == InsertAll(sorted)
  }

  ghost predicate IsSortOf(es: seq<LogEntry>, sorted: seq<LogEntry>) {
    multiset(es) == multiset(sorted) && ByVersion(sorted)
  }

  method SortByVersion(es: seq<LogEntry>) returns (sorted: seq<LogEntry>)
    ensures IsSortOf(es, sorted)
  {
    sorted := [];
    var i := 0;
    while i < |es|
      invariant 0 <= i <= |es|
      invariant IsSortOf(es[..i], sorted)
    {
      sorted := InsertSorted(sorted, es[i]);
      assert es[..i + 1] == es[..i] + [es[i]];
      i := i + 1;
    }
    assert es[..i] == es;
  }

  method InsertSorted(es: seq<LogEntry>, e: LogEntry) returns (r: seq<LogEntry>)
    requires ByVersion(es)
    ensures ByVersion(r) && multiset(r) == multiset(es) + multiset{e}
  {
    var n := |es|;
    while n > 0 && es[n - 1].version > e.version
      invariant 0 <= n <= |es|
      invariant forall i | n <= i < |es| :: es[i].version > e.version
    {
      n := n - 1;
    }
    r := es[..n] + [e] + es[n..];
    InsertedMultiset(es, e, n);
  }

  lemma InsertedMultiset(es: seq<LogEntry>, e: LogEntry, n: nat)
    requires n <= |es|
    ensures multiset(es[..n] + [e] + es[n..]) == multiset(es) + multiset{e}
  {
    assert es == es[..n] + es[n..];
  }

  /** The rebuild loop of `StateStore::open`. */
  method Rebuild(replayed: seq<LogEntry>) returns (mem: Memory)
    ensures Recovers(replayed, mem)
  {
    var all := SortByVersion(replayed);
    var entries: map<string, StateEntry>, log: map<string, seq<Logged>> := map[], map[];
    var maxVersion := if all == [] then 0 else all[|all| - 1].version;
    var i := 0;
    while i < |all|
      invariant 0 <= i <= |all|
      invariant entries == InsertAll(all[..i]).entries && log == InsertAll(all[..i]).log
    {
      var e := all[i];
      assert all[..i + 1][..i] == all[..i];
      entries := entries[e.key := StateEntry(e.version, e.value)];
      if e.ops != [] {
        log := log[e.key := Newest(LogAt(log, e.key) + [Logged(e.version, e.ops)], MAX_LOG)];
      }
      i := i + 1;
    }
    assert all[..i] == all;
    mem := Memory(entries, maxVersion, log);
    assert mem == InsertAll(all);
  }

  // ---------- what last-write-wins yields ----------

  ghost predicate IsNewest(es: seq<LogEntry>, e: LogEntry) {
    e in es && forall e' | e' in es && e'.key == e.key :: e'.version <= e.version
  }

  predicate HasKey(es: seq<LogEntry>, k: string) {
    exists i | 0 <= i < |es| :: es[i].key == k
  }

  lemma {:induction false} InsertedEntry(es: seq<LogEntry>, k: string)
    requires ByVersion(es)
    ensures k in InsertAll(es).entries <==> HasKey(es, k)
    ensures k in InsertAll(es).entries ==>
      exists e :: IsNewest(es, e) && e.key == k && InsertAll(es).entries[k] == StateEntry(e.version, e.value)
    decreases |es|
  {
    if es != [] {
      var n := |es| - 1;
      var front, last := es[..n], es[n];
      assert es == front + [last];
      InsertedEntry(front, k);
      if last.key == k {
        assert es[n].key == k;
        forall e' | e' in es && e'.key == last.key ensures e'.version <= last.version {
          var i :| 0 <= i < |es| && es[i] == e';
        }
        assert IsNewest(es, last);
      } else {
        assert HasKey(front, k) <==> HasKey(es, k) by {
          if i :| 0 <= i < |es| && es[i].key == k {
            assert front[i].key == k;
          }
          if i :| 0 <= i < |front| && front[i].key == k {
            assert es[i].key == k;
          }
        }
        if HasKey(front, k) {
          var e :| IsNewest(front, e) && e.key == k && InsertAll(front).entries[k] == StateEntry(e.version, e.value);
          assert IsNewest(es, e) by {
            forall e' | e' in es && e'.key == e.key ensures e'.version <= e.version {
              assert e' in front;
            }
          }
        }
      }
    }
  }

  lemma SortKeepsNewest(es: seq<LogEntry>, sorted: seq<LogEntry>, e: LogEntry)
    requires IsSortOf(es, sorted)
    ensures IsNewest(es, e) <==> IsNewest(sorted, e)
  {
    forall x ensures x in es <==> x in sorted {
      assert x in multiset(es) <==> x in multiset(sorted);
    }
  }

  lemma SortKeepsKeys(es: seq<LogEntry>, sorted: seq<LogEntry>, k: string)
    requires IsSortOf(es, sorted)
    ensures HasKey(es, k) <==> HasKey(sorted, k)
  {
    forall x ensures x in es <==> x in sorted {
      assert x in multiset(es) <==> x in multiset(sorted);
    }
    if i :| 0 <= i < |es| && es[i].key == k {
      assert es[i] in sorted;
    }
    if i :| 0 <= i < |sorted| && sorted[i].key == k {
      assert sorted[i] in es;
    }
  }

  lemma {:induction false} InsertedVersion(es: seq<LogEntry>, e: LogEntry)
    requires ByVersion(es) && e in es
    ensures e.version <= InsertAll(es).version
  {
    var i :| 0 <= i < |es| && es[i] == e;
  }

  /** The counter is that of some entry, and no entry is newer. */
  lemma CounterIsNewest(es: seq<LogEntry>)
    requires ByVersion(es)
    ensures if es == [] then InsertAll(es).version == 0
            else (exists e :: e in es && InsertAll(es).version == e.version) && forall e | e in es :: e.version <= InsertAll(es).version
  {
    if es != [] {
      assert es[|es| - 1] in es;
      forall e | e in es ensures e.version <= InsertAll(es).version {
        InsertedVersion(es, e);
      }
    }
  }

  // ---------- the rebuilt delta log ----------

  /** The deltas a run of entries holds for one key. */
  function OpsOf(es: seq<LogEntry>, k: string): seq<Logged>
    decreases |es|
  {
    if es == [] then []
    else
      var e := es[|es| - 1];
      OpsOf(es[..|es| - 1], k) + (if e.key == k && e.ops != [] then [Logged(e.version, e.ops)] else [])
  }

  lemma {:induction false} InsertedLog(es: seq<LogEntry>, k: string)
    ensures LogAt(InsertAll(es).log, k) == Newest(OpsOf(es, k), MAX_LOG)
    decreases |es|
  {
    if es != [] {
      var n := |es| - 1;
      InsertedLog(es[..n], k);
      var old_, d := OpsOf(es[..n], k), Logged(es[n].version, es[n].ops);
      if es[n].key == k && es[n].ops != [] {
        NewestSnoc(old_, d);
      }
    }
  }

  lemma NewestSnoc(s: seq<Logged>, d: Logged)
    ensures Newest(Newest(s, MAX_LOG) + [d], MAX_LOG) == Newest(s + [d], MAX_LOG)
  {
    if |s| > MAX_LOG {
      assert Newest(s, MAX_LOG) + [d] == (s + [d])[|s| - MAX_LOG..];
    }
  }

  /** Deltas of one key carry distinct, rising versions in log order. */
  predicate RisingOps(es: seq<LogEntry>) {
    forall i, j | 0 <= i < j < |es| && es[i].key == es[j].key && es[i].ops != [] && es[j].ops != [] ::
      es[i].version < es[j].version
  }

  lemma {:induction false} OpsOfMembers(es: seq<LogEntry>, k: string, d: Logged)
    ensures d in OpsOf(es, k) <==>
      exists i | 0 <= i < |es| :: es[i].key == k && es[i].ops != [] && d == Logged(es[i].version, es[i].ops)
    decreases |es|
  {
    if es != [] {
      var n := |es| - 1;
      OpsOfMembers(es[..n], k, d);
      if d in OpsOf(es[..n], k) {
        var i :| 0 <= i < n && es[..n][i].key == k && es[..n][i].ops != [] && d == Logged(es[..n][i].version, es[..n][i].ops);
        assert es[i].key == k;
      }
      if i :| 0 <= i < |es| && es[i].key == k && es[i].ops != [] && d == Logged(es[i].version, es[i].ops) {
        if i < n {
          assert es[..n][i].key == k;
        }
      }
    }
  }

  lemma {:induction false} OpsOfRising(es: seq<LogEntry>, k: string)
    requires RisingOps(es)
    ensures Ascending(OpsOf(es, k))
    decreases |es|
  {
    if es != [] {
      var n := |es| - 1;
      OpsOfRising(es[..n], k);
      forall d | d in OpsOf(es[..n], k) && es[n].key == k && es[n].ops != [] ensures d.version < es[n].version {
        OpsOfMembers(es[..n], k, d);
        var i :| 0 <= i < n && es[..n][i].key == k && es[..n][i].ops != [] && d == Logged(es[..n][i].version, es[..n][i].ops);
        assert es[i] == es[..n][i];
      }
    }
  }

  lemma AscendingLast(a: seq<Logged>, d: Logged)
    requires Ascending(a) && d in a
    ensures d == a[|a| - 1] || d.version < a[|a| - 1].version
  {
    var i :| 0 <= i < |a| && a[i] == d;
  }

  lemma AscendingFront(a: seq<Logged>, d: Logged)
    requires Ascending(a) && a != []
    ensures d in a[..|a| - 1] <==> d in a && d.version < a[|a| - 1].version
  {
    if d in a {
      AscendingLast(a, d);
      var i :| 0 <= i < |a| && a[i] == d;
    }
  }

  lemma EmptyTogether(a: seq<Logged>, b: seq<Logged>)
    requires forall d :: d in a <==> d in b
    ensures a == [] <==> b == []
  {
    assert forall i | 0 <= i < |a| :: a[i] in b;
    assert forall i | 0 <= i < |b| :: b[i] in a;
    assert |a| > 0 ==> a[0] in b;
    assert |b| > 0 ==> b[0] in a;
  }

  /** Two rising sequences with the same members are equal. */
  lemma {:induction false} AscendingUnique(a: seq<Logged>, b: seq<Logged>)
    requires Ascending(a) && Ascending(b)
    requires forall d :: d in a <==> d in b
    ensures a == b
    decreases |a|
  {
    if a == [] || b == [] {
      EmptyTogether(a, b);
    } else {
      var x, y := a[|a| - 1], b[|b| - 1];
      assert x in b && y in a;
      AscendingLast(b, x);
      AscendingLast(a, y);
      var a', b' := a[..|a| - 1], b[..|b| - 1];
      forall d ensures d in a' <==> d in b' {
        AscendingFront(a, d);
        AscendingFront(b, d);
      }
      AscendingUnique(a', b');
      assert a == a' + [x] && b == b' + [y];
    }
  }

  /** Sorting by version leaves each key's deltas in log order. */
  lemma SortKeepsOps(es: seq<LogEntry>, sorted: seq<LogEntry>, k: string)
    requires IsSortOf(es, sorted) && RisingOps(es)
    ensures OpsOf(sorted, k) == OpsOf(es, k)
  {
    forall x ensures x in es <==> x in sorted {
      assert x in multiset(es) <==> x in multiset(sorted);
    }
    SortedRising(es, sorted);
    OpsOfRising(es, k);
    OpsOfRising(sorted, k);
    forall d ensures d in OpsOf(sorted, k) <==> d in OpsOf(es, k) {
      OpsOfMembers(es, k, d);
      OpsOfMembers(sorted, k, d);
      if i :| 0 <= i < |es| && es[i].key == k && es[i].ops != [] && d == Logged(es[i].version, es[i].ops) {
        assert es[i] in sorted;
      }
      if i :| 0 <= i < |sorted| && sorted[i].key == k && sorted[i].ops != [] && d == Logged(sorted[i].version, sorted[i].ops) {
        assert sorted[i] in es;
      }
    }
    AscendingUnique(OpsOf(sorted, k), OpsOf(es, k));
  }

  lemma SortedRising(es: seq<LogEntry>, sorted: seq<LogEntry>)
    requires IsSortOf(es, sorted) && RisingOps(es)
    ensures RisingOps(sorted)
  {
    forall i, j | 0 <= i < j < |sorted| && sorted[i].key == sorted[j].key && sorted[i].ops != [] && sorted[j].ops != []
      ensures sorted[i].version < sorted[j].version
    {
      DistinctPositions(es, sorted, i, j);
    }
  }

  /** Two places of the sorted sequence come from two places of the original. */
  lemma DistinctPositions(es: seq<LogEntry>, sorted: seq<LogEntry>, i: nat, j: nat)
    requires IsSortOf(es, sorted) && RisingOps(es)
    requires i < j < |sorted| && sorted[i].key == sorted[j].key && sorted[i].ops != [] && sorted[j].ops != []
    ensures sorted[i].version < sorted[j].version
  {
    var x, y := sorted[i], sorted[j];
    assert x.version <= y.version;
    assert x in multiset(sorted) && y in multiset(sorted);
    assert x in multiset(es) && y in multiset(es);
    if x != y {
      var p :| 0 <= p < |es| && es[p] == x;
      var q :| 0 <= q < |es| && es[q] == y;
    } else {
      TwoOccurrences(sorted, i, j);
      assert multiset(es)[x] >= 2;
      var p, q := FindTwo(es, x);
      assert false;
    }
  }

  lemma TwoOccurrences(s: seq<LogEntry>, i: nat, j: nat)
    requires i < j < |s| && s[i] == s[j]
    ensures multiset(s)[s[i]] >= 2
  {
    assert s == s[..i] + [s[i]] + s[i + 1..j] + [s[j]] + s[j + 1..];
  }

  lemma {:induction false} FindTwo(s: seq<LogEntry>, x: LogEntry) returns (p: nat, q: nat)
    requires multiset(s)[x] >= 2
    ensures p < q < |s| && s[p] == x && s[q] == x
    decreases |s|
  {
    var n := |s| - 1;
    assert s == s[..n] + [s[n]];
    if s[n] == x {
      assert multiset(s[..n])[x] >= 1;
      assert x in s[..n];
      p :| 0 <= p < n && s[p] == x;
      q := n;
    } else {
      p, q := FindTwo(s[..n], x);
    }
  }
}
