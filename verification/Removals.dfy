/** Failed removals: a compaction goes on when a file cannot be removed. Exactly which old
    segments may stay behind without a deleted key coming back. */
module Removals {
  import opened Basics
  import opened Json
  import opened Delta
  import opened Store
  import opened Segment
  import opened Recovery
  import opened Matching
  import opened DurableLog

  type Segments = map<nat, seq<LogEntry>>

  /** Removing `gone` out of the old segments `olds` keeps every visible value, whatever the
      segments hold and whatever `open` may rebuild. */
  ghost predicate KeepsVisible(olds: set<nat>, gone: set<nat>, snapSeg: nat) {
    forall segs: Segments, m: Memory, mem: Memory ::
      segs.Keys == olds + {snapSeg} && Matches(Records(segs, snapSeg + 1), m) && IsSnapshot(m, segs[snapSeg])
      && Recovers(Records(segs - gone, snapSeg + 1), mem)
      ==> SameVisible(m, mem)
  }

  /** Whatever is removed, every older segment is removed too. */
  predicate OldestFirst(olds: set<nat>, gone: set<nat>) {
    forall i, j | i in olds && j in gone && i < j :: i in gone
  }

  /** Removing the oldest segments drops the oldest records. */
  lemma {:induction false} DropsOldest(segs: Segments, olds: set<nat>, gone: set<nat>, snapSeg: nat, n: nat) returns (pre: seq<LogEntry>)
    requires segs.Keys == olds + {snapSeg} && gone <= olds && OldestFirst(olds, gone)
    requires (forall i | i in olds :: i < snapSeg) && n <= snapSeg + 1
    ensures Records(segs, n) == pre + Records(segs - gone, n)
    decreases n
  {
    if n == 0 {
      pre := [];
    } else if n - 1 in gone {
      pre := Records(segs, n);
      NoRecords(segs - gone, n);
    } else {
      pre := DropsOldest(segs, olds, gone, snapSeg, n - 1);
    }
  }

  lemma SnapshotStays(segs: Segments, gone: set<nat>, snapSeg: nat, m: Memory, k: string)
    requires snapSeg in segs && snapSeg !in gone && IsSnapshot(m, segs[snapSeg]) && Visible(SlotAt(m.entries, k)) != Null
    ensures HasKey(Records(segs - gone, snapSeg + 1), k)
  {
    RecordsHaveKey(segs - gone, snapSeg, snapSeg + 1, k);
  }

  // ---------- a delete record that goes before its write ----------

  const WRITTEN: LogEntry := LogEntry(1, "k", [Add("/", Bool(true))], Bool(true))
  const DELETED: LogEntry := LogEntry(2, "k", [Remove("/")], Null)

  /** Segment `i` holds the write of "k", segment `j` its delete. */
  function WriteThenDelete(keys: set<nat>, i: nat, j: nat): (segs: Segments)
    ensures segs.Keys == keys
  {
    map n | n in keys :: if n == i then [WRITTEN] else if n == j then [DELETED] else []
  }

  lemma {:induction false} TheirRecords(keys: set<nat>, i: nat, j: nat, gone: set<nat>, n: nat)
    requires i < j
    ensures Records(WriteThenDelete(keys, i, j) - gone, n)
         == (if i < n && i in keys - gone then [WRITTEN] else []) + (if j < n && j in keys - gone then [DELETED] else [])
    decreases n
  {
    if n > 0 {
      TheirRecords(keys, i, j, gone, n - 1);
    }
  }

  lemma ComesBack(olds: set<nat>, gone: set<nat>, snapSeg: nat, i: nat, j: nat)
    requires gone <= olds && i in olds && i !in gone && j in gone && i < j && forall x | x in olds :: x < snapSeg
    ensures !KeepsVisible(olds, gone, snapSeg)
  {
    hide Matches, Recovers, Records, IsSnapshot, SameVisible, InsertAll, WriteThenDelete;
    var keys := olds + {snapSeg};
    var segs := WriteThenDelete(keys, i, j);
    TheirRecords(keys, i, j, {}, snapSeg + 1);
    assert segs - {} == segs;
    TheirRecords(keys, i, j, gone, snapSeg + 1);
    assert [WRITTEN] + [] == [WRITTEN];
    var m := Memory(map[], 2, map[]);
    DeletedMatches(m);
    SnapshotEmpty(keys, i, j, snapSeg);
    var mem := WrittenRecovers(m);
    assert Records(segs - gone, snapSeg + 1) == [WRITTEN];
  }

  lemma SnapshotEmpty(keys: set<nat>, i: nat, j: nat, s: nat)
    requires s in keys && s != i && s != j
    ensures WriteThenDelete(keys, i, j)[s] == []
  {
  }

  lemma WrittenRecovers(m: Memory) returns (mem: Memory)
    requires m == Memory(map[], 2, map[])
    ensures Recovers([WRITTEN], mem) && !SameVisible(m, mem)
  {
    mem := InsertAll([WRITTEN]);
    assert [WRITTEN][..0] == [];
    assert mem.entries["k"] == StateEntry(1, Bool(true));
    assert IsSortOf([WRITTEN], [WRITTEN]);
    assert Visible(SlotAt(mem.entries, "k")) != Visible(SlotAt(m.entries, "k"));
  }

  lemma DeletedMatches(m: Memory)
    requires m == Memory(map[], 2, map[])
    ensures Matches([WRITTEN] + [DELETED], m) && IsSnapshot(m, [])
  {
    var es := [WRITTEN] + [DELETED];
    forall e | IsNewest(es, e) ensures e.value == Null {
      assert DELETED in es;
    }
  }

  /** The removals may fail for some segments: every visible value stays exactly when no segment
      goes while an older one stays. */
  lemma FailedRemovalsExact(olds: set<nat>, gone: set<nat>, snapSeg: nat)
    requires gone <= olds && forall x | x in olds :: x < snapSeg
    ensures KeepsVisible(olds, gone, snapSeg) <==> OldestFirst(olds, gone)
  {
    hide Matches, Recovers, Records, IsSnapshot, SameVisible;
    if OldestFirst(olds, gone) {
      forall segs: Segments, m: Memory, mem: Memory
        | segs.Keys == olds + {snapSeg} && Matches(Records(segs, snapSeg + 1), m) && IsSnapshot(m, segs[snapSeg])
          && Recovers(Records(segs - gone, snapSeg + 1), mem)
        ensures SameVisible(m, mem)
      {
        var left := Records(segs - gone, snapSeg + 1);
        var pre := DropsOldest(segs, olds, gone, snapSeg, snapSeg + 1);
        forall k | Visible(SlotAt(m.entries, k)) != Null ensures HasKey(left, k) {
          SnapshotStays(segs, gone, snapSeg, m, k);
        }
        DropEntries(pre, left, m);
        ReopenVisible(left, m, mem);
      }
    } else {
      var i, j :| i in olds && j in gone && i < j && i !in gone;
      ComesBack(olds, gone, snapSeg, i, j);
    }
  }
}
