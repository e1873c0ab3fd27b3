/** The store in persistent mode: a change is applied in memory, its record appended, and the log
    compacted when it has too many segments. */
module Persist {
  import opened Basics
  import opened Json
  import opened Wire
  import opened Store
  import opened Segment
  import opened Recovery
  import opened Matching
  import opened DurableLog
  import opened SegLog

  ghost function MemoryOf(store: StateStore): Memory
    reads store
  {
    Memory(store.entries, store.globalVersion, store.log)
  }

  /** Every live key would fit into a record. */
  predicate Snappable(c: Codec, m: Memory) {
    forall k | k in m.entries :: Fits(c, LogEntry(m.entries[k].version, k, [], m.entries[k].value))
  }

  /** The records on disk stand for the memory. */
  ghost predicate Backed(c: Codec, m: Memory, disk: Disk, cur: nat) {
    var es := OnDisk(c, disk, cur + 1);
    Matches(es, m) && LogMatches(es, m, false) && Capped(m) && Snappable(c, m)
  }

  // ---------- compact_plog ----------

  /** One entry per live key, in any order. */
  method Snapshot(entries: map<string, StateEntry>) returns (snap: seq<LogEntry>)
    ensures |snap| == |entries| && forall m: Memory | m.entries == entries :: IsSnapshot(m, snap)
  {
    snap := [];
    var todo := entries.Keys;
    while todo != {}
      invariant todo <= entries.Keys && |snap| + |todo| == |entries.Keys|
      invariant forall i | 0 <= i < |snap| ::
        snap[i].key in entries && snap[i] == LogEntry(entries[snap[i].key].version, snap[i].key, [], entries[snap[i].key].value)
      invariant forall k | k in entries && k !in todo :: HasKey(snap, k)
      decreases todo
    {
      var k :| k in todo;
      todo := todo - {k};
      var e := LogEntry(entries[k].version, k, [], entries[k].value);
      forall j | j in entries && j !in todo ensures HasKey(snap + [e], j) {
        HasKeySnoc(snap, e, j);
      }
      snap := snap + [e];
    }
  }

  /** A compacted directory replays to the snapshot. */
  lemma CompactedRecords(c: Codec, snap: seq<LogEntry>, cur: nat)
    requires Lossless(c) && AllFit(c, snap) && 0 < cur
    ensures OnDisk(c, map[cur - 1 := EncodeAll(c, snap), cur := []], cur + 1) == snap
  {
    hide EncodeAll, Lossless;
    var disk := map[cur - 1 := EncodeAll(c, snap), cur := []];
    var v := View(c, disk);
    CleanTail(c, snap);
    assert v[cur] == [];
    NoRecords(v, cur - 1);
    assert Records(v, cur) == Records(v, cur - 1) + snap;
    assert Records(v, cur + 1) == Records(v, cur) + [];
  }

  lemma SnapshotFits(c: Codec, m: Memory, snap: seq<LogEntry>)
    requires Snappable(c, m) && IsSnapshot(m, snap)
    ensures AllFit(c, snap)
  {
  }

  /** Replacing the records by a snapshot keeps them standing for the memory. */
  lemma SnapshotBacks(c: Codec, m: Memory, es: seq<LogEntry>, snap: seq<LogEntry>)
    requires Matches(es, m) && LogMatches(es, m, false) && IsSnapshot(m, snap)
    ensures Matches(snap, m) && LogMatches(snap, m, false)
  {
    hide Matches, LogMatches;
    SnapshotMatches(es, m, snap, false);
    DropMatches(es, snap, m, false);
  }

  method CompactLog(c: Codec, store: StateStore, log: SegmentedLog)
    requires Lossless(c) && log.Valid(c) && Backed(c, MemoryOf(store), log.disk, log.cur)
    modifies log
    ensures log.Valid(c) && Backed(c, MemoryOf(store), log.disk, log.cur) && log.segCount == 2
    ensures IsSnapshot(MemoryOf(store), OnDisk(c, log.disk, log.cur + 1))
  {
    hide Matches, LogMatches, Capped, Snappable, IsSnapshot, Lossless, EncodeAll, OnDisk;
    ghost var m, es := MemoryOf(store), OnDisk(c, log.disk, log.cur + 1);
    var snap := Snapshot(store.entries);
    SnapshotFits(c, m, snap);
    SnapshotBacks(c, m, es, snap);
    ghost var olds := log.Compact(c, snap);
    CompactedRecords(c, snap, log.cur);
  }

  // ---------- apply and delete ----------

  /** Append the record of a change already made in memory, and compact if need be. */
  method LogChange(c: Codec, store: StateStore, log: SegmentedLog, e: LogEntry, ghost was: Memory, ghost t: Slot)
    requires Lossless(c) && log.Valid(c) && Backed(c, was, log.disk, log.cur) && Fits(c, e) && e.ops != []
    requires e == EntryFor(was, e.key, t, e.ops) && MemoryOf(store) == Mutated(was, e.key, t, e.ops) && Snappable(c, MemoryOf(store))
    modifies log
    ensures log.Valid(c) && Backed(c, MemoryOf(store), log.disk, log.cur) && log.segCount <= MAX_SEGMENTS
    ensures OnDisk(c, log.disk, log.cur + 1) == old(OnDisk(c, log.disk, log.cur + 1)) + [e]
         || IsSnapshot(MemoryOf(store), OnDisk(c, log.disk, log.cur + 1))
    ensures old(log.segCount) < MAX_SEGMENTS ==> OnDisk(c, log.disk, log.cur + 1) == old(OnDisk(c, log.disk, log.cur + 1)) + [e]
  {
    hide Matches, LogMatches, Capped, Snappable, IsSnapshot, Lossless, OnDisk, Mutated, EntryFor, Fits, Encode, Extended;
    ghost var es := OnDisk(c, log.disk, log.cur + 1);
    WriteMatches(es, was, e.key, t, e.ops);
    WriteLogMatches(es, was, e.key, t, e.ops, false);
    log.Append(c, e);
    if log.segCount > MAX_SEGMENTS {
      CompactLog(c, store, log);
    }
  }

  /** The record of writing `value` fits, in whatever order the differ lists the ops, and so does the
      key's snapshot entry. */
  ghost predicate Writable(c: Codec, m: Memory, key: string, value: Value) {
    && Fits(c, LogEntry(m.version + 1, key, [], value))
    && forall ops | IsWireDelta(SlotAt(m.entries, key), Present(value), ops) :: Fits(c, EntryFor(m, key, Present(value), ops))
  }

  lemma MutatedSnappable(c: Codec, m: Memory, key: string, t: Slot, ops: seq<WOp>)
    requires Snappable(c, m) && (t.Present? ==> Fits(c, LogEntry(m.version + 1, key, [], t.value)))
    ensures Snappable(c, Mutated(m, key, t, ops))
  {
  }

  /** `apply`: memory takes the write, only versions moving if it changes nothing; the log then stands
      for the new memory and rests with at most `MAX_SEGMENTS` segments. */
  method Apply(c: Codec, store: StateStore, log: SegmentedLog, key: string, value: Value) returns (version: nat, ops: seq<WOp>)
    requires Lossless(c) && store.Valid() && log.Valid(c)
    requires Backed(c, MemoryOf(store), log.disk, log.cur) && Writable(c, MemoryOf(store), key, value)
    modifies store, log
    ensures store.Valid() && log.Valid(c) && Backed(c, MemoryOf(store), log.disk, log.cur)
    ensures version == old(store.globalVersion) + 1
    ensures if ops == [] then key in old(store.entries) && MemoryOf(store) == Touched(old(MemoryOf(store)), key)
                              && log.disk == old(log.disk) && log.cur == old(log.cur)
            else MemoryOf(store) == Mutated(old(MemoryOf(store)), key, Present(value), ops) && log.segCount <= MAX_SEGMENTS
  {
    hide Matches, LogMatches, Capped, Snappable, IsSnapshot, Lossless, OnDisk, Fits, IsWireDelta, StateStore.Valid, SegmentedLog.Valid;
    ghost var was := MemoryOf(store);
    version, ops := store.Apply(key, value);
    if ops == [] {
      TouchMatches(OnDisk(c, log.disk, log.cur + 1), was, key, false);
      TouchedSnappable(c, was, key);
    } else {
      MutatedSnappable(c, was, key, Present(value), ops);
      LogChange(c, store, log, LogEntry(version, key, ops, value), was, Present(value));
    }
  }

  lemma TouchedSnappable(c: Codec, m: Memory, key: string)
    requires Snappable(c, m) && key in m.entries && Fits(c, LogEntry(m.version + 1, key, [], m.entries[key].value))
    ensures Snappable(c, Touched(m, key))
  {
  }

  /** `delete`: nothing for an absent key; otherwise the key goes, and a null record is logged. */
  method Delete(c: Codec, store: StateStore, log: SegmentedLog, key: string) returns (r: Option<Logged>)
    requires Lossless(c) && store.Valid() && log.Valid(c) && Backed(c, MemoryOf(store), log.disk, log.cur)
    requires Fits(c, EntryFor(MemoryOf(store), key, Absent, [Delta.Remove("/")]))
    modifies store, log
    ensures store.Valid() && log.Valid(c) && Backed(c, MemoryOf(store), log.disk, log.cur)
    ensures r.None? <==> key !in old(store.entries)
    ensures r.None? ==> MemoryOf(store) == old(MemoryOf(store)) && log.disk == old(log.disk) && log.cur == old(log.cur)
    ensures r.Some? ==> MemoryOf(store) == Mutated(old(MemoryOf(store)), key, Absent, r.value.ops) && log.segCount <= MAX_SEGMENTS
  {
    hide Matches, LogMatches, Capped, Snappable, IsSnapshot, Lossless, OnDisk, Fits, IsWireDelta, StateStore.Valid, SegmentedLog.Valid;
    ghost var was := MemoryOf(store);
    r := store.Delete(key);
    if r.Some? {
      MutatedSnappable(c, was, key, Absent, r.value.ops);
      LogChange(c, store, log, LogEntry(r.value.version, key, r.value.ops, Null), was, Absent);
    }
  }

  /** After any such call, whatever a restart rebuilds shows every key as memory had it. */
  lemma RestartShowsMemory(c: Codec, m: Memory, disk: Disk, cur: nat, mem: Memory)
    requires Backed(c, m, disk, cur) && Recovers(OnDisk(c, disk, cur + 1), mem)
    ensures SameVisible(m, mem) && forall k :: IsSuffix(LogAt(mem.log, k), LogAt(m.log, k))
  {
    hide Matches, Recovers, OnDisk, Snappable;
    var es := OnDisk(c, disk, cur + 1);
    ReopenVisible(es, m, mem);
    ReopenMatches(es, m, mem);
    forall k ensures IsSuffix(LogAt(mem.log, k), LogAt(m.log, k)) {
      assert Newest(OpsOf(es, k), MAX_LOG) == LogAt(mem.log, k);
    }
  }

  /** A new store with an empty log. */
  lemma NewStoreBacked(c: Codec)
    ensures Backed(c, BLANK, map[0 := []], 0)
  {
    var disk: Disk := map[0 := []];
    assert View(c, disk)[0] == [];
    assert Records(View(c, disk), 1) == [] + [];
    assert forall k :: OpsOf([], k) == [];
  }
}
