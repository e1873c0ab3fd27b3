/** The segmented log's own methods, call by call on the directory. */
module SegLog {
  import opened Basics
  import opened Json
  import opened Wire
  import opened Segment
  import opened Recovery
  import opened DurableLog

  // ---------- listing ----------

  lemma {:induction false} LeastOf(s: set<nat>) returns (m: nat)
    requires s != {}
    ensures m in s && forall n | n in s :: m <= n
    decreases |s|
  {
    var x :| x in s;
    if s == {x} {
      m := x;
    } else {
      var rest := s - {x};
      assert s == rest + {x};
      m := LeastOf(rest);
      if x < m {
        m := x;
      }
    }
  }

  predicate StrictlyAscending(s: seq<nat>) {
    forall i, j | 0 <= i < j < |s| :: s[i] < s[j]
  }

  /** The segment numbers on disk, ascending. */
  ghost predicate IsListing(s: seq<nat>, disk: Disk) {
    StrictlyAscending(s) && (forall n :: n in s <==> n in disk)
  }

  /** `list_segments` */
  method ListSegments(disk: Disk) returns (s: seq<nat>)
    ensures IsListing(s, disk) && |s| == |disk|
  {
    s := [];
    var todo := disk.Keys;
    while todo != {}
      invariant todo <= disk.Keys && StrictlyAscending(s)
      invariant forall n :: n in s <==> n in disk.Keys - todo
      invariant forall i, n | 0 <= i < |s| && n in todo :: s[i] < n
      invariant |s| + |todo| == |disk|
      decreases todo
    {
      ghost var least := LeastOf(todo);
      var m :| m in todo && forall n | n in todo :: m <= n;
      s := s + [m];
      todo := todo - {m};
    }
  }

  lemma {:induction false} RecordsGap(segs: map<nat, seq<LogEntry>>, a: nat, b: nat)
    requires a <= b && forall n | a <= n < b :: n !in segs
    ensures Records(segs, b) == Records(segs, a)
    decreases b
  {
    if a < b {
      RecordsGap(segs, a, b - 1);
    }
  }

  // ---------- the log ----------

  /** Directory states of a compaction, one per file-system call: create the snapshot
      segment, write it, create the live segment, then remove `olds` in order. */
  function CompactionTrail(disk: Disk, cur: nat, bytes: seq<Byte>, olds: seq<nat>): (r: seq<Disk>)
    ensures |r| == 3 + |olds|
  {
    var created := disk[cur + 1 := []];
    var written := created[cur + 1 := bytes];
    var live := written[cur + 2 := []];
    [created, written, live] + RemovalTrail(live, olds)
  }

  function SetOf(s: seq<nat>): set<nat> {
    set n | n in s
  }

  lemma SetOfSnoc(s: seq<nat>, n: nat)
    ensures SetOf(s + [n]) == SetOf(s) + {n}
  {
  }

  function RemovalTrail(disk: Disk, olds: seq<nat>): (r: seq<Disk>)
    ensures |r| == |olds|
    decreases |olds|
  {
    if olds == [] then []
    else RemovalTrail(disk, olds[..|olds| - 1]) + [disk - SetOf(olds)]
  }

  lemma LiveOnly(disk: Disk, cur: nat, bytes: seq<Byte>, olds: seq<nat>)
    requires (forall n | n in disk :: n <= cur) && IsListing(olds, disk)
    ensures disk[cur + 1 := []][cur + 1 := bytes][cur + 2 := []] - SetOf(olds)
         == map[cur + 1 := bytes, cur + 2 := []]
  {
  }

  class SegmentedLog {
    var disk: Disk
    var cur: nat
    var count: nat
    var segCount: nat
    /** The directory after each file-system call so far. */
    ghost var trail: seq<Disk>

    ghost predicate Valid(c: Codec)
      reads this
    {
      && cur in disk && (forall n | n in disk :: n <= cur)
      && (forall n | n in disk :: Intact(c, disk[n]))
    }

    constructor (d: Disk, n: nat, entries: nat, segments: nat)
      ensures disk == d && cur == n && count == entries && segCount == segments && trail == []
    {
      disk, cur, count, segCount, trail := d, n, entries, segments, [];
    }

    /** `create_new(true)`: fails if the file exists, which callers rule out. */
    method CreateFile(n: nat)
      requires n !in disk
      modifies this`disk, this`trail
      ensures disk == old(disk)[n := []] && trail == old(trail) + [disk]
    {
      disk := disk[n := []];
      trail := trail + [disk];
    }

    method WriteFile(n: nat, bytes: seq<Byte>)
      requires n in disk
      modifies this`disk, this`trail
      ensures disk == Extended(old(disk), n, bytes) && trail == old(trail) + [disk]
    {
      disk := disk[n := disk[n] + bytes];
      trail := trail + [disk];
    }

    method RemoveFile(n: nat)
      modifies this`disk, this`trail
      ensures disk == old(disk) - {n} && trail == old(trail) + [disk]
    {
      disk := disk - {n};
      trail := trail + [disk];
    }

    /** `rotate`: the next segment number is always free. */
    method Rotate(ghost c: Codec)
      requires Valid(c)
      modifies this
      ensures Valid(c) && cur == old(cur) + 1 && count == 0 && segCount == old(segCount) + 1
      ensures disk == old(disk)[cur := []] && trail == old(trail) + [disk]
      ensures OnDisk(c, disk, cur + 1) == OnDisk(c, old(disk), old(cur) + 1)
    {
      hide Scan, EncodeAll, Records, OnDisk, Intact;
      CreateRecords(c, disk, cur);
      cur := cur + 1;
      CreateFile(cur);
      count := 0;
      segCount := segCount + 1;
      EmptyIntact(c);
    }

    /** `write_entry` to the current segment. */
    method WriteEntry(c: Codec, e: LogEntry)
      requires Lossless(c) && Valid(c) && Fits(c, e)
      modifies this
      ensures Valid(c) && cur == old(cur) && count == old(count) + 1 && segCount == old(segCount)
      ensures OnDisk(c, disk, cur + 1) == OnDisk(c, old(disk), cur + 1) + [e]
      ensures disk == Extended(old(disk), cur, Encode(c, e)) && trail == old(trail) + [disk]
    {
      hide Scan, EncodeAll, Encode, Records, OnDisk, Intact, Lossless;
      AppendedOne(c, disk, cur, e);
      WriteFile(cur, Encode(c, e));
      count := count + 1;
    }

    /** `append`: rotate a full segment first, then write one record. */
    method Append(c: Codec, e: LogEntry)
      requires Lossless(c) && Valid(c) && Fits(c, e)
      modifies this
      ensures Valid(c)
      ensures OnDisk(c, disk, cur + 1) == OnDisk(c, old(disk), old(cur) + 1) + [e]
      ensures if old(count) >= MAX_ENTRIES
              then cur == old(cur) + 1 && count == 1 && segCount == old(segCount) + 1
                   && trail == old(trail) + [old(disk)[cur := []], disk] && disk == old(disk)[cur := Encode(c, e)]
              else cur == old(cur) && count == old(count) + 1 && segCount == old(segCount)
                   && trail == old(trail) + [disk] && cur in old(disk) && disk == Extended(old(disk), cur, Encode(c, e))
    {
      hide Scan, EncodeAll, Encode, Records, OnDisk, Intact, Lossless;
      if count >= MAX_ENTRIES {
        Rotate(c);
      }
      assert [] + Encode(c, e) == Encode(c, e);
      WriteEntry(c, e);
    }

    /** First half of `compact`: the snapshot segment and, after it, a fresh live one. */
    method WriteSnapshot(c: Codec, snapshot: seq<LogEntry>)
      requires AllFit(c, snapshot) && forall n | n in disk :: n <= cur
      modifies this
      ensures cur == old(cur) + 2 && count == 0 && segCount == 2
      ensures var bytes := EncodeAll(c, snapshot);
        && disk == old(disk)[cur - 1 := []][cur - 1 := bytes][cur := []]
        && trail == old(trail) + [old(disk)[cur - 1 := []], old(disk)[cur - 1 := []][cur - 1 := bytes], disk]
    {
      hide EncodeAll, Encode;
      var bytes := Encoded(c, snapshot);
      cur := cur + 1;
      CreateFile(cur);
      WriteFile(cur, bytes);
      assert [] + bytes == bytes;
      cur := cur + 1;
      CreateFile(cur);
      count := 0;
      segCount := 2;
    }

    /** `compact`: replaces every existing segment by one snapshot segment and an empty live one. */
    method Compact(c: Codec, snapshot: seq<LogEntry>) returns (ghost olds: seq<nat>)
      requires Lossless(c) && Valid(c) && AllFit(c, snapshot)
      modifies this
      ensures Valid(c) && cur == old(cur) + 2 && count == 0 && segCount == 2
      ensures disk == map[cur - 1 := EncodeAll(c, snapshot), cur := []]
      ensures IsListing(olds, old(disk))
      ensures trail == old(trail) + CompactionTrail(old(disk), old(cur), EncodeAll(c, snapshot), olds)
    {
      hide Scan, EncodeAll, Encode, Intact, Lossless, RemovalTrail, IsListing;
      var segs := ListSegments(disk);
      olds := segs;
      LiveOnly(disk, cur, EncodeAll(c, snapshot), segs);
      SnapshotIntact(c, snapshot);
      WriteSnapshot(c, snapshot);
      RemoveAll(segs);
    }

    /** The snapshot writer's buffer. */
    method Encoded(c: Codec, es: seq<LogEntry>) returns (b: seq<Byte>)
      requires AllFit(c, es)
      ensures b == EncodeAll(c, es)
    {
      b := [];
      var i := 0;
      assert es[..0] == [];
      while i < |es|
        invariant 0 <= i <= |es|
        invariant AllFit(c, es[..i]) && b == EncodeAll(c, es[..i])
      {
        EncodeSnoc(c, es[..i], es[i]);
        assert es[..i] + [es[i]] == es[..i + 1];
        b := b + Encode(c, es[i]);
        i := i + 1;
      }
      assert es[..i] == es;
    }

    /** Remove the listed segments in order. */
    method RemoveAll(olds: seq<nat>)
      modifies this`disk, this`trail
      ensures disk == old(disk) - SetOf(olds)
      ensures trail == old(trail) + RemovalTrail(old(disk), olds)
    {
      var i := 0;
      ghost var d := disk;
      ghost var t := trail;
      assert d - SetOf(olds[..0]) == d;
      while i < |olds|
        invariant 0 <= i <= |olds|
        invariant disk == d - SetOf(olds[..i])
        invariant trail == t + RemovalTrail(d, olds[..i])
      {
        assert olds[..i + 1] == olds[..i] + [olds[i]];
        SetOfSnoc(olds[..i], olds[i]);
        RemoveFile(olds[i]);
        assert olds[..i + 1][..i] == olds[..i];
        i := i + 1;
      }
      assert olds[..i] == olds;
    }
  }

  lemma EmptyIntact(c: Codec)
    ensures Intact(c, [])
  {
  }

  lemma SnapshotIntact(c: Codec, snapshot: seq<LogEntry>)
    requires Lossless(c) && AllFit(c, snapshot)
    ensures Intact(c, EncodeAll(c, snapshot)) && Intact(c, [])
  {
    CleanTail(c, snapshot);
  }

  lemma AppendedOne(c: Codec, disk: Disk, cur: nat, e: LogEntry)
    requires Lossless(c) && Fits(c, e) && cur in disk && Intact(c, disk[cur])
    ensures Intact(c, disk[cur] + Encode(c, e))
    ensures OnDisk(c, Extended(disk, cur, Encode(c, e)), cur + 1) == OnDisk(c, disk, cur + 1) + [e]
  {
    assert AllFit(c, [e]);
    EncodeOne(c, e);
    WriteIntact(c, disk[cur], [e]);
    ExtendRecords(c, disk, cur, Encode(c, e));
  }

  // ---------- opening ----------

  /** Replaying one more listed segment. */
  lemma ReplayedOne(c: Codec, dir: Disk, segs: seq<nat>, i: nat)
    requires IsListing(segs, dir) && i < |segs|
    ensures Records(View(c, dir), segs[i] + 1)
         == Records(View(c, dir), if i == 0 then 0 else segs[i - 1] + 1) + Scan(c, dir[segs[i]])
  {
    var from := if i == 0 then 0 else segs[i - 1] + 1;
    forall n | from <= n < segs[i] ensures n !in View(c, dir) {
      forall j | 0 <= j < |segs| ensures segs[j] != n {
        if j < i {
          assert segs[j] <= segs[i - 1];
        }
      }
      assert n !in segs;
    }
    RecordsGap(View(c, dir), from, segs[i]);
  }

  /** The replay loop over the listed segments. */
  method ReplayAll(c: Codec, dir: Disk, segs: seq<nat>) returns (entries: seq<LogEntry>, disk: Disk, lastCount: nat)
    requires IsListing(segs, dir)
    ensures entries == Records(View(c, dir), if segs == [] then 0 else segs[|segs| - 1] + 1)
    ensures disk == Healed(c, dir)
    ensures lastCount == if segs == [] then 0 else |Scan(c, dir[segs[|segs| - 1]])|
  {
    hide Scan, ValidLength, Records, StrictlyAscending;
    entries, disk, lastCount := [], map[], 0;
    RecordsNone(c, dir);
    var i := 0;
    ghost var done: set<nat> := {};
    while i < |segs|
      invariant 0 <= i <= |segs|
      invariant entries == Records(View(c, dir), if i == 0 then 0 else segs[i - 1] + 1)
      invariant disk.Keys == done <= dir.Keys && (forall j | 0 <= j < i :: segs[j] in done)
      invariant forall n | n in done :: disk[n] == dir[n][..ValidLength(c, dir[n])]
      invariant lastCount == if i == |segs| && i > 0 then |Scan(c, dir[segs[i - 1]])| else 0
    {
      assert segs[i] in dir;
      ReplayedOne(c, dir, segs, i);
      var chunk, healed := ReplaySegment(c, dir[segs[i]]);
      if i + 1 == |segs| {
        lastCount := |chunk|;
      }
      entries := entries + chunk;
      disk := disk[segs[i] := healed];
      done := done + {segs[i]};
      i := i + 1;
    }
    forall n | n in dir ensures n in done {
      var j :| 0 <= j < |segs| && segs[j] == n;
    }
    assert disk.Keys == dir.Keys;
  }

  lemma RecordsNone(c: Codec, dir: Disk)
    ensures Records(View(c, dir), 0) == []
  {
  }

  /** `SegmentedLog::open`: heals every segment and replays them in ascending order. */
  method Open(c: Codec, dir: Disk) returns (log: SegmentedLog, entries: seq<LogEntry>)
    ensures fresh(log)
    ensures log.disk == (if dir == map[] then map[0 := []] else Healed(c, dir))
    ensures log.cur in log.disk && (forall n | n in log.disk :: n <= log.cur)
    ensures entries == OnDisk(c, dir, log.cur + 1)
    ensures log.count == (if dir == map[] then 0 else |Scan(c, dir[log.cur])|) && log.segCount == Max(|dir|, 1)
  {
    hide Scan, ValidLength, Records, Healed, View;
    var segs := ListSegments(dir);
    var disk: Disk, lastCount;
    entries, disk, lastCount := ReplayAll(c, dir, segs);
    var cur := 0;
    if segs == [] {
      assert dir.Keys == {};
      NoRecords(View(c, dir), 1);
      NoRecords(View(c, dir), 0);
      disk := map[0 := []];
    } else {
      cur := segs[|segs| - 1];
      assert cur in dir;
      forall n | n in dir ensures n <= cur {
        var j :| 0 <= j < |segs| && segs[j] == n;
      }
    }
    log := new SegmentedLog(disk, cur, lastCount, Max(|segs|, 1));
  }

  /** Opening a directory loses no record, whatever the files hold. */
  lemma OpenKeepsRecords(c: Codec, dir: Disk, disk: Disk, cur: nat)
    requires disk == if dir == map[] then map[0 := []] else Healed(c, dir)
    requires dir == map[] ==> cur == 0
    ensures OnDisk(c, disk, cur + 1) == OnDisk(c, dir, cur + 1)
    ensures Lossless(c) && (forall n | n in dir :: Healable(c, dir[n])) ==> forall n | n in disk :: Intact(c, disk[n])
  {
    hide Scan, ValidLength, Records, Intact, Healable, Lossless;
    if dir == map[] {
      NoRecords(View(c, dir), 1);
      OneEmptySegment(c);
      EmptyIntact(c);
    } else {
      forall n | n in dir ensures Scan(c, disk[n]) == Scan(c, dir[n]) {
        TruncationKeeps(c, dir[n]);
      }
      assert View(c, disk) == View(c, dir);
      if Lossless(c) && forall n | n in dir :: Healable(c, dir[n]) {
        forall n | n in disk ensures Intact(c, disk[n]) {
          HealIsIntact(c, dir[n]);
        }
      }
    }
  }

  lemma OneEmptySegment(c: Codec)
    ensures OnDisk(c, map[0 := []], 1) == []
  {
    var v := View(c, map[0 := []]);
    assert Records(v, 1) == Records(v, 0) + v[0];
  }

  /** `StateStore::open`: the log and the memory rebuilt from it. Opening loses nothing, so opening
      what it leaves behind recovers from the same records. */
  method OpenStore(c: Codec, dir: Disk) returns (log: SegmentedLog, mem: Memory)
    ensures fresh(log) && Recovers(OnDisk(c, dir, log.cur + 1), mem)
    ensures log.disk == (if dir == map[] then map[0 := []] else Healed(c, dir))
    ensures log.cur in log.disk && (forall n | n in log.disk :: n <= log.cur)
    ensures log.count == (if dir == map[] then 0 else |Scan(c, dir[log.cur])|) && log.segCount == Max(|dir|, 1)
    ensures OnDisk(c, log.disk, log.cur + 1) == OnDisk(c, dir, log.cur + 1)
    ensures Lossless(c) && (forall n | n in dir :: Healable(c, dir[n])) ==> log.Valid(c)
  {
    hide Scan, ValidLength, Records, Healed, View, OnDisk, Intact, Healable, Lossless;
    var entries: seq<LogEntry>;
    log, entries := Open(c, dir);
    OpenKeepsRecords(c, dir, log.disk, log.cur);
    mem := Rebuild(entries);
  }
}
