/** Crash safety of the segmented log: what every step keeps, and what any reopening finds. */
module CrashSafety {
  import opened Basics
  import opened Json
  import opened Wire
  import opened Store
  import opened Segment
  import opened Recovery
  import opened Matching
  import opened DurableLog

  /** The replayed entries stand for `saved`, in memory and in the delta log. */
  ghost predicate Durable(c: Codec, s: Sys) {
    var es := OnDisk(c, s.disk, s.top);
    && Matches(es, s.saved)
    && LogMatches(es, s.saved, s.exact)
    && Capped(s.saved)
    && IsSuffix(es, s.written)
    && (!s.pruned ==> es == s.written)
  }

  ghost predicate FilesIntact(c: Codec, disk: Disk) {
    forall n | n in disk :: Intact(c, disk[n])
  }

  ghost predicate FilesHealable(c: Codec, disk: Disk) {
    forall n | n in disk :: Healable(c, disk[n])
  }

  /** How far the process has got with a write or a compaction. */
  ghost predicate PcOk(c: Codec, s: Sys, p: Proc)
    requires p.cur in s.disk
  {
    match p.pc
    case MustLog(e, t) =>
      && p.mem == Mutated(s.saved, e.key, t, e.ops)
      && e == EntryFor(s.saved, e.key, t, e.ops)
      && e.ops != []
    case Snapshotting(olds, snap) =>
      p.mem == s.saved && IsSnapshot(p.mem, snap) && s.disk[p.cur] == [] && olds == s.disk.Keys - {p.cur}
    case Snapped(olds) =>
      p.mem == s.saved && IsSnapshot(p.mem, Scan(c, s.disk[p.cur])) && olds == s.disk.Keys - {p.cur}
    case Pruning(olds, snapSeg) =>
      && p.mem == s.saved && snapSeg in s.disk && snapSeg != p.cur && p.segCount == 2 && !s.exact
      && IsSnapshot(p.mem, Scan(c, s.disk[snapSeg]))
      && olds !! {snapSeg, p.cur} && s.disk.Keys == olds + {snapSeg, p.cur}
      && (forall n | n in olds :: n < snapSeg)
    case _ => p.mem == s.saved
  }

  ghost predicate Counted(c: Codec, s: Sys, p: Proc)
    requires p.cur in s.disk
  {
    && (!p.pc.Snapshotting? && !p.pc.Snapped? ==> p.count == |Scan(c, s.disk[p.cur])|)
    && (p.pc.Idle? || p.pc.MustLog? || p.pc.MustCompact? ==> p.segCount == |s.disk.Keys|)
  }

  ghost predicate ProcOk(c: Codec, s: Sys, p: Proc) {
    && p.cur + 1 == s.top && p.cur in s.disk
    && FilesIntact(c, s.disk)
    && Sized(c, p)
    && PcOk(c, s, p)
    && Counted(c, s, p)
  }

  ghost predicate Inv(c: Codec, s: Sys) {
    && Lossless(c)
    && (forall n | n in s.disk :: n < s.top)
    && Durable(c, s)
    && (if s.proc.Some? then ProcOk(c, s, s.proc.value) else FilesHealable(c, s.disk))
  }

  lemma EmptyFile(c: Codec)
    ensures Scan(c, []) == [] && Intact(c, [])
  {
  }

  // ---------- one lemma per step ----------

  lemma TouchStep(c: Codec, s: Sys, k: string)
    requires Inv(c, s) && Enabled(c, s, Touch(k))
    ensures Inv(c, After(c, s, Touch(k)))
  {
    hide Matches, LogMatches, Capped, Scan, EncodeAll, Records, OnDisk, IsSnapshot, Intact, Lossless, Fits, IsSuffix, Mutated;
    TouchMatches(OnDisk(c, s.disk, s.top), s.saved, k, s.exact);
  }

  lemma MutateStep(c: Codec, s: Sys, k: string, t: Slot, ops: seq<WOp>)
    requires Inv(c, s) && Enabled(c, s, Mutate(k, t, ops))
    ensures Inv(c, After(c, s, Mutate(k, t, ops)))
  {
    hide Matches, LogMatches, Capped, Scan, EncodeAll, Records, OnDisk, Intact, Lossless, Mutated, Fits, IsSuffix;
    var s' := After(c, s, Mutate(k, t, ops));
    assert Durable(c, s');
    assert PcOk(c, s', s'.proc.value);
  }

  lemma NewSegmentIntact(c: Codec, s: Sys, p: Proc)
    requires Inv(c, s) && s.proc == Some(p)
    ensures p.cur + 1 !in s.disk
    ensures var s' := NewSegment(s, p);
      && OnDisk(c, s'.disk, s'.top) == OnDisk(c, s.disk, s.top)
      && FilesIntact(c, s'.disk)
      && s'.disk.Keys == s.disk.Keys + {p.cur + 1}
      && |s'.disk.Keys| == |s.disk.Keys| + 1
  {
    hide Matches, LogMatches, Capped, Scan, EncodeAll, Records, OnDisk;
    CreateRecords(c, s.disk, p.cur);
    EmptyFile(c);
  }

  lemma RotateStep(c: Codec, s: Sys)
    requires Inv(c, s) && Enabled(c, s, Rotate)
    ensures Inv(c, After(c, s, Rotate))
  {
    hide Matches, LogMatches, Capped, Scan, EncodeAll, Records, OnDisk, IsSnapshot, Intact, Lossless, Fits, IsSuffix, Mutated;
    NewSegmentIntact(c, s, s.proc.value);
    EmptyFile(c);
  }

  lemma IntactAfterWrite(c: Codec, disk: Disk, cur: nat, es: seq<LogEntry>)
    requires Lossless(c) && cur in disk && FilesIntact(c, disk) && AllFit(c, es)
    ensures var disk' := Extended(disk, cur, EncodeAll(c, es));
      && FilesIntact(c, disk')
      && Scan(c, disk'[cur]) == Scan(c, disk[cur]) + es
      && OnDisk(c, disk', cur + 1) == OnDisk(c, disk, cur + 1) + es
      && disk'.Keys == disk.Keys
  {
    WriteIntact(c, disk[cur], es);
    ExtendRecords(c, disk, cur, EncodeAll(c, es));
  }

  lemma SuffixAppend(a: seq<LogEntry>, b: seq<LogEntry>, x: seq<LogEntry>)
    requires IsSuffix(a, b)
    ensures IsSuffix(a + x, b + x)
  {
  }

  lemma AppendStep(c: Codec, s: Sys)
    requires Inv(c, s) && Enabled(c, s, Append)
    ensures Inv(c, After(c, s, Append))
  {
    hide Matches, LogMatches, Capped, Scan, EncodeAll, Records, OnDisk, Intact, Lossless, IsSnapshot, Mutated, Fits, IsSuffix;
    var p := s.proc.value;
    var e, es := p.pc.e, OnDisk(c, s.disk, s.top);
    EncodeOne(c, e);
    assert Fits(c, e) && AllFit(c, [e]);
    var s' := After(c, s, Append);
    IntactAfterWrite(c, s.disk, p.cur, [e]);
    WriteMatches(es, s.saved, e.key, p.pc.t, e.ops);
    WriteLogMatches(es, s.saved, e.key, p.pc.t, e.ops, s.exact);
    SuffixAppend(es, s.written, [e]);
    assert Durable(c, s');
  }

  lemma OpenSnapshotStep(c: Codec, s: Sys, snap: seq<LogEntry>)
    requires Inv(c, s) && Enabled(c, s, OpenSnapshot(snap))
    ensures Inv(c, After(c, s, OpenSnapshot(snap)))
  {
    hide Matches, LogMatches, Capped, Scan, EncodeAll, Records, OnDisk, IsSnapshot, Intact, Lossless, Fits, IsSuffix, Mutated;
    NewSegmentIntact(c, s, s.proc.value);
  }

  lemma WriteSnapshotStep(c: Codec, s: Sys)
    requires Inv(c, s) && Enabled(c, s, WriteSnapshot)
    ensures Inv(c, After(c, s, WriteSnapshot))
  {
    hide Matches, LogMatches, Capped, Scan, EncodeAll, Records, OnDisk;
    var p := s.proc.value;
    var snap, es := p.pc.snap, OnDisk(c, s.disk, s.top);
    IntactAfterWrite(c, s.disk, p.cur, snap);
    SnapshotMatches(es, s.saved, snap, s.exact);
    assert [] + snap == snap;
    SuffixAppend(es, s.written, snap);
    EmptyFile(c);
  }

  lemma OpenLivePc(c: Codec, s: Sys)
    requires Inv(c, s) && Enabled(c, s, OpenLive)
    ensures var s' := After(c, s, OpenLive);
      s'.proc.value.cur in s'.disk && PcOk(c, s', s'.proc.value)
  {
    hide Matches, LogMatches, Capped, Scan, EncodeAll, Records, OnDisk, IsSnapshot, Intact, Lossless, Fits, IsSuffix, Mutated, Durable, Counted;
    var p := s.proc.value;
    var s' := After(c, s, OpenLive);
    NewSegmentIntact(c, s, p);
    assert p.pc.olds + {p.cur, p.cur + 1} == s'.disk.Keys;
  }

  lemma OpenLiveStep(c: Codec, s: Sys)
    requires Inv(c, s) && Enabled(c, s, OpenLive)
    ensures Inv(c, After(c, s, OpenLive))
  {
    hide Matches, LogMatches, Capped, Scan, EncodeAll, Records, OnDisk, IsSnapshot, Intact, Lossless, Fits, IsSuffix, Mutated, PcOk;
    var p := s.proc.value;
    var s' := After(c, s, OpenLive);
    NewSegmentIntact(c, s, p);
    EmptyFile(c);
    WeakenLog(OnDisk(c, s.disk, s.top), s.saved, s.exact);
    OpenLivePc(c, s);
  }

  lemma SuffixDrop(a: seq<LogEntry>, b: seq<LogEntry>, all: seq<LogEntry>)
    requires IsSuffix(a + b, all)
    ensures IsSuffix(b, all)
  {
  }

  /** The snapshot segment keeps an entry for every visible key. */
  lemma SnapshotCovers(c: Codec, disk: Disk, top: nat, snapSeg: nat, m: Memory, k: string)
    requires snapSeg in disk && snapSeg < top && IsSnapshot(m, Scan(c, disk[snapSeg]))
    requires Visible(SlotAt(m.entries, k)) != Null
    ensures HasKey(OnDisk(c, disk, top), k)
  {
    RecordsHaveKey(View(c, disk), snapSeg, top, k);
  }

  lemma PruneDurable(c: Codec, s: Sys, m: nat)
    requires Inv(c, s) && Enabled(c, s, Prune(m))
    ensures Durable(c, After(c, s, Prune(m)))
  {
    hide Matches, LogMatches, Scan, EncodeAll, Records, OnDisk, Intact, IsSnapshot, Lossless;
    var p := s.proc.value;
    var snapSeg := p.pc.snapSeg;
    assert m < snapSeg && snapSeg in s.disk - {m};
    PruneRecords(c, s.disk, m, s.top);
    var left := OnDisk(c, s.disk - {m}, s.top);
    forall k | Visible(SlotAt(s.saved.entries, k)) != Null ensures HasKey(left, k) {
      SnapshotCovers(c, s.disk - {m}, s.top, snapSeg, s.saved, k);
    }
    DropMatches(Scan(c, s.disk[m]), left, s.saved, s.exact);
    SuffixDrop(Scan(c, s.disk[m]), left, s.written);
  }

  lemma PruneStep(c: Codec, s: Sys, m: nat)
    requires Inv(c, s) && Enabled(c, s, Prune(m))
    ensures Inv(c, After(c, s, Prune(m)))
  {
    hide Matches, LogMatches, Capped, Scan, EncodeAll, Records, OnDisk, Intact, IsSnapshot, Lossless, Durable;
    PruneDurable(c, s, m);
    assert (s.disk - {m}).Keys == s.disk.Keys - {m};
  }

  lemma FinishStep(c: Codec, s: Sys)
    requires Inv(c, s) && Enabled(c, s, Finish)
    ensures Inv(c, After(c, s, Finish))
  {
    hide Lossless, Encode, IsSnapshot, Mutated, Matches, LogMatches, Capped, Scan, EncodeAll, Records, OnDisk;
    var p := s.proc.value;
    assert s.disk.Keys == {p.pc.snapSeg, p.cur};
  }

  // ---------- crashing and reopening ----------

  /** After a cut write the disk is repairable and replays the records that got through. */
  lemma CutDisk(c: Codec, disk: Disk, cur: nat, es: seq<LogEntry>, cut: nat) returns (n: nat)
    requires Lossless(c) && cur in disk && FilesIntact(c, disk) && AllFit(c, es) && cut <= |EncodeAll(c, es)|
    ensures n <= |es| && Scan(c, EncodeAll(c, es)[..cut]) == es[..n]
    ensures var disk' := Extended(disk, cur, EncodeAll(c, es)[..cut]);
      FilesHealable(c, disk') && OnDisk(c, disk', cur + 1) == OnDisk(c, disk, cur + 1) + es[..n]
  {
    n := CutHealable(c, disk[cur], es, cut);
    ExtendRecords(c, disk, cur, EncodeAll(c, es)[..cut]);
    var disk' := Extended(disk, cur, EncodeAll(c, es)[..cut]);
    forall i | i in disk' ensures Healable(c, disk'[i]) {
      if i != cur {
        IntactIsHealable(c, disk[i]);
      }
    }
  }

  lemma CutOne(c: Codec, e: LogEntry, cut: nat)
    requires Lossless(c) && Fits(c, e) && cut <= |Encode(c, e)|
    ensures Scan(c, Encode(c, e)[..cut]) == if cut == |Encode(c, e)| then [e] else []
  {
    if cut == |Encode(c, e)| {
      assert Encode(c, e)[..cut] == EncodeAll(c, [e]) by { EncodeOne(c, e); }
      assert AllFit(c, [e]);
      CleanTail(c, [e]);
    } else {
      ReadTorn(c, e, Encode(c, e)[..cut]);
    }
  }

  /** What a crash leaves: repairable files that replay `more` after what was there. */
  ghost predicate CrashLeaves(c: Codec, s: Sys, cut: nat, more: seq<LogEntry>)
    requires Enabled(c, s, Crash(cut))
  {
    var s' := After(c, s, Crash(cut));
    && FilesHealable(c, s'.disk)
    && OnDisk(c, s'.disk, s'.top) == OnDisk(c, s.disk, s.top) + more
    && s'.written == s.written + more
    && s'.disk.Keys == s.disk.Keys
  }

  lemma CrashWhileLogging(c: Codec, s: Sys, cut: nat)
    requires Inv(c, s) && Enabled(c, s, Crash(cut))
    requires s.proc.value.pc.MustLog? && s.proc.value.count < MAX_ENTRIES
    ensures CrashLeaves(c, s, cut, if cut == |Encode(c, s.proc.value.pc.e)| then [s.proc.value.pc.e] else [])
  {
    hide Matches, LogMatches, Capped, Scan, EncodeAll, Encode, Records, OnDisk, Intact, Healable, Durable;
    var p := s.proc.value;
    var e := p.pc.e;
    EncodeOne(c, e);
    CutOne(c, e, cut);
    assert AllFit(c, [e]);
    var n := CutDisk(c, s.disk, p.cur, [e], cut);
  }

  lemma CrashWhileSnapshotting(c: Codec, s: Sys, cut: nat) returns (n: nat)
    requires Inv(c, s) && Enabled(c, s, Crash(cut)) && s.proc.value.pc.Snapshotting?
    ensures n <= |s.proc.value.pc.snap| && CrashLeaves(c, s, cut, s.proc.value.pc.snap[..n])
  {
    hide Matches, LogMatches, Capped, Scan, EncodeAll, Encode, Records, OnDisk, Intact, Healable, Durable;
    var p := s.proc.value;
    n := CutDisk(c, s.disk, p.cur, p.pc.snap, cut);
  }

  lemma CrashElsewhere(c: Codec, s: Sys, cut: nat)
    requires Inv(c, s) && Enabled(c, s, Crash(cut))
    requires !s.proc.value.pc.Snapshotting?
    requires s.proc.value.pc.MustLog? ==> s.proc.value.count >= MAX_ENTRIES
    ensures CrashLeaves(c, s, cut, [])
  {
    hide Matches, LogMatches, Capped, EncodeAll, Encode, Records, OnDisk, Intact, Healable, Durable;
    var p := s.proc.value;
    EmptyFile(c);
    assert s.disk[p.cur] + [] == s.disk[p.cur];
    assert Extended(s.disk, p.cur, []) == s.disk;
    forall i | i in s.disk ensures Healable(c, s.disk[i]) {
      IntactIsHealable(c, s.disk[i]);
    }
    assert s.written + [] == s.written;
    assert OnDisk(c, s.disk, s.top) + [] == OnDisk(c, s.disk, s.top);
  }

  lemma CrashStep(c: Codec, s: Sys, cut: nat)
    requires Inv(c, s) && Enabled(c, s, Crash(cut))
    ensures Inv(c, After(c, s, Crash(cut)))
  {
    hide Lossless, Matches, LogMatches, Capped, Scan, EncodeAll, Records, OnDisk, Intact, Healable;
    var p, es := s.proc.value, OnDisk(c, s.disk, s.top);
    if p.pc.MustLog? && p.count < MAX_ENTRIES {
      CrashWhileLogging(c, s, cut);
      var e := p.pc.e;
      if cut == |Encode(c, e)| {
        WriteMatches(es, s.saved, e.key, p.pc.t, e.ops);
        WriteLogMatches(es, s.saved, e.key, p.pc.t, e.ops, s.exact);
        SuffixAppend(es, s.written, [e]);
      } else {
        assert es + [] == es && s.written + [] == s.written;
      }
    } else if p.pc.Snapshotting? {
      var n := CrashWhileSnapshotting(c, s, cut);
      SnapshotMatches(es, s.saved, p.pc.snap[..n], s.exact);
      SuffixAppend(es, s.written, p.pc.snap[..n]);
    } else {
      CrashElsewhere(c, s, cut);
      assert es + [] == es && s.written + [] == s.written;
    }
  }

  lemma ReopenEmpty(c: Codec, top: nat)
    ensures OnDisk(c, map[], 1) == [] && OnDisk(c, map[], top) == [] && OnDisk(c, map[0 := []], 1) == []
    ensures FilesIntact(c, map[0 := []])
  {
    EmptyFile(c);
    NoRecords(View(c, map[]), top);
    NoRecords(View(c, map[]), 1);
    var v := View(c, map[0 := []]);
    assert Records(v, 1) == Records(v, 0) + v[0];
  }

  lemma HealStep(c: Codec, s: Sys, n: nat)
    requires Inv(c, s) && Enabled(c, s, Heal(n))
    ensures Inv(c, After(c, s, Heal(n)))
  {
    hide Lossless, Matches, LogMatches, Capped, EncodeAll, Intact, Healable, Scan, Records, OnDisk;
    HealRecords(c, s.disk, n, s.top);
  }

  /** Opening replays exactly what is there. */
  lemma ReopenDisk(c: Codec, s: Sys, mem: Memory, cur: nat)
    requires Inv(c, s) && Enabled(c, s, Reopen(mem, cur))
    ensures var s' := After(c, s, Reopen(mem, cur));
      && OnDisk(c, s.disk, cur + 1) == OnDisk(c, s.disk, s.top)
      && OnDisk(c, s'.disk, cur + 1) == OnDisk(c, s.disk, s.top)
      && FilesIntact(c, s'.disk) && cur in s'.disk && forall n | n in s'.disk :: n <= cur
  {
    hide EncodeAll, Recovers, Intact, Healable, Clean, Scan, Records, Durable, Lossless, InsertAll;
    if s.disk == map[] {
      ReopenEmpty(c, s.top);
    } else {
      assert cur < s.top;
      RecordsTop(View(c, s.disk), cur + 1, s.top);
      forall n | n in s.disk ensures Intact(c, s.disk[n]) {
        CleanIsIntact(c, s.disk, n);
      }
    }
  }

  lemma ReopenStep(c: Codec, s: Sys, mem: Memory, cur: nat)
    requires Inv(c, s) && Enabled(c, s, Reopen(mem, cur))
    ensures Inv(c, After(c, s, Reopen(mem, cur)))
    ensures SameVisible(s.saved, mem)
  {
    hide Lossless, Encode, IsSnapshot, Mutated, Matches, LogMatches, Capped, EncodeAll, Recovers, Intact, Healable, Scan, Records, OnDisk;
    ReopenDisk(c, s, mem, cur);
    ReopenVisible(OnDisk(c, s.disk, s.top), s.saved, mem);
    ReopenMatches(OnDisk(c, s.disk, s.top), s.saved, mem);
  }

  lemma StepKeepsInv(c: Codec, s: Sys, a: Action)
    requires Inv(c, s) && Enabled(c, s, a)
    ensures Inv(c, After(c, s, a))
  {
    match a
    case Touch(k) => TouchStep(c, s, k);
    case Mutate(k, t, ops) => MutateStep(c, s, k, t, ops);
    case Rotate => RotateStep(c, s);
    case Append => AppendStep(c, s);
    case OpenSnapshot(snap) => OpenSnapshotStep(c, s, snap);
    case WriteSnapshot => WriteSnapshotStep(c, s);
    case OpenLive => OpenLiveStep(c, s);
    case Prune(m) => PruneStep(c, s, m);
    case Finish => FinishStep(c, s);
    case Crash(cut) => CrashStep(c, s, cut);
    case Heal(n) => HealStep(c, s, n);
    case Reopen(mem, cur) => ReopenStep(c, s, mem, cur);
  }

  // ---------- runs ----------

  predicate Initial(s: Sys) {
    s == Sys(map[], 0, None, BLANK, true, [], false)
  }

  ghost predicate Run(c: Codec, s: Sys, actions: seq<Action>, end: Sys)
    decreases |actions|
  {
    if actions == [] then end == s
    else Enabled(c, s, actions[0]) && Run(c, After(c, s, actions[0]), actions[1..], end)
  }

  lemma {:induction false} RunKeepsInv(c: Codec, s: Sys, actions: seq<Action>, end: Sys)
    requires Inv(c, s) && Run(c, s, actions, end)
    ensures Inv(c, end)
    decreases |actions|
  {
    hide Inv;
    if actions != [] {
      StepKeepsInv(c, s, actions[0]);
      RunKeepsInv(c, After(c, s, actions[0]), actions[1..], end);
    }
  }

  lemma InitialInv(c: Codec, s: Sys)
    requires Lossless(c) && Initial(s)
    ensures Inv(c, s)
  {
    var es := OnDisk(c, s.disk, s.top);
    assert es == [];
    assert forall k :: LogAt(s.saved.log, k) == [] && OpsOf(es, k) == [];
  }

  /** Crash safety: after any run, whatever state it stops in, reopening shows every key as
      of the last record wholly on disk; the replayed entries are the newest of those ever
      written, all of them when nothing was pruned; each key's delta log is a recent part
      of the one in memory, all of it when no compaction ran since opening; and the counter
      is at least every recovered version. */
  lemma CrashSafe(c: Codec, s: Sys, actions: seq<Action>, end: Sys, mem: Memory)
    requires Lossless(c) && Initial(s) && Run(c, s, actions, end)
    requires end.proc.None? && Recovers(OnDisk(c, end.disk, end.top), mem)
    ensures SameVisible(end.saved, mem)
    ensures forall k :: IsSuffix(LogAt(mem.log, k), LogAt(end.saved.log, k))
    ensures end.exact ==> forall k :: LogAt(mem.log, k) == LogAt(end.saved.log, k)
    ensures forall k | k in mem.entries :: mem.entries[k].version <= mem.version
    ensures IsSuffix(OnDisk(c, end.disk, end.top), end.written)
    ensures !end.pruned ==> OnDisk(c, end.disk, end.top) == end.written
  {
    InitialInv(c, s);
    RunKeepsInv(c, s, actions, end);
    var es := OnDisk(c, end.disk, end.top);
    ReopenVisible(es, end.saved, mem);
    ReopenMatches(es, end.saved, mem);
    forall k ensures IsSuffix(LogAt(mem.log, k), LogAt(end.saved.log, k)) && (end.exact ==> LogAt(mem.log, k) == LogAt(end.saved.log, k)) {
      assert Newest(OpsOf(es, k), MAX_LOG) == LogAt(mem.log, k);
    }
  }

  /** While nothing is being written, what is saved is what memory holds, and the next
      segment number is free. */
  lemma IdleIsSaved(c: Codec, s: Sys, actions: seq<Action>, end: Sys)
    requires Lossless(c) && Initial(s) && Run(c, s, actions, end) && end.proc.Some?
    ensures var p := end.proc.value;
      && (!p.pc.MustLog? ==> end.saved == p.mem)
      && (forall n | n in end.disk :: n <= p.cur)
      && (p.pc.Idle? ==> p.segCount == |end.disk.Keys|)
  {
    InitialInv(c, s);
    RunKeepsInv(c, s, actions, end);
  }

  /** A crash at any byte, with nothing but a compaction under way, is invisible: whatever is
      rebuilt shows every key as live memory did. */
  lemma CrashShowsMemory(c: Codec, s: Sys, actions: seq<Action>, end: Sys, cut: nat, mem: Memory)
    requires Lossless(c) && Initial(s) && Run(c, s, actions, end) && end.proc.Some? && !end.proc.value.pc.MustLog?
    requires Enabled(c, end, Crash(cut))
    requires Recovers(OnDisk(c, After(c, end, Crash(cut)).disk, end.top), mem)
    ensures SameVisible(end.proc.value.mem, mem)
  {
    hide Inv, Recovers, OnDisk;
    var crashed := After(c, end, Crash(cut));
    RunSnoc(c, s, actions, end, Crash(cut));
    CrashSafe(c, s, actions + [Crash(cut)], crashed, mem);
    IdleIsSaved(c, s, actions, end);
  }

  lemma {:induction false} RunSnoc(c: Codec, s: Sys, actions: seq<Action>, end: Sys, a: Action)
    requires Run(c, s, actions, end) && Enabled(c, end, a)
    ensures Run(c, s, actions + [a], After(c, end, a))
    decreases |actions|
  {
    hide Enabled, After;
    if actions == [] {
      assert actions + [a] == [a];
      assert [a][1..] == [];
      assert Run(c, After(c, s, a), [], After(c, s, a));
    } else {
      assert (actions + [a])[1..] == actions[1..] + [a];
      RunSnoc(c, After(c, s, actions[0]), actions[1..], end, a);
    }
  }

  // ---------- the log stays small ----------

  /** At most `b` segment files while idle, one more after a rotation and up to three more during
      a compaction; at most `m` records in the current one. */
  predicate Small(s: Sys, b: nat, m: nat) {
    s.proc.Some? && s.proc.value.count <= m &&
    |s.disk.Keys| <=
      match s.proc.value.pc
      case Idle => b
      case MustLog(_, _) => if s.proc.value.count < MAX_ENTRIES then b + 1 else b
      case MustCompact => b + 1
      case Snapshotting(_, _) => b + 2
      case Snapped(_) => b + 2
      case Pruning(_, _) => b + 3
  }

  predicate IsCompacting(s: Sys) {
    s.proc.Some? && (s.proc.value.pc.MustCompact? || s.proc.value.pc.Snapshotting? || s.proc.value.pc.Snapped? || s.proc.value.pc.Pruning?)
  }

  lemma OneMoreFile(disk: Disk, n: nat, bytes: seq<Byte>)
    ensures |disk[n := bytes].Keys| <= |disk.Keys| + 1 && (n in disk ==> disk[n := bytes].Keys == disk.Keys)
  {
    assert disk[n := bytes].Keys == disk.Keys + {n};
  }

  lemma FilesAfter(c: Codec, s: Sys, a: Action)
    requires Enabled(c, s, a) && s.proc.Some? && !a.Crash?
    ensures |After(c, s, a).disk.Keys| <= |s.disk.Keys| + if a.Rotate? || a.OpenSnapshot? || a.OpenLive? then 1 else 0
  {
    hide Scan, EncodeAll, Encode, IsSnapshot, Mutated, EntryFor, Touched, Fits, AllFit;
    var p := s.proc.value;
    if a.Rotate? || a.OpenSnapshot? || a.OpenLive? {
      OneMoreFile(s.disk, p.cur + 1, []);
    } else if a.Append? {
      OneMoreFile(s.disk, p.cur, s.disk[p.cur] + Encode(c, p.pc.e));
    } else if a.WriteSnapshot? {
      OneMoreFile(s.disk, p.cur, s.disk[p.cur] + EncodeAll(c, p.pc.snap));
    } else if a.Prune? {
      assert (s.disk - {a.m}).Keys == s.disk.Keys - {a.m};
    }
  }

  lemma Finished(c: Codec, s: Sys)
    requires Inv(c, s) && Enabled(c, s, Finish)
    ensures |s.disk.Keys| <= 2
  {
    hide Durable, FilesIntact, Counted, Scan, IsSnapshot, Lossless;
    var p := s.proc.value;
    assert s.disk.Keys == {p.pc.snapSeg, p.cur};
  }

  /** Right after a record is written the process rests only with few enough segments. */
  lemma Appended(c: Codec, s: Sys)
    requires Inv(c, s) && Enabled(c, s, Append)
    ensures var s' := After(c, s, Append);
      && s'.proc.Some? && s'.proc.value.count <= MAX_ENTRIES
      && (if |s.disk.Keys| > MAX_SEGMENTS then s'.proc.value.pc.MustCompact? else s'.proc.value.pc.Idle?)
  {
    hide Durable, FilesIntact, PcOk, Scan, Encode, Lossless;
  }

  lemma StaysSmall(c: Codec, s: Sys, a: Action, b: nat, m: nat)
    requires Inv(c, s) && Enabled(c, s, a) && !a.Crash? && MAX_SEGMENTS <= b && MAX_ENTRIES <= m && Small(s, b, m)
    ensures Small(After(c, s, a), b, m)
  {
    hide Inv, Scan, EncodeAll, Encode, IsSnapshot, Mutated, EntryFor, Touched, Extended, Fits, AllFit;
    FilesAfter(c, s, a);
    if a.Append? {
      Appended(c, s);
    } else if a.Finish? {
      Finished(c, s);
    }
  }

  /** Once something was appended, every return to rest leaves at most `MAX_SEGMENTS` files. */
  lemma Settles(c: Codec, s: Sys, a: Action, m: nat)
    requires Inv(c, s) && Enabled(c, s, a) && !a.Crash? && s.proc.Some? && MAX_ENTRIES <= m && s.proc.value.count <= m
    requires a.Append? || IsCompacting(s) || Small(s, MAX_SEGMENTS, m)
    ensures IsCompacting(After(c, s, a)) || Small(After(c, s, a), MAX_SEGMENTS, m)
  {
    hide Inv, Scan, EncodeAll, Encode, IsSnapshot, Mutated, EntryFor, Touched, Extended, Fits, AllFit;
    if a.Append? {
      Appended(c, s);
      FilesAfter(c, s, a);
    } else if a.Finish? {
      Finished(c, s);
    } else if Small(s, MAX_SEGMENTS, m) {
      StaysSmall(c, s, a, MAX_SEGMENTS, m);
    }
  }

  /** From any opening on, in every run without a crash: no segment is filled beyond its limit, the
      directory never holds more than three files over what it was opened with or may keep, and
      after the first append the process never rests with more than `MAX_SEGMENTS` files. */
  lemma {:induction false} LogStaysSmall(c: Codec, s: Sys, actions: seq<Action>, end: Sys, b: nat, m: nat)
    requires Inv(c, s) && Run(c, s, actions, end) && forall i | 0 <= i < |actions| :: !actions[i].Crash?
    requires MAX_SEGMENTS <= b && MAX_ENTRIES <= m && Small(s, b, m)
    ensures Small(end, b, m)
    ensures Append in actions || IsCompacting(s) || Small(s, MAX_SEGMENTS, m) ==>
      IsCompacting(end) || Small(end, MAX_SEGMENTS, m)
    decreases |actions|
  {
    hide Inv, Enabled, After, Small, IsCompacting;
    if actions != [] {
      var next := After(c, s, actions[0]);
      StepKeepsInv(c, s, actions[0]);
      StaysSmall(c, s, actions[0], b, m);
      if actions[0].Append? || IsCompacting(s) || Small(s, MAX_SEGMENTS, m) {
        assert s.proc.Some? && s.proc.value.count <= m by { SmallMeans(s, b, m); }
        Settles(c, s, actions[0], m);
      }
      LogStaysSmall(c, next, actions[1..], end, b, m);
      assert Append in actions ==> actions[0].Append? || Append in actions[1..];
    }
  }

  lemma SmallMeans(s: Sys, b: nat, m: nat)
    requires Small(s, b, m)
    ensures s.proc.Some? && s.proc.value.count <= m && |s.disk.Keys| <= b + 3 && (s.proc.value.pc.Idle? ==> |s.disk.Keys| <= b)
  {
  }

  /** The bounds spelled out for a process that was at rest at `s`, at some point of some run. */
  lemma FilesBounded(c: Codec, s0: Sys, before: seq<Action>, s: Sys, actions: seq<Action>, end: Sys)
    requires Lossless(c) && Initial(s0) && Run(c, s0, before, s) && s.proc.Some? && s.proc.value.pc.Idle?
    requires Run(c, s, actions, end) && forall i | 0 <= i < |actions| :: !actions[i].Crash?
    ensures end.proc.Some? && end.proc.value.count <= Max(s.proc.value.count, MAX_ENTRIES)
    ensures |end.disk.Keys| <= Max(|s.disk.Keys|, MAX_SEGMENTS) + 3
    ensures Append in actions && end.proc.value.pc.Idle? ==> |end.disk.Keys| <= MAX_SEGMENTS
  {
    hide Inv, Enabled, After, Run;
    InitialInv(c, s0);
    RunKeepsInv(c, s0, before, s);
    var b, m := Max(|s.disk.Keys|, MAX_SEGMENTS), Max(s.proc.value.count, MAX_ENTRIES);
    LogStaysSmall(c, s, actions, end, b, m);
    SmallMeans(end, b, m);
  }
}
