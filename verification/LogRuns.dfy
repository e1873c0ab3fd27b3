/** The log's methods as runs of the crash machine: a compaction and an opening, call by call,
    so that a crash between any two of their file-system calls is a crash of the machine. */
module LogRuns {
  import opened Basics
  import opened Json
  import opened Segment
  import opened Recovery
  import opened Matching
  import opened DurableLog
  import opened CrashSafety
  import opened SegLog

  // ---------- traces ----------

  /** Running `actions` from `s` takes the directory through `disks`, one per action, and ends in `end`. */
  ghost predicate Trace(c: Codec, s: Sys, actions: seq<Action>, disks: seq<Disk>, end: Sys)
    decreases |actions|
  {
    if actions == [] then disks == [] && end == s
    else
      && Enabled(c, s, actions[0]) && disks != [] && disks[0] == After(c, s, actions[0]).disk
      && Trace(c, After(c, s, actions[0]), actions[1..], disks[1..], end)
  }

  lemma {:induction false} TraceSnoc(c: Codec, s: Sys, actions: seq<Action>, disks: seq<Disk>, mid: Sys, a: Action)
    requires Trace(c, s, actions, disks, mid) && Enabled(c, mid, a)
    ensures Trace(c, s, actions + [a], disks + [After(c, mid, a).disk], After(c, mid, a))
    decreases |actions|
  {
    hide Enabled, After;
    var end := After(c, mid, a);
    if actions == [] {
      assert actions + [a] == [a] && disks + [end.disk] == [end.disk];
      assert [a][1..] == [] && [end.disk][1..] == [];
      assert Trace(c, end, [], [], end);
    } else {
      assert (actions + [a])[1..] == actions[1..] + [a];
      assert (disks + [end.disk])[1..] == disks[1..] + [end.disk];
      TraceSnoc(c, After(c, s, actions[0]), actions[1..], disks[1..], mid, a);
    }
  }

  /** Stopping a trace after `k` calls is a run that stops with the directory of that moment. */
  lemma {:induction false} TracePrefix(c: Codec, s: Sys, actions: seq<Action>, disks: seq<Disk>, end: Sys, k: nat) returns (mid: Sys)
    requires Trace(c, s, actions, disks, end) && k <= |actions|
    ensures Run(c, s, actions[..k], mid) && |disks| == |actions|
    ensures mid.disk == if k == 0 then s.disk else disks[k - 1]
    decreases |actions|
  {
    hide Enabled, After;
    if k == 0 {
      mid := s;
      TraceLength(c, s, actions, disks, end);
    } else {
      var next := After(c, s, actions[0]);
      mid := TracePrefix(c, next, actions[1..], disks[1..], end, k - 1);
      assert actions[..k][1..] == actions[1..][..k - 1];
    }
  }

  lemma {:induction false} TraceLength(c: Codec, s: Sys, actions: seq<Action>, disks: seq<Disk>, end: Sys)
    requires Trace(c, s, actions, disks, end)
    ensures |disks| == |actions|
    decreases |actions|
  {
    hide Enabled, After;
    if actions != [] {
      TraceLength(c, After(c, s, actions[0]), actions[1..], disks[1..], end);
    }
  }

  function Prunes(olds: seq<nat>): (r: seq<Action>)
    ensures |r| == |olds|
    ensures forall i | 0 <= i < |olds| :: r[i] == Prune(olds[i])
  {
    seq(|olds|, i requires 0 <= i < |olds| => Prune(olds[i]))
  }

  /** The machine's steps for one compaction, up to the last removal. */
  function CompactionSteps(snap: seq<LogEntry>, olds: seq<nat>): seq<Action> {
    [OpenSnapshot(snap), WriteSnapshot, OpenLive] + Prunes(olds)
  }

  /** The state once the live segment is open and the first `k` old segments are gone. */
  ghost predicate PrunedTo(s: Sys, live: Disk, olds: seq<nat>, k: nat)
    requires k <= |olds|
  {
    && s.proc.Some? && s.proc.value.pc.Pruning? && s.proc.value.cur in live && s.proc.value.cur !in olds
    && s.disk == live - SetOf(olds[..k])
    && s.proc.value.pc.olds == SetOf(olds[k..])
  }

  lemma SnapshotSteps(c: Codec, s: Sys, snap: seq<LogEntry>)
    requires Enabled(c, s, OpenSnapshot(snap)) && forall n | n in s.disk :: n <= s.proc.value.cur
    ensures var s1 := After(c, s, OpenSnapshot(snap));
      && Enabled(c, s1, WriteSnapshot)
      && var s2 := After(c, s1, WriteSnapshot);
      && Enabled(c, s2, OpenLive)
      && var s3 := After(c, s2, OpenLive);
      && CompactionTrail(s.disk, s.proc.value.cur, EncodeAll(c, snap), []) == [s1.disk, s2.disk, s3.disk]
      && s3.disk == s.disk[s.proc.value.cur + 1 := []][s.proc.value.cur + 1 := EncodeAll(c, snap)][s.proc.value.cur + 2 := []]
      && s3.proc.Some? && s3.proc.value.pc.Pruning? && s3.proc.value.pc.olds == s.disk.Keys && s3.proc.value.cur == s.proc.value.cur + 2
  {
    hide EncodeAll, Encode, Scan;
    assert [] + EncodeAll(c, snap) == EncodeAll(c, snap);
  }

  lemma OpenedForPruning(c: Codec, s: Sys, snap: seq<LogEntry>, olds: seq<nat>) returns (s3: Sys)
    requires Enabled(c, s, OpenSnapshot(snap)) && IsListing(olds, s.disk)
    requires forall n | n in s.disk :: n <= s.proc.value.cur
    ensures Trace(c, s, [OpenSnapshot(snap), WriteSnapshot, OpenLive], CompactionTrail(s.disk, s.proc.value.cur, EncodeAll(c, snap), []), s3)
    ensures PrunedTo(s3, s3.disk, olds, 0)
    ensures s3.disk == s.disk[s.proc.value.cur + 1 := []][s.proc.value.cur + 1 := EncodeAll(c, snap)][s.proc.value.cur + 2 := []]
  {
    hide EncodeAll, Enabled, After, CompactionTrail, Trace;
    Compacting(c, s, snap);
    SnapshotSteps(c, s, snap);
    var s1 := After(c, s, OpenSnapshot(snap));
    var s2 := After(c, s1, WriteSnapshot);
    s3 := After(c, s2, OpenLive);
    TraceNone(c, s);
    TraceSnoc(c, s, [], [], s, OpenSnapshot(snap));
    assert [] + [OpenSnapshot(snap)] == [OpenSnapshot(snap)] && [] + [s1.disk] == [s1.disk];
    TraceSnoc(c, s, [OpenSnapshot(snap)], [s1.disk], s1, WriteSnapshot);
    assert [OpenSnapshot(snap)] + [WriteSnapshot] == [OpenSnapshot(snap), WriteSnapshot];
    assert [s1.disk] + [s2.disk] == [s1.disk, s2.disk];
    TraceSnoc(c, s, [OpenSnapshot(snap), WriteSnapshot], [s1.disk, s2.disk], s2, OpenLive);
    assert [OpenSnapshot(snap), WriteSnapshot] + [OpenLive] == [OpenSnapshot(snap), WriteSnapshot, OpenLive];
    assert [s1.disk, s2.disk] + [s3.disk] == [s1.disk, s2.disk, s3.disk];
    assert s3.disk - SetOf(olds[..0]) == s3.disk;
    assert olds[0..] == olds && SetOf(olds) == s.disk.Keys;
  }

  lemma TraceNone(c: Codec, s: Sys)
    ensures Trace(c, s, [], [], s)
  {
  }

  lemma PruneOne(c: Codec, s: Sys, live: Disk, olds: seq<nat>, k: nat)
    requires StrictlyAscending(olds) && k < |olds| && PrunedTo(s, live, olds, k)
    ensures Enabled(c, s, Prune(olds[k])) && PrunedTo(After(c, s, Prune(olds[k])), live, olds, k + 1)
  {
    assert olds[..k + 1] == olds[..k] + [olds[k]];
    SetOfSnoc(olds[..k], olds[k]);
    assert olds[k..] == [olds[k]] + olds[k + 1..];
    assert s.proc.value.cur !in olds[..k];
    forall n | n in s.proc.value.pc.olds ensures olds[k] <= n {
      var j :| 0 <= j < |olds[k..]| && olds[k..][j] == n;
    }
    assert SetOf(olds[k..]) - {olds[k]} == SetOf(olds[k + 1..]);
  }

  lemma {:induction false} PruneAll(c: Codec, s: Sys, acts: seq<Action>, front: seq<Disk>, s3: Sys, olds: seq<nat>, k: nat) returns (end: Sys)
    requires Trace(c, s, acts, front, s3) && StrictlyAscending(olds) && k <= |olds| && PrunedTo(s3, s3.disk, olds, 0)
    ensures PrunedTo(end, s3.disk, olds, k)
    ensures Trace(c, s, acts + Prunes(olds[..k]), front + RemovalTrail(s3.disk, olds[..k]), end)
    decreases k
  {
    hide Enabled, After, Trace, PrunedTo;
    if k == 0 {
      end := s3;
      assert acts + Prunes(olds[..0]) == acts && front + RemovalTrail(s3.disk, olds[..0]) == front;
    } else {
      var mid := PruneAll(c, s, acts, front, s3, olds, k - 1);
      PruneOne(c, mid, s3.disk, olds, k - 1);
      end := After(c, mid, Prune(olds[k - 1]));
      TraceSnoc(c, s, acts + Prunes(olds[..k - 1]), front + RemovalTrail(s3.disk, olds[..k - 1]), mid, Prune(olds[k - 1]));
      assert olds[..k][..k - 1] == olds[..k - 1];
      PrunedDisk(end, s3.disk, olds, k);
      assert acts + Prunes(olds[..k - 1]) + [Prune(olds[k - 1])] == acts + Prunes(olds[..k]);
      assert front + RemovalTrail(s3.disk, olds[..k - 1]) + [end.disk] == front + RemovalTrail(s3.disk, olds[..k]);
    }
  }

  lemma PrunedDisk(s: Sys, live: Disk, olds: seq<nat>, k: nat)
    requires k <= |olds| && PrunedTo(s, live, olds, k)
    ensures s.disk == live - SetOf(olds[..k])
  {
  }

  lemma DonePruning(c: Codec, s: Sys, live: Disk, olds: seq<nat>)
    requires PrunedTo(s, live, olds, |olds|)
    ensures Enabled(c, s, Finish) && s.disk == live - SetOf(olds)
  {
    assert olds[..|olds|] == olds && olds[|olds|..] == [];
    assert SetOf([]) == {};
  }

  lemma Compacting(c: Codec, s: Sys, snap: seq<LogEntry>)
    requires Enabled(c, s, OpenSnapshot(snap))
    ensures s.proc.Some? && s.proc.value.pc.MustCompact? && AllFit(c, snap)
  {
  }

  lemma TrailParts(disk: Disk, cur: nat, bytes: seq<Byte>, olds: seq<nat>)
    ensures CompactionTrail(disk, cur, bytes, olds)
         == CompactionTrail(disk, cur, bytes, []) + RemovalTrail(disk[cur + 1 := []][cur + 1 := bytes][cur + 2 := []], olds)
  {
  }

  /** A compaction, call by call, is a run of the machine: its directory states are exactly the
      trail of `Compact`, every removal included, and it ends ready to finish with the
      directory `Compact` leaves. */
  lemma CompactionIsRun(c: Codec, s: Sys, snap: seq<LogEntry>, olds: seq<nat>) returns (end: Sys)
    requires Enabled(c, s, OpenSnapshot(snap)) && IsListing(olds, s.disk)
    requires forall n | n in s.disk :: n <= s.proc.value.cur
    ensures Trace(c, s, CompactionSteps(snap, olds), CompactionTrail(s.disk, s.proc.value.cur, EncodeAll(c, snap), olds), end)
    ensures Enabled(c, end, Finish) && end.disk == map[s.proc.value.cur + 1 := EncodeAll(c, snap), s.proc.value.cur + 2 := []]
  {
    hide EncodeAll, Encode, Trace, After, Enabled, PrunedTo, RemovalTrail;
    Compacting(c, s, snap);
    var cur := s.proc.value.cur;
    var s3 := OpenedForPruning(c, s, snap, olds);
    var front := CompactionTrail(s.disk, cur, EncodeAll(c, snap), []);
    end := PruneAll(c, s, [OpenSnapshot(snap), WriteSnapshot, OpenLive], front, s3, olds, |olds|);
    assert olds[..|olds|] == olds && olds[|olds|..] == [];
    TrailParts(s.disk, cur, EncodeAll(c, snap), olds);
    LiveOnly(s.disk, cur, EncodeAll(c, snap), olds);
    DonePruning(c, end, s3.disk, olds);
  }

  predicate IsQuiet(a: Action) {
    a.OpenSnapshot? || a.WriteSnapshot? || a.OpenLive? || a.Prune?
  }

  lemma QuietStep(c: Codec, s: Sys, a: Action)
    requires Enabled(c, s, a) && IsQuiet(a) && s.proc.Some? && !s.proc.value.pc.MustLog?
    ensures var s' := After(c, s, a);
      s'.proc.Some? && !s'.proc.value.pc.MustLog? && s'.proc.value.mem == s.proc.value.mem
  {
    hide EncodeAll, Encode, Scan, Sized, IsSnapshot, Extended, NewSegment;
  }

  lemma {:induction false} QuietRun(c: Codec, s: Sys, actions: seq<Action>, end: Sys)
    requires Run(c, s, actions, end) && (forall i | 0 <= i < |actions| :: IsQuiet(actions[i]))
    requires s.proc.Some? && !s.proc.value.pc.MustLog?
    ensures end.proc.Some? && !end.proc.value.pc.MustLog? && end.proc.value.mem == s.proc.value.mem
    decreases |actions|
  {
    hide Enabled, After, IsQuiet;
    if actions != [] {
      QuietStep(c, s, actions[0]);
      QuietRun(c, After(c, s, actions[0]), actions[1..], end);
    }
  }

  lemma {:induction false} RunAppend(c: Codec, s: Sys, a: seq<Action>, mid: Sys, b: seq<Action>, end: Sys)
    requires Run(c, s, a, mid) && Run(c, mid, b, end)
    ensures Run(c, s, a + b, end)
    decreases |a|
  {
    hide Enabled, After;
    if a == [] {
      assert a + b == b;
    } else {
      assert (a + b)[1..] == a[1..] + b;
      RunAppend(c, After(c, s, a[0]), a[1..], mid, b, end);
    }
  }

  lemma StepsAreQuiet(snap: seq<LogEntry>, olds: seq<nat>, k: nat)
    requires k <= |CompactionSteps(snap, olds)|
    ensures forall i | 0 <= i < k :: IsQuiet(CompactionSteps(snap, olds)[i])
  {
  }

  /** `Compact` may stop after any of its file-system calls: whatever is then rebuilt from the
      directory shows every key as live memory did. */
  lemma CompactIsCrashSafe(c: Codec, s0: Sys, actions: seq<Action>, s: Sys, snap: seq<LogEntry>, olds: seq<nat>, k: nat, mem: Memory)
    requires Lossless(c) && Initial(s0) && Run(c, s0, actions, s)
    requires Enabled(c, s, OpenSnapshot(snap)) && IsListing(olds, s.disk) && k < 3 + |olds|
    requires var trail := CompactionTrail(s.disk, s.proc.value.cur, EncodeAll(c, snap), olds);
      exists top: nat :: (forall n | n in trail[k] :: n < top) && Recovers(OnDisk(c, trail[k], top), mem)
    ensures SameVisible(s.proc.value.mem, mem)
  {
    hide Enabled, After, Recovers, EncodeAll, CompactionTrail, IsListing;
    Compacting(c, s, snap);
    IdleIsSaved(c, s0, actions, s);
    var end := CompactionIsRun(c, s, snap, olds);
    var steps := CompactionSteps(snap, olds);
    var trail := CompactionTrail(s.disk, s.proc.value.cur, EncodeAll(c, snap), olds);
    var mid := TracePrefix(c, s, steps, trail, end, k + 1);
    StepsAreQuiet(snap, olds, k + 1);
    QuietRun(c, s, steps[..k + 1], mid);
    RunAppend(c, s0, actions, s, steps[..k + 1], mid);
    var top: nat :| (forall n | n in trail[k] :: n < top) && Recovers(OnDisk(c, trail[k], top), mem);
    StoppedShows(c, s0, actions + steps[..k + 1], mid, top, mem);
  }

  lemma StoppedShows(c: Codec, s0: Sys, actions: seq<Action>, s: Sys, top: nat, mem: Memory)
    requires Lossless(c) && Initial(s0) && Run(c, s0, actions, s) && s.proc.Some? && !s.proc.value.pc.MustLog?
    requires (forall n | n in s.disk :: n < top) && Recovers(OnDisk(c, s.disk, top), mem)
    ensures SameVisible(s.proc.value.mem, mem)
  {
    hide Recovers, Scan, EncodeAll, Records, Matches, LogMatches, IsSnapshot;
    InitialInv(c, s0);
    RunKeepsInv(c, s0, actions, s);
    assert forall n | n in s.disk :: n < s.top;
    if top <= s.top {
      RecordsTop(View(c, s.disk), top, s.top);
    } else {
      RecordsTop(View(c, s.disk), s.top, top);
    }
    ReopenVisible(OnDisk(c, s.disk, s.top), s.saved, mem);
    IdleIsSaved(c, s0, actions, s);
  }

  // ---------- opening as a run ----------

  function Heals(segs: seq<nat>): (r: seq<Action>)
    ensures |r| == |segs|
    ensures forall i | 0 <= i < |segs| :: r[i] == Heal(segs[i])
  {
    seq(|segs|, i requires 0 <= i < |segs| => Heal(segs[i]))
  }

  /** The listed segments cut back to their whole records. */
  function HealedUpto(c: Codec, disk: Disk, segs: seq<nat>): (r: Disk)
    ensures r.Keys == disk.Keys
  {
    map n | n in disk :: if n in segs then disk[n][..ValidLength(c, disk[n])] else disk[n]
  }

  lemma RunNone(c: Codec, s: Sys)
    ensures Run(c, s, [], s)
  {
  }

  lemma {:induction false} HealRun(c: Codec, s: Sys, segs: seq<nat>)
    requires s.proc.None? && StrictlyAscending(segs) && forall n | n in segs :: n in s.disk
    ensures Run(c, s, Heals(segs), s.(disk := HealedUpto(c, s.disk, segs)))
    decreases |segs|
  {
    hide ValidLength, Run;
    if segs == [] {
      RunNone(c, s);
      assert HealedUpto(c, s.disk, []) == s.disk;
    } else {
      var k := |segs| - 1;
      var init := segs[..k];
      HealRun(c, s, init);
      var mid := s.(disk := HealedUpto(c, s.disk, init));
      assert segs[k] !in init;
      RunSnoc(c, s, Heals(init), mid, Heal(segs[k]));
      assert Heals(init) + [Heal(segs[k])] == Heals(segs);
      assert forall n :: n in segs <==> n in init || n == segs[k];
      assert HealedAt(c, mid.disk, segs[k]) == HealedUpto(c, s.disk, segs);
    }
  }

  /** Opening, truncation by truncation in listing order, is a run of the machine that ends with
      the directory `Open` leaves; a crash between two truncations is a prefix of it. */
  lemma OpenIsRun(c: Codec, s: Sys, segs: seq<nat>, mem: Memory, cur: nat) returns (end: Sys)
    requires Lossless(c) && s.proc.None? && IsListing(segs, s.disk) && FilesHealable(c, s.disk)
    requires if s.disk == map[] then cur == 0 else cur in s.disk && forall n | n in s.disk :: n <= cur
    requires Recovers(OnDisk(c, s.disk, cur + 1), mem)
    ensures Run(c, s, Heals(segs) + [Reopen(mem, cur)], end)
    ensures end.disk == (if s.disk == map[] then map[0 := []] else Healed(c, s.disk))
    ensures end.proc.Some? && end.proc.value.mem == mem
  {
    hide ValidLength, Scan, Recovers, OnDisk, Run, FilesHealable, Lossless, Enabled, After, Healed, HealedUpto, Clean;
    HealRun(c, s, segs);
    HealedAll(c, s.disk, segs);
    var mid := s.(disk := Healed(c, s.disk));
    HealedClean(c, s.disk);
    HealedSame(c, s.disk, cur + 1);
    MayReopen(c, mid, mem, cur);
    RunSnoc(c, s, Heals(segs), mid, Reopen(mem, cur));
    end := After(c, mid, Reopen(mem, cur));
    assert s.disk == map[] <==> mid.disk == map[] by {
      assert mid.disk.Keys == s.disk.Keys;
    }
  }

  lemma HealedAll(c: Codec, disk: Disk, segs: seq<nat>)
    requires IsListing(segs, disk)
    ensures HealedUpto(c, disk, segs) == Healed(c, disk)
  {
  }

  lemma MayReopen(c: Codec, s: Sys, mem: Memory, cur: nat)
    requires s.proc.None? && Clean(c, s.disk) && Recovers(OnDisk(c, s.disk, cur + 1), mem)
    requires if s.disk.Keys == {} then cur == 0 else cur in s.disk && forall n | n in s.disk :: n <= cur
    ensures Enabled(c, s, Reopen(mem, cur))
    ensures var end := After(c, s, Reopen(mem, cur));
      && end.disk == (if s.disk == map[] then map[0 := []] else s.disk)
      && end.proc.Some? && end.proc.value.mem == mem
  {
    assert s.disk == map[] <==> s.disk.Keys == {};
  }

  lemma HealedClean(c: Codec, disk: Disk)
    requires Lossless(c) && FilesHealable(c, disk)
    ensures Clean(c, Healed(c, disk))
  {
    forall n | n in disk ensures ValidLength(c, Healed(c, disk)[n]) == |Healed(c, disk)[n]| {
      HealIsIntact(c, disk[n]);
      CleanTail(c, Scan(c, disk[n]));
    }
  }

  lemma HealedSame(c: Codec, disk: Disk, top: nat)
    requires Lossless(c) && FilesHealable(c, disk)
    ensures OnDisk(c, Healed(c, disk), top) == OnDisk(c, disk, top)
  {
    hide ValidLength, Scan, Records, EncodeAll;
    forall n | n in disk ensures Scan(c, Healed(c, disk)[n]) == Scan(c, disk[n]) {
      HealIsIntact(c, disk[n]);
    }
    assert View(c, Healed(c, disk)) == View(c, disk);
  }
}
