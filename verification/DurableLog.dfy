/** The segmented log over every run of writes, rotations, compactions, crashes and
    reopenings. Each file-system call is a step of its own and a crash may cut any write
    short at any byte. */
module DurableLog {
  import opened Basics
  import opened Json
  import opened Wire
  import opened Store
  import opened Segment
  import opened Recovery
  import opened Matching

  const MAX_ENTRIES: nat := 100_000
  const MAX_SEGMENTS: nat := 3

  /** Segment number to file contents. */
  type Disk = map<nat, seq<Byte>>

  /** Entries of segments 0 to `n`, exclusive, in ascending segment order. */
  function Records(segs: map<nat, seq<LogEntry>>, n: nat): seq<LogEntry> {
    if n == 0 then []
    else Records(segs, n - 1) + (if n - 1 in segs then segs[n - 1] else [])
  }

  function View(c: Codec, disk: Disk): (v: map<nat, seq<LogEntry>>)
    ensures v.Keys == disk.Keys
  {
    map n | n in disk :: Scan(c, disk[n])
  }

  /** What replaying all segments below `top` yields. */
  function OnDisk(c: Codec, disk: Disk, top: nat): seq<LogEntry> {
    Records(View(c, disk), top)
  }

  /** Only whole records. */
  ghost predicate Intact(c: Codec, file: seq<Byte>) {
    AllFit(c, Scan(c, file)) && file == EncodeAll(c, Scan(c, file))
  }

  /** Whole records and perhaps a torn tail that truncation removes. */
  ghost predicate Healable(c: Codec, file: seq<Byte>) {
    AllFit(c, Scan(c, file)) && file[..ValidLength(c, file)] == EncodeAll(c, Scan(c, file))
  }

  function Healed(c: Codec, disk: Disk): (r: Disk)
    ensures r.Keys == disk.Keys
  {
    map n | n in disk :: disk[n][..ValidLength(c, disk[n])]
  }

  /** No segment has a torn tail. */
  predicate Clean(c: Codec, disk: Disk) {
    forall n | n in disk :: ValidLength(c, disk[n]) == |disk[n]|
  }

  /** One segment cut back to its whole records. */
  function HealedAt(c: Codec, disk: Disk, n: nat): Disk
    requires n in disk
  {
    disk[n := disk[n][..ValidLength(c, disk[n])]]
  }

  // ---------- the machine ----------

  datatype Pc =
    | Idle
    | MustLog(e: LogEntry, t: Slot)                    // memory updated, record not yet on disk
    | MustCompact
    | Snapshotting(olds: set<nat>, snap: seq<LogEntry>) // snapshot segment created, empty
    | Snapped(olds: set<nat>)                           // snapshot written
    | Pruning(olds: set<nat>, snapSeg: nat)             // live segment open, old ones going

  datatype Proc = Proc(mem: Memory, cur: nat, count: nat, segCount: nat, pc: Pc)

  /** `saved` is memory as of the last record wholly on disk; `written` every such record so
      far; `exact` and `pruned` record whether compaction ran since opening, and ever. */
  datatype Sys = Sys(disk: Disk, top: nat, proc: Option<Proc>, saved: Memory, exact: bool,
                     written: seq<LogEntry>, pruned: bool)

  datatype Action =
    | Touch(k: string)
    | Mutate(k: string, t: Slot, ops: seq<WOp>)
    | Rotate
    | Append
    | OpenSnapshot(snap: seq<LogEntry>)
    | WriteSnapshot
    | OpenLive
    | Prune(m: nat)
    | Finish
    | Crash(cut: nat)
    | Heal(n: nat)   // opening cuts one segment back to its whole records
    | Reopen(mem: Memory, cur: nat)

  /** Bytes a process may be in the middle of writing. */
  function InFlight(c: Codec, p: Proc): seq<Byte>
    requires p.pc.MustLog? ==> Fits(c, p.pc.e)
    requires p.pc.Snapshotting? ==> AllFit(c, p.pc.snap)
  {
    match p.pc
    case MustLog(e, _) => if p.count < MAX_ENTRIES then Encode(c, e) else []
    case Snapshotting(_, snap) => EncodeAll(c, snap)
    case _ => []
  }

  predicate Sized(c: Codec, p: Proc) {
    && (p.pc.MustLog? ==> Fits(c, p.pc.e))
    && (p.pc.Snapshotting? ==> AllFit(c, p.pc.snap))
  }

  ghost predicate Enabled(c: Codec, s: Sys, a: Action) {
    if a.Heal? then s.proc.None? && a.n in s.disk
    else if a.Reopen? then
      && s.proc.None? && Clean(c, s.disk)
      && (s.disk == map[] ==> a.cur == 0)
      && (s.disk != map[] ==> a.cur in s.disk && forall n | n in s.disk :: n <= a.cur)
      && Recovers(OnDisk(c, s.disk, a.cur + 1), a.mem)
    else if s.proc.None? then false
    else
      var p := s.proc.value;
      Sized(c, p) && p.cur in s.disk &&
      match a
      case Touch(k) => p.pc.Idle? && k in p.mem.entries
      case Mutate(k, t, ops) =>
        p.pc.Idle? && ops != [] && (t.Absent? ==> k in p.mem.entries) && Fits(c, EntryFor(p.mem, k, t, ops))
      case Rotate => p.pc.MustLog? && p.count >= MAX_ENTRIES
      case Append => p.pc.MustLog? && p.count < MAX_ENTRIES
      case OpenSnapshot(snap) => p.pc.MustCompact? && IsSnapshot(p.mem, snap) && AllFit(c, snap)
      case WriteSnapshot => p.pc.Snapshotting?
      case OpenLive => p.pc.Snapped?
      case Prune(m) => p.pc.Pruning? && m in p.pc.olds && forall n | n in p.pc.olds :: m <= n
      case Finish => p.pc.Pruning? && p.pc.olds == {}
      case Crash(cut) => cut <= |InFlight(c, p)|
  }

  function Running(s: Sys, p: Proc): Sys {
    s.(proc := Some(p))
  }

  /** A new, empty segment after the current one. */
  function NewSegment(s: Sys, p: Proc): Sys {
    s.(disk := s.disk[p.cur + 1 := []], top := p.cur + 2)
  }

  function Extended(disk: Disk, n: nat, bytes: seq<Byte>): Disk
    requires n in disk
  {
    disk[n := disk[n] + bytes]
  }

  function After(c: Codec, s: Sys, a: Action): Sys
    requires Enabled(c, s, a)
  {
    if a.Heal? then s.(disk := HealedAt(c, s.disk, a.n))
    else if a.Reopen? then
      var disk := if s.disk == map[] then map[0 := []] else s.disk;
      var p := Proc(a.mem, a.cur, |Scan(c, disk[a.cur])|, |disk|, Idle);
      s.(disk := disk, top := a.cur + 1, proc := Some(p), saved := a.mem, exact := true)
    else
      var p := s.proc.value;
      match a
      case Touch(k) => Running(s, p.(mem := Touched(p.mem, k))).(saved := Touched(p.mem, k))
      case Mutate(k, t, ops) =>
        Running(s, p.(mem := Mutated(p.mem, k, t, ops), pc := MustLog(EntryFor(p.mem, k, t, ops), t)))
      case Rotate =>
        Running(NewSegment(s, p), p.(cur := p.cur + 1, count := 0, segCount := p.segCount + 1))
      case Append =>
        var e := p.pc.e;
        var pc := if p.segCount > MAX_SEGMENTS then MustCompact else Idle;
        Running(s, p.(count := p.count + 1, pc := pc))
          .(disk := Extended(s.disk, p.cur, Encode(c, e)), saved := p.mem, written := s.written + [e])
      case OpenSnapshot(snap) =>
        Running(NewSegment(s, p), p.(cur := p.cur + 1, pc := Snapshotting(s.disk.Keys, snap)))
      case WriteSnapshot =>
        Running(s, p.(pc := Snapped(p.pc.olds)))
          .(disk := Extended(s.disk, p.cur, EncodeAll(c, p.pc.snap)), written := s.written + p.pc.snap)
      case OpenLive =>
        Running(NewSegment(s, p), p.(cur := p.cur + 1, count := 0, segCount := 2, pc := Pruning(p.pc.olds, p.cur)))
          .(exact := false)
      case Prune(m) =>
        Running(s, p.(pc := p.pc.(olds := p.pc.olds - {m}))).(disk := s.disk - {m}, pruned := true)
      case Finish => Running(s, p.(pc := Idle))
      case Crash(cut) =>
        var cutBytes := InFlight(c, p)[..cut];
        var logged := p.pc.MustLog? && p.count < MAX_ENTRIES && cut == |Encode(c, p.pc.e)|;
        s.(disk := Extended(s.disk, p.cur, cutBytes), proc := None,
           saved := if logged then p.mem else s.saved,
           written := s.written + Scan(c, cutBytes))
  }

  // ---------- segments in order ----------

  lemma {:induction false} RecordsSame(a: map<nat, seq<LogEntry>>, b: map<nat, seq<LogEntry>>, n: nat)
    requires forall i | 0 <= i < n :: (i in a <==> i in b) && (i in a ==> a[i] == b[i])
    ensures Records(a, n) == Records(b, n)
    decreases n
  {
    if n > 0 {
      RecordsSame(a, b, n - 1);
    }
  }

  lemma {:induction false} RecordsTop(segs: map<nat, seq<LogEntry>>, n: nat, n': nat)
    requires n <= n' && forall i | i in segs :: i < n
    ensures Records(segs, n) == Records(segs, n')
    decreases n'
  {
    if n < n' {
      RecordsTop(segs, n, n' - 1);
    }
  }

  lemma {:induction false} RecordsDrop(segs: map<nat, seq<LogEntry>>, m: nat, n: nat)
    requires m in segs && m < n && forall i | i in segs :: m <= i
    ensures Records(segs, n) == segs[m] + Records(segs - {m}, n)
    decreases n
  {
    if n - 1 == m {
      NoRecords(segs, m);
      NoRecords(segs - {m}, m);
    } else {
      RecordsDrop(segs, m, n - 1);
    }
  }

  lemma {:induction false} NoRecords(segs: map<nat, seq<LogEntry>>, n: nat)
    requires forall i | i in segs :: n <= i
    ensures Records(segs, n) == []
    decreases n
  {
    if n > 0 {
      NoRecords(segs, n - 1);
    }
  }

  lemma {:induction false} RecordsHaveKey(segs: map<nat, seq<LogEntry>>, i: nat, n: nat, k: string)
    requires i in segs && i < n && HasKey(segs[i], k)
    ensures HasKey(Records(segs, n), k)
    decreases n
  {
    var front := Records(segs, n - 1);
    if i == n - 1 {
      var j :| 0 <= j < |segs[i]| && segs[i][j].key == k;
      assert Records(segs, n)[|front| + j] == segs[i][j];
    } else {
      RecordsHaveKey(segs, i, n - 1, k);
      var j :| 0 <= j < |front| && front[j].key == k;
      assert Records(segs, n)[j] == front[j];
    }
  }

  lemma RecordsExtend(segs: map<nat, seq<LogEntry>>, cur: nat, es: seq<LogEntry>)
    requires cur in segs
    ensures Records(segs[cur := segs[cur] + es], cur + 1) == Records(segs, cur + 1) + es
  {
    RecordsSame(segs, segs[cur := segs[cur] + es], cur);
  }

  lemma ScanExtended(c: Codec, file: seq<Byte>, bytes: seq<Byte>)
    requires Lossless(c) && Intact(c, file)
    ensures Scan(c, file + bytes) == Scan(c, file) + Scan(c, bytes)
  {
    ScanAfter(c, Scan(c, file), bytes);
  }

  /** Writing to the last segment appends to the replayed entries. */
  lemma ExtendRecords(c: Codec, disk: Disk, cur: nat, bytes: seq<Byte>)
    requires Lossless(c) && cur in disk && Intact(c, disk[cur])
    ensures OnDisk(c, Extended(disk, cur, bytes), cur + 1) == OnDisk(c, disk, cur + 1) + Scan(c, bytes)
  {
    hide Scan, Records, Intact, Lossless;
    ScanExtended(c, disk[cur], bytes);
    RecordsExtend(View(c, disk), cur, Scan(c, bytes));
    assert View(c, Extended(disk, cur, bytes)) == View(c, disk)[cur := View(c, disk)[cur] + Scan(c, bytes)];
  }

  lemma CreateRecords(c: Codec, disk: Disk, cur: nat)
    requires forall n | n in disk :: n <= cur
    ensures OnDisk(c, disk[cur + 1 := []], cur + 2) == OnDisk(c, disk, cur + 1)
  {
    RecordsSame(View(c, disk), View(c, disk[cur + 1 := []]), cur + 1);
    assert Scan(c, []) == [];
  }

  lemma PruneRecords(c: Codec, disk: Disk, m: nat, top: nat)
    requires m in disk && m < top && forall n | n in disk :: m <= n
    ensures OnDisk(c, disk, top) == Scan(c, disk[m]) + OnDisk(c, disk - {m}, top)
  {
    RecordsDrop(View(c, disk), m, top);
    assert View(c, disk) - {m} == View(c, disk - {m});
  }

  // ---------- files ----------

  lemma WriteIntact(c: Codec, file: seq<Byte>, es: seq<LogEntry>)
    requires Lossless(c) && Intact(c, file) && AllFit(c, es)
    ensures Intact(c, file + EncodeAll(c, es)) && Scan(c, EncodeAll(c, es)) == es
    ensures Scan(c, file + EncodeAll(c, es)) == Scan(c, file) + es
  {
    CleanTail(c, es);
    ScanAfter(c, Scan(c, file), EncodeAll(c, es));
    EncodeAppend(c, Scan(c, file), es);
  }

  lemma {:induction false} EncodeAppend(c: Codec, a: seq<LogEntry>, b: seq<LogEntry>)
    requires AllFit(c, a) && AllFit(c, b)
    ensures AllFit(c, a + b) && EncodeAll(c, a + b) == EncodeAll(c, a) + EncodeAll(c, b)
    decreases |a|
  {
    if a == [] {
      assert a + b == b;
    } else {
      assert (a + b)[1..] == a[1..] + b;
      EncodeAppend(c, a[1..], b);
    }
  }

  lemma EncodeOne(c: Codec, e: LogEntry)
    requires Fits(c, e)
    ensures EncodeAll(c, [e]) == Encode(c, e)
  {
    assert [e][1..] == [];
  }

  /** A write cut anywhere leaves a file that truncation repairs. */
  lemma CutHealable(c: Codec, file: seq<Byte>, es: seq<LogEntry>, cut: nat) returns (n: nat)
    requires Lossless(c) && Intact(c, file) && AllFit(c, es) && cut <= |EncodeAll(c, es)|
    ensures Healable(c, file + EncodeAll(c, es)[..cut])
    ensures n <= |es| && Scan(c, EncodeAll(c, es)[..cut]) == es[..n]
  {
    var tail := EncodeAll(c, es)[..cut];
    n := CutBatch(c, es, cut);
    ScanAfter(c, Scan(c, file), tail);
    EncodeAppend(c, Scan(c, file), es[..n]);
    var b := file + tail;
    assert b[..ValidLength(c, b)] == file + tail[..ValidLength(c, tail)];
  }

  lemma IntactIsHealable(c: Codec, file: seq<Byte>)
    requires Lossless(c) && Intact(c, file)
    ensures Healable(c, file)
  {
    CleanTail(c, Scan(c, file));
  }

  lemma HealIsIntact(c: Codec, file: seq<Byte>)
    requires Lossless(c) && Healable(c, file)
    ensures Intact(c, file[..ValidLength(c, file)]) && Scan(c, file[..ValidLength(c, file)]) == Scan(c, file)
  {
    CleanTail(c, Scan(c, file));
  }

  /** Truncating one segment changes no replayed record and leaves that segment whole. */
  lemma HealRecords(c: Codec, disk: Disk, n: nat, top: nat)
    requires Lossless(c) && n in disk && forall i | i in disk :: Healable(c, disk[i])
    ensures OnDisk(c, HealedAt(c, disk, n), top) == OnDisk(c, disk, top)
    ensures Intact(c, HealedAt(c, disk, n)[n])
    ensures forall i | i in disk :: Healable(c, HealedAt(c, disk, n)[i])
  {
    hide Scan, EncodeAll, Records, Intact, Healable;
    HealIsIntact(c, disk[n]);
    IntactIsHealable(c, HealedAt(c, disk, n)[n]);
    assert View(c, HealedAt(c, disk, n)) == View(c, disk);
  }

  lemma CleanIsIntact(c: Codec, disk: Disk, n: nat)
    requires Clean(c, disk) && n in disk && Healable(c, disk[n])
    ensures Intact(c, disk[n])
  {
    assert disk[n][..|disk[n]|] == disk[n];
  }
}
