/** The Go server's snapshot plus write-ahead log, and version-guarded loading. */
module GoWal {
  import opened Basics
  import opened Json
  import opened GoStore

  datatype Rec = Put(key: string, version: nat, value: Value) | Del(key: string, version: nat)

  /** The log file: whole records, and what a crash in mid record leaves behind. */
  datatype Piece = Whole(r: Rec) | Torn

  type Entries = map<string, StateEntry>

  /** Keys in force after the records, as the running server had them. */
  function Live(recs: seq<Rec>): Entries
    decreases |recs|
  {
    if recs == [] then map[]
    else
      var m := Live(recs[..|recs| - 1]);
      match recs[|recs| - 1]
      case Put(k, version, value) => m[k := StateEntry(value, version)]
      case Del(k, _) => m - {k}
  }

  /** Versions rise, as one counter issues them between two restarts. */
  predicate History(recs: seq<Rec>) {
    && (forall i | 0 <= i < |recs| :: 0 < recs[i].version)
    && (forall i, j | 0 <= i < j < |recs| :: recs[i].version < recs[j].version)
  }

  /** A record may follow an entry of the same key: a Put is newer, a Del at least as new. */
  predicate Follows(r: Rec, version: nat) {
    if r.Put? then version < r.version else version <= r.version
  }

  /** Per key, each record follows every Put before it; versions may repeat otherwise. */
  predicate KeyOrdered(recs: seq<Rec>) {
    forall p, q | 0 <= p < q < |recs| && recs[p].key == recs[q].key != "" && recs[p].Put? :: Follows(recs[q], recs[p].version)
  }

  /** The log from record `j` on is ordered per key, and the records from `i` on follow the
      entries of the snapshot taken there. */
  ghost predicate Orderly(recs: seq<Rec>, i: nat, j: nat)
    requires i <= |recs| && j <= |recs|
  {
    && KeyOrdered(recs[j..])
    && (forall q | j <= q < |recs| && recs[q].Put? :: 0 < recs[q].version)
    && (forall k | k in Live(recs[..i]) && k != "" :: 0 < Live(recs[..i])[k].version)
    && (forall q | i <= q < |recs| && recs[q].key != "" && recs[q].key in Live(recs[..i]) ::
          Follows(recs[q], Live(recs[..i])[recs[q].key].version))
  }

  /** The store while loading: entries and the global counter. */
  datatype Loading = Loading(entries: Entries, global: nat)

  /** `LoadEntry`: only a newer version gets in; the counter always advances. */
  function LoadEntry(s: Loading, k: string, version: nat, value: Value): Loading {
    var cur := if k in s.entries then s.entries[k].version else 0;
    Loading(if version > cur then s.entries[k := StateEntry(value, version)] else s.entries, Max(s.global, version))
  }

  /** `LoadDelete`: only a version at least as new removes; the counter stays. */
  function LoadDelete(s: Loading, k: string, version: nat): Loading {
    if k in s.entries && version >= s.entries[k].version then s.(entries := s.entries - {k}) else s
  }

  /** One WAL record; an empty key is skipped. */
  function LoadRec(s: Loading, r: Rec): Loading {
    if r.key == "" then s
    else
      match r
      case Put(k, version, value) => LoadEntry(s, k, version, value)
      case Del(k, version) => LoadDelete(s, k, version)
  }

  function LoadRecs(s: Loading, recs: seq<Rec>): Loading
    decreases |recs|
  {
    if recs == [] then s else LoadRec(LoadRecs(s, recs[..|recs| - 1]), recs[|recs| - 1])
  }

  /** The newest version among a map's entries under non-empty keys; 0 for none. */
  ghost predicate IsTopVersion(m: Entries, top: nat) {
    && (forall k | k in m && k != "" :: m[k].version <= top)
    && (top == 0 || exists k | k in m && k != "" :: m[k].version == top)
  }

  // ---------- LoadAll ----------

  /** The snapshot half of `LoadAll`, entries in any order. */
  method LoadSnapshot(snap: Entries) returns (s: Loading)
    requires forall k | k in snap && k != "" :: 0 < snap[k].version
    ensures s.entries == snap - {""} && IsTopVersion(snap, s.global)
  {
    s := Loading(map[], 0);
    var todo := snap.Keys;
    while todo != {}
      invariant todo <= snap.Keys
      invariant s.entries.Keys == snap.Keys - todo - {""}
      invariant forall k | k in s.entries :: s.entries[k] == snap[k]
      invariant IsTopVersion(s.entries, s.global)
      decreases todo
    {
      var k :| k in todo;
      todo := todo - {k};
      if k != "" {
        ghost var before := s;
        s := LoadEntry(s, k, snap[k].version, snap[k].value);
        assert s.entries == before.entries[k := snap[k]];
        TopAfter(before.entries, before.global, k, snap[k]);
      }
    }
    assert s.entries == snap - {""};
  }

  lemma TopAfter(m: Entries, top: nat, k: string, e: StateEntry)
    requires IsTopVersion(m, top) && k !in m && k != ""
    ensures IsTopVersion(m[k := e], Max(top, e.version))
  {
    var m' := m[k := e];
    if top <= e.version {
      assert m'[k].version == e.version;
    } else {
      var j :| j in m && j != "" && m[j].version == top;
      assert m'[j].version == top;
    }
  }

  /** The records before the first that cannot be decoded. */
  function Readable(wal: seq<Piece>): (r: seq<Rec>)
    ensures |r| <= |wal|
    ensures forall i | 0 <= i < |r| :: wal[i] == Whole(r[i])
    ensures |r| < |wal| ==> wal[|r|] == Torn
    decreases |wal|
  {
    if wal == [] || wal[0].Torn? then [] else [wal[0].r] + Readable(wal[1..])
  }

  /** The WAL half of `LoadAll`: stops at the first record that cannot be decoded. */
  method ReplayWal(s0: Loading, wal: seq<Piece>) returns (s: Loading)
    ensures s == LoadRecs(s0, Readable(wal))
  {
    s := s0;
    var i := 0;
    while i < |wal| && wal[i].Whole?
      invariant 0 <= i <= |Readable(wal)|
      invariant s == LoadRecs(s0, Readable(wal)[..i])
    {
      assert Readable(wal)[..i + 1][..i] == Readable(wal)[..i];
      s := LoadRec(s, wal[i].r);
      i := i + 1;
    }
    assert Readable(wal)[..i] == Readable(wal);
  }

  /** `LoadAll`: for a snapshot taken after `i` records and a log whose readable part starts at
      record `j`, the loaded keys, values and versions are exactly the final ones. */
  method LoadAll(ghost recs: seq<Rec>, ghost i: nat, ghost j: nat, snap: Entries, wal: seq<Piece>) returns (s: Loading)
    requires j <= i <= |recs| && Orderly(recs, i, j)
    requires snap == Live(recs[..i]) && Readable(wal) == recs[j..]
    ensures s.entries == Live(recs) - {""}
    ensures forall k | k in snap && k != "" :: snap[k].version <= s.global
    ensures forall q | j <= q < |recs| && recs[q].Put? && recs[q].key != "" :: recs[q].version <= s.global
    ensures s.global == 0 || OnFile(snap, recs[j..], s.global)
  {
    hide Live, LoadRecs, Orderly, OnFile;
    assert forall k | k in snap && k != "" :: 0 < snap[k].version by { SnapshotPositive(recs, i, j); }
    s := LoadSnapshot(snap);
    ghost var s0 := s;
    s := ReplayWal(s, wal);
    Overlap(recs, i, j, s0);
    CounterRises(s0, recs[j..]);
    assert forall q | j <= q < |recs| :: recs[q] == recs[j..][q - j];
    CounterIsOnFile(snap, s0, recs[j..]);
  }

  lemma SnapshotPositive(recs: seq<Rec>, i: nat, j: nat)
    requires i <= |recs| && j <= |recs| && Orderly(recs, i, j)
    ensures forall k | k in Live(recs[..i]) && k != "" :: 0 < Live(recs[..i])[k].version
  {
  }

  // ---------- one key's records ----------

  predicate HasRec(recs: seq<Rec>, k: string) {
    exists p | 0 <= p < |recs| :: recs[p].key == k
  }

  /** What one key amounts to after a run of records that starts without it. */
  function FromNothing(recs: seq<Rec>, k: string): Option<StateEntry>
    decreases |recs|
  {
    if recs == [] then None
    else
      var r := recs[|recs| - 1];
      if r.key != k then FromNothing(recs[..|recs| - 1], k)
      else if r.Put? then Some(StateEntry(r.value, r.version))
      else None
  }

  function EntryAt(m: Entries, k: string): Option<StateEntry> {
    if k in m then Some(m[k]) else None
  }

  lemma {:induction false} LiveLookup(recs: seq<Rec>, k: string)
    ensures EntryAt(Live(recs), k) == FromNothing(recs, k)
    decreases |recs|
  {
    if recs != [] {
      LiveLookup(recs[..|recs| - 1], k);
    }
  }

  /** A run of records that mentions the key decides it; one that does not leaves it alone. */
  lemma {:induction false} Decided(recs: seq<Rec>, j: nat, k: string)
    requires j <= |recs|
    ensures FromNothing(recs, k) == if HasRec(recs[j..], k) then FromNothing(recs[j..], k) else FromNothing(recs[..j], k)
    decreases |recs|
  {
    var n := |recs| - 1;
    if j == |recs| {
      assert recs[..j] == recs && recs[j..] == [];
    } else {
      var w := recs[j..];
      assert w[..|w| - 1] == recs[..n][j..] && w[|w| - 1] == recs[n];
      if recs[n].key != k {
        Decided(recs[..n], j, k);
        assert recs[..n][..j] == recs[..j];
        assert HasRec(w, k) <==> HasRec(recs[..n][j..], k);
      }
    }
  }

  /** The entry a run of records leaves comes from one of its Puts. */
  lemma {:induction false} FromPut(recs: seq<Rec>, k: string) returns (q: nat)
    requires FromNothing(recs, k).Some?
    ensures q < |recs| && recs[q] == Put(k, FromNothing(recs, k).value.version, FromNothing(recs, k).value.value)
    ensures forall p | q < p < |recs| :: recs[p].key != k
    decreases |recs|
  {
    var n := |recs| - 1;
    if recs[n].key == k {
      q := n;
    } else {
      q := FromPut(recs[..n], k);
      assert forall p | 0 <= p < n :: recs[p] == recs[..n][p];
    }
  }

  // ---------- overlap is exact ----------

  /** What loading record `r` does to its own key. */
  function Guarded(cur: Option<StateEntry>, r: Rec): Option<StateEntry> {
    match r
    case Put(_, version, value) =>
      if version > (if cur.Some? then cur.value.version else 0) then Some(StateEntry(value, version)) else cur
    case Del(_, version) =>
      if cur.Some? && version >= cur.value.version then None else cur
  }

  lemma LoadOne(s: Loading, recs: seq<Rec>, k: string)
    requires recs != [] && k != ""
    ensures var n := |recs| - 1;
      EntryAt(LoadRecs(s, recs).entries, k)
      == var cur := EntryAt(LoadRecs(s, recs[..n]).entries, k);
         if recs[n].key == k then Guarded(cur, recs[n]) else cur
  {
  }

  lemma LoadNothing(s: Loading)
    ensures LoadRecs(s, []) == s
  {
  }

  /** What loading a run of records does to one key. */
  function Fold(cur: Option<StateEntry>, recs: seq<Rec>, k: string): Option<StateEntry>
    decreases |recs|
  {
    if recs == [] then cur
    else
      var n := |recs| - 1;
      if recs[n].key == k then Guarded(Fold(cur, recs[..n], k), recs[n]) else Fold(cur, recs[..n], k)
  }

  lemma {:induction false} LoadIsFold(s: Loading, recs: seq<Rec>, k: string)
    requires k != ""
    ensures EntryAt(LoadRecs(s, recs).entries, k) == Fold(EntryAt(s.entries, k), recs, k)
    decreases |recs|
  {
    hide LoadRecs, Guarded;
    if recs == [] {
      LoadNothing(s);
    } else {
      LoadIsFold(s, recs[..|recs| - 1], k);
      LoadOne(s, recs, k);
    }
  }

  /** Puts carry versions above zero. */
  predicate Positive(recs: seq<Rec>) {
    forall q | 0 <= q < |recs| && recs[q].Put? :: 0 < recs[q].version
  }

  /** Loading leaves a key as it was, or makes of it what the records alone would. */
  lemma {:induction false} FoldShape(cur: Option<StateEntry>, recs: seq<Rec>, k: string)
    requires k != "" && KeyOrdered(recs) && Positive(recs)
    ensures Fold(cur, recs, k) == cur || (HasRec(recs, k) && Fold(cur, recs, k) == FromNothing(recs, k))
    decreases |recs|
  {
    if recs != [] {
      var n := |recs| - 1;
      var init, r := recs[..n], recs[n];
      FoldShape(cur, init, k);
      assert HasRec(init, k) ==> HasRec(recs, k);
      if r.key == k {
        assert HasRec(recs, k);
        var now := Fold(cur, init, k);
        if now != cur && now.Some? {
          var q := FromPut(init, k);
          assert recs[q] == init[q];
          assert Follows(r, recs[q].version);
        }
      }
    }
  }

  /** Loading the same records again changes nothing. */
  lemma FoldAgain(cur: Option<StateEntry>, recs: seq<Rec>, k: string)
    requires k != "" && KeyOrdered(recs) && Positive(recs)
    ensures Fold(Fold(cur, recs, k), recs, k) == Fold(cur, recs, k)
  {
    FoldShape(cur, recs, k);
    FoldShape(FromNothing(recs, k), recs, k);
  }

  lemma OrderedPart(recs: seq<Rec>, j: nat, i: nat)
    requires j <= i <= |recs| && KeyOrdered(recs[j..])
    ensures KeyOrdered(recs[j..i])
  {
    assert forall p | 0 <= p < i - j :: recs[j..i][p] == recs[j..][p];
  }

  /** Records the snapshot already covers change nothing. */
  lemma CatchUp(recs: seq<Rec>, i: nat, j: nat, s0: Loading, k: string)
    requires j <= i <= |recs| && Orderly(recs, i, j) && k != ""
    requires s0.entries == Live(recs[..i]) - {""}
    ensures EntryAt(LoadRecs(s0, recs[j..i]).entries, k) == EntryAt(Live(recs[..i]), k)
  {
    hide LoadRecs, Live, KeyOrdered, FromNothing, Fold;
    var w := recs[j..i];
    OrderedPart(recs, j, i);
    assert Positive(w);
    LoadIsFold(s0, w, k);
    FoldShape(EntryAt(Live(recs[..i]), k), w, k);
    assert recs[..i][j..] == w;
    LiveLookup(recs[..i], k);
    Decided(recs[..i], j, k);
  }

  /** A record from `i` on follows the entry its key has then. */
  lemma LiveStep(recs: seq<Rec>, i: nat, j: nat, t: nat, q: nat, k: string)
    requires j <= i <= t <= q < |recs| && Orderly(recs, i, j) && recs[q].key == k != "" && k in Live(recs[..t])
    ensures Follows(recs[q], Live(recs[..t])[k].version)
  {
    hide KeyOrdered, Follows;
    LiveLookup(recs[..t], k);
    LiveLookup(recs[..i], k);
    Decided(recs[..t], i, k);
    assert recs[..t][..i] == recs[..i] && recs[..t][i..] == recs[i..t];
    if HasRec(recs[i..t], k) {
      var p := FromPut(recs[i..t], k);
      assert recs[i..t][p] == recs[j..][i + p - j] && recs[q] == recs[j..][q - j];
      Ordered(recs[j..], i + p - j, q - j);
    }
  }

  lemma Ordered(recs: seq<Rec>, p: nat, q: nat)
    requires KeyOrdered(recs) && p < q < |recs| && recs[p].key == recs[q].key != "" && recs[p].Put?
    ensures Follows(recs[q], recs[p].version)
  {
  }

  /** Past the snapshot every record takes effect. */
  lemma {:induction false} Forward(recs: seq<Rec>, i: nat, j: nat, p: nat, s: Loading, k: string)
    requires j <= i <= p <= |recs| && Orderly(recs, i, j) && k != ""
    requires EntryAt(s.entries, k) == EntryAt(Live(recs[..i]), k)
    ensures EntryAt(LoadRecs(s, recs[i..p]).entries, k) == EntryAt(Live(recs[..p]), k)
    decreases p
  {
    hide LoadRecs, KeyOrdered;
    if p == i {
      assert recs[i..p] == [];
      LoadNothing(s);
    } else {
      var r := recs[p - 1];
      LoadOne(s, recs[i..p], k);
      assert recs[i..p][..p - 1 - i] == recs[i..p - 1];
      assert recs[i..p][p - 1 - i] == r;
      assert recs[..p][..p - 1] == recs[..p - 1];
      Forward(recs, i, j, p - 1, s, k);
      if r.key == k && k in Live(recs[..p - 1]) {
        LiveStep(recs, i, j, p - 1, p - 1, k);
      }
    }
  }

  lemma {:induction false} LoadRecsAppend(s: Loading, a: seq<Rec>, b: seq<Rec>)
    ensures LoadRecs(s, a + b) == LoadRecs(LoadRecs(s, a), b)
    decreases |b|
  {
    if b == [] {
      assert a + b == a;
    } else {
      assert (a + b)[..|a + b| - 1] == a + b[..|b| - 1];
      LoadRecsAppend(s, a, b[..|b| - 1]);
    }
  }

  lemma {:induction false} EmptyKeyIgnored(s: Loading, recs: seq<Rec>)
    requires "" !in s.entries
    ensures "" !in LoadRecs(s, recs).entries
    decreases |recs|
  {
    if recs != [] {
      EmptyKeyIgnored(s, recs[..|recs| - 1]);
    }
  }

  lemma OverlapKey(recs: seq<Rec>, i: nat, j: nat, s0: Loading, k: string)
    requires j <= i <= |recs| && Orderly(recs, i, j) && k != ""
    requires s0.entries == Live(recs[..i]) - {""}
    ensures EntryAt(LoadRecs(s0, recs[j..]).entries, k) == EntryAt(Live(recs), k)
  {
    hide LoadRecs, Live, FromNothing, Orderly;
    assert recs[j..] == recs[j..i] + recs[i..];
    LoadRecsAppend(s0, recs[j..i], recs[i..]);
    CatchUp(recs, i, j, s0, k);
    assert recs[i..|recs|] == recs[i..] && recs[..|recs|] == recs;
    Forward(recs, i, j, |recs|, LoadRecs(s0, recs[j..i]), k);
  }

  /** Overlapping snapshot and log: replaying records the snapshot already covers changes
      nothing, also when versions repeat across a restart. */
  lemma Overlap(recs: seq<Rec>, i: nat, j: nat, s0: Loading)
    requires j <= i <= |recs| && Orderly(recs, i, j)
    requires s0.entries == Live(recs[..i]) - {""}
    ensures LoadRecs(s0, recs[j..]).entries == Live(recs) - {""}
  {
    hide LoadRecs, Live, Orderly;
    EmptyKeyIgnored(s0, recs[j..]);
    var got, want := LoadRecs(s0, recs[j..]).entries, Live(recs) - {""};
    forall k ensures EntryAt(got, k) == EntryAt(want, k) {
      if k != "" {
        OverlapKey(recs, i, j, s0, k);
      }
    }
    SameEntries(got, want);
  }

  lemma SameEntries(a: Entries, b: Entries)
    requires forall k :: EntryAt(a, k) == EntryAt(b, k)
    ensures a == b
  {
    assert forall k :: k in a <==> EntryAt(a, k).Some?;
    assert forall k :: k in b <==> EntryAt(b, k).Some?;
    assert a.Keys == b.Keys;
    forall k | k in a ensures a[k] == b[k] {
      assert EntryAt(a, k) == EntryAt(b, k);
    }
  }

  // ---------- the version counter ----------

  lemma {:induction false} CounterRises(s: Loading, recs: seq<Rec>)
    ensures s.global <= LoadRecs(s, recs).global
    ensures forall q | 0 <= q < |recs| && recs[q].Put? && recs[q].key != "" :: recs[q].version <= LoadRecs(s, recs).global
    decreases |recs|
  {
    if recs != [] {
      CounterRises(s, recs[..|recs| - 1]);
      assert forall q | 0 <= q < |recs| - 1 :: recs[q] == recs[..|recs| - 1][q];
    }
  }

  lemma {:induction false} CounterBelow(s: Loading, recs: seq<Rec>, bound: nat)
    requires s.global < bound
    requires forall i | 0 <= i < |recs| && recs[i].Put? && recs[i].key != "" :: recs[i].version < bound
    ensures LoadRecs(s, recs).global < bound
    decreases |recs|
  {
    if recs != [] {
      CounterBelow(s, recs[..|recs| - 1], bound);
    }
  }

  /** A version is still on file: a snapshot entry or a Put of the readable log carries it. */
  ghost predicate OnFile(snap: Entries, recs: seq<Rec>, version: nat) {
    || (exists k | k in snap && k != "" :: snap[k].version == version)
    || (exists q | 0 <= q < |recs| && recs[q].Put? && recs[q].key != "" :: recs[q].version == version)
  }

  /** The counter after loading is a version on file, or zero. */
  lemma {:induction false} CounterIsOnFile(snap: Entries, s0: Loading, recs: seq<Rec>)
    requires IsTopVersion(snap, s0.global)
    ensures var g := LoadRecs(s0, recs).global; g == 0 || OnFile(snap, recs, g)
    decreases |recs|
  {
    if recs != [] {
      var n := |recs| - 1;
      CounterIsOnFile(snap, s0, recs[..n]);
      var before := LoadRecs(s0, recs[..n]).global;
      if before != 0 {
        if q :| 0 <= q < n && recs[..n][q].Put? && recs[..n][q].key != "" && recs[..n][q].version == before {
          assert recs[q].version == before;
        }
      }
      assert recs[n].Put? && recs[n].key != "" ==> OnFile(snap, recs, recs[n].version);
    }
  }

  /** Deletes do not advance the counter and evictions leave no record. Whatever happened, after
      loading the counter covers the newest version issued exactly when that version is still
      on file. */
  lemma CounterExact(snap: Entries, s0: Loading, recs: seq<Rec>, newest: nat)
    requires IsTopVersion(snap, s0.global) && 0 < newest
    requires forall k | k in snap && k != "" :: snap[k].version <= newest
    requires forall q | 0 <= q < |recs| && recs[q].Put? && recs[q].key != "" :: recs[q].version <= newest
    ensures newest <= LoadRecs(s0, recs).global <==> OnFile(snap, recs, newest)
  {
    hide LoadRecs;
    CounterRises(s0, recs);
    if !OnFile(snap, recs, newest) {
      CounterBelow(s0, recs, newest);
    }
  }

  /** Live versions come from Put records. */
  lemma {:induction false} LiveFromPut(recs: seq<Rec>, k: string)
    requires k in Live(recs)
    ensures exists i | 0 <= i < |recs| :: recs[i] == Put(k, Live(recs)[k].version, Live(recs)[k].value)
    decreases |recs|
  {
    var n := |recs| - 1;
    if recs[n].key == k {
      assert recs[n] == Put(k, Live(recs)[k].version, Live(recs)[k].value);
    } else {
      LiveFromPut(recs[..n], k);
      var i :| 0 <= i < n && recs[..n][i] == Put(k, Live(recs[..n])[k].version, Live(recs[..n])[k].value);
      assert recs[i] == recs[..n][i];
    }
  }

  /** Without evictions, between two restarts: the counter covers every version issued exactly
      when the last record is not a delete. */
  lemma CounterOfLog(recs: seq<Rec>, i: nat, j: nat, s0: Loading)
    requires History(recs) && recs != [] && j <= i <= |recs|
    requires forall n | 0 <= n < |recs| :: recs[n].key != ""
    requires s0.entries == Live(recs[..i]) - {""} && IsTopVersion(Live(recs[..i]), s0.global)
    ensures (forall n | 0 <= n < |recs| :: recs[n].version <= LoadRecs(s0, recs[j..]).global)
            <==> recs[|recs| - 1].Put?
  {
    hide LoadRecs, IsTopVersion, Live;
    var last, snap := recs[|recs| - 1], Live(recs[..i]);
    forall k | k in snap && k != "" ensures snap[k].version <= last.version && (snap[k].version == last.version ==> last.Put?) {
      LiveFromPut(recs[..i], k);
      var n :| 0 <= n < i && recs[..i][n] == Put(k, snap[k].version, snap[k].value);
      assert recs[n].Put?;
    }
    CounterExact(snap, s0, recs[j..], last.version);
    if last.Put? {
      LastOnFile(recs, i, j);
    } else {
      forall q | 0 <= q < |recs[j..]| && recs[j..][q].Put? ensures recs[j..][q].version < last.version {
        assert recs[j..][q] == recs[j + q];
      }
    }
  }

  lemma LastOnFile(recs: seq<Rec>, i: nat, j: nat)
    requires recs != [] && j <= i <= |recs| && recs[|recs| - 1].Put? && recs[|recs| - 1].key != ""
    ensures OnFile(Live(recs[..i]), recs[j..], recs[|recs| - 1].version)
  {
    var last := recs[|recs| - 1];
    if j < |recs| {
      assert recs[j..][|recs[j..]| - 1] == last;
    } else {
      assert recs[..i] == recs;
      assert last.key in Live(recs) && Live(recs)[last.key].version == last.version;
    }
  }
}
