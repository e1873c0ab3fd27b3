/** The Go server's store: a circular delta log per key. */
module GoStore {
  import opened Basics
  import opened Json
  import Delta
  import opened Paths
  import opened Wire
  import opened Schedule
  import opened GoDiff

  datatype DeltaEntry = DeltaEntry(key: string, version: nat, ops: seq<WOp>)
  datatype StateEntry = StateEntry(value: Value, version: nat)

  predicate Rising(ds: seq<DeltaEntry>) {
    forall i, j | 0 <= i < j < |ds| :: ds[i].version < ds[j].version
  }

  /** The entries newer than `since`, in order. */
  function Newer(ds: seq<DeltaEntry>, since: nat): seq<DeltaEntry>
    decreases |ds|
  {
    if ds == [] then []
    else Newer(ds[..|ds| - 1], since) + (if ds[|ds| - 1].version > since then [ds[|ds| - 1]] else [])
  }

  lemma {:induction false} NewerAppend(a: seq<DeltaEntry>, b: seq<DeltaEntry>, since: nat)
    ensures Newer(a + b, since) == Newer(a, since) + Newer(b, since)
    decreases |b|
  {
    if b == [] {
      assert a + b == a;
    } else {
      var n := |b| - 1;
      assert (a + b)[..|a + b| - 1] == a + b[..n];
      assert (a + b)[|a + b| - 1] == b[n];
      NewerAppend(a, b[..n], since);
    }
  }

  lemma {:induction false} NewerNone(ds: seq<DeltaEntry>, since: nat)
    requires forall i | 0 <= i < |ds| :: ds[i].version <= since
    ensures Newer(ds, since) == []
    decreases |ds|
  {
    if ds != [] {
      NewerNone(ds[..|ds| - 1], since);
    }
  }

  /** Position `i` of a ring of size `cap` that starts at `start`. */
  function Wrap(start: nat, i: nat, cap: nat): (r: nat)
    requires start < cap && i < cap
    ensures r < cap && r == if start + i < cap then start + i else start + i - cap
  {
    (start + i) % cap
  }

  /** The position after `head`. */
  function Next(head: nat, cap: nat): (r: nat)
    requires head < cap
    ensures r == if head + 1 < cap then head + 1 else 0
  {
    (head + 1) % cap
  }

  function Start(head: nat, len: nat, cap: nat): nat {
    if len < cap then 0 else head
  }

  /** `ringLog` as a value: a fixed buffer overwritten in circles. */
  datatype Ring = Ring(buf: seq<DeltaEntry>, head: nat, len: nat, cap: nat)

  predicate RingOk(r: Ring) {
    0 < r.cap == |r.buf| && r.head < r.cap && r.len <= r.cap && (r.len < r.cap ==> r.head == r.len)
  }

  /** What a ring holds, oldest first. */
  function Contents(r: Ring): (c: seq<DeltaEntry>)
    requires RingOk(r)
    ensures |c| == r.len
    ensures forall i | 0 <= i < r.len :: c[i] == r.buf[Wrap(Start(r.head, r.len, r.cap), i, r.cap)]
  {
    seq(r.len, i requires 0 <= i < r.len => r.buf[Wrap(Start(r.head, r.len, r.cap), i, r.cap)])
  }

  const NO_ENTRY: DeltaEntry := DeltaEntry("", 0, [])

  function NewRing(cap: nat): Ring {
    Ring(seq(cap, _ => NO_ENTRY), 0, 0, cap)
  }

  /** `push` */
  function PushRing(r: Ring, e: DeltaEntry): Ring
    requires RingOk(r)
  {
    Ring(r.buf[r.head := e], Next(r.head, r.cap), if r.len < r.cap then r.len + 1 else r.len, r.cap)
  }

  /** Across wrap-around, pushing appends, and drops the oldest entry of a full ring. */
  lemma PushContents(r: Ring, e: DeltaEntry)
    requires RingOk(r)
    ensures RingOk(PushRing(r, e)) && Contents(PushRing(r, e)) == Newest(Contents(r) + [e], r.cap)
  {
    hide Wrap, Next;
    var q := PushRing(r, e);
    var want := Newest(Contents(r) + [e], r.cap);
    forall i | 0 <= i < q.len ensures Contents(q)[i] == want[i] {
      if r.len == r.cap && i < r.cap - 1 {
        assert Wrap(q.head, i, r.cap) == Wrap(r.head, i + 1, r.cap);
      }
    }
    assert Contents(q) == want;
  }

  lemma NewestTwice(s: seq<DeltaEntry>, e: DeltaEntry, cap: nat)
    requires 0 < cap
    ensures Newest(Newest(s, cap) + [e], cap) == Newest(s + [e], cap)
  {
  }

  /** `ringLog`, in place. `pushed` is everything ever pushed. */
  class RingLog {
    const cap: nat
    var buf: array<DeltaEntry>
    var head: nat
    var len: nat
    ghost var pushed: seq<DeltaEntry>

    ghost function View(): Ring
      reads this, buf
    {
      Ring(buf[..], head, len, cap)
    }

    ghost predicate Valid()
      reads this, buf
    {
      RingOk(View()) && Contents(View()) == Newest(pushed, cap)
    }

    constructor (capacity: nat)
      requires 0 < capacity
      ensures Valid() && cap == capacity && pushed == [] && fresh(buf) && View() == NewRing(capacity)
    {
      cap := capacity;
      buf := new DeltaEntry[capacity](_ => NO_ENTRY);
      head, len := 0, 0;
      pushed := [];
    }

    /** Overwrite the slot at `head`; the ring then holds the newest `cap` entries. */
    method Push(e: DeltaEntry)
      requires Valid()
      modifies this`head, this`len, this`pushed, buf
      ensures Valid() && pushed == old(pushed) + [e] && View() == PushRing(old(View()), e)
    {
      hide Wrap, Next, Newest, Contents;
      PushContents(View(), e);
      NewestTwice(pushed, e, cap);
      ghost var b := buf[..][head := e];
      buf[head] := e;
      assert buf[..] == b;
      head := Next(head, cap);
      if len < cap {
        len := len + 1;
      }
      pushed := pushed + [e];
    }
  }

  /** The scan of `DeltasSince`: what the ring holds with a version above `since`, oldest first. */
  method Scan(ring: Ring, since: nat) returns (r: seq<DeltaEntry>)
    requires RingOk(ring)
    ensures r == Newer(Contents(ring), since)
  {
    r := [];
    var start := Start(ring.head, ring.len, ring.cap);
    var i := 0;
    while i < ring.len
      invariant 0 <= i <= ring.len
      invariant r == Newer(Contents(ring)[..i], since)
    {
      var d := ring.buf[Wrap(start, i, ring.cap)];
      assert Contents(ring)[..i + 1][..i] == Contents(ring)[..i];
      if d.version > since {
        r := r + [d];
      }
      i := i + 1;
    }
    assert Contents(ring)[..i] == Contents(ring);
  }

  const U64: nat := 0x1_0000_0000_0000_0000

  /** When the ring reaches back to `since`, it holds everything logged after `since`. */
  lemma RingCovers(logged: seq<DeltaEntry>, kept: seq<DeltaEntry>, since: nat)
    requires Rising(logged) && IsSuffix(kept, logged) && kept != []
    requires kept[0].version <= since + 1
    ensures Newer(kept, since) == Newer(logged, since)
  {
    hide Newer;
    var n := |logged| - |kept|;
    assert logged == logged[..n] + kept;
    forall i | 0 <= i < n ensures logged[..n][i].version <= since {
      assert logged[i].version < logged[n].version;
    }
    NewerNone(logged[..n], since);
    NewerAppend(logged[..n], kept, since);
  }

  lemma LogOne(logged: seq<DeltaEntry>, kept: seq<DeltaEntry>, e: DeltaEntry, cap: nat)
    requires Rising(logged) && IsSuffix(kept, logged) && 0 < cap
    requires forall i | 0 <= i < |logged| :: logged[i].version < e.version
    ensures Rising(logged + [e]) && IsSuffix(Newest(kept + [e], cap), logged + [e])
  {
    assert IsSuffix(kept + [e], logged + [e]);
  }

  /** One key: the retained entries are the newest logged ones, in rising version order. */
  ghost predicate KeyOk(kept: seq<DeltaEntry>, logged: seq<DeltaEntry>, global: nat) {
    && Rising(logged) && IsSuffix(kept, logged)
    && (forall i | 0 <= i < |logged| :: logged[i].version <= global)
  }

  lemma KeyLogs(kept: seq<DeltaEntry>, logged: seq<DeltaEntry>, global: nat, e: DeltaEntry, cap: nat)
    requires KeyOk(kept, logged, global) && e.version == global + 1 && 0 < cap
    ensures KeyOk(Newest(kept + [e], cap), logged + [e], global + 1)
  {
    hide Newest, IsSuffix;
    LogOne(logged, kept, e, cap);
  }

  lemma KeyLater(kept: seq<DeltaEntry>, logged: seq<DeltaEntry>, global: nat)
    requires KeyOk(kept, logged, global)
    ensures KeyOk(kept, logged, global + 1) && KeyOk([], logged, global)
  {
  }

  function LogAt(m: map<string, seq<DeltaEntry>>, k: string): seq<DeltaEntry> {
    if k in m then m[k] else []
  }

  predicate RingsOk(m: map<string, Ring>, cap: nat) {
    forall k | k in m :: RingOk(m[k]) && m[k].cap == cap
  }

  function KeptAt(m: map<string, Ring>, k: string, cap: nat): seq<DeltaEntry>
    requires RingsOk(m, cap)
  {
    if k in m then Contents(m[k]) else []
  }

  function ValueAt(m: map<string, StateEntry>, k: string): Slot {
    if k in m then Present(m[k].value) else Absent
  }

  // ---------- what RESUME may rely on ----------

  /** One logged change of a key: a delete, or a write that replicas follow. */
  ghost predicate GoStep(show: Printer, s: Slot, t: Slot, ops: seq<WOp>) {
    match t
    case Absent => s.Present? && ops == [Delta.Remove("/")]
    case Present(w) => IsGoDelta(show, s, w, ops) && Faithful(show, s, w)
  }

  /** A key's values over time and the deltas logged between them. */
  ghost predicate GoPast(show: Printer, slots: seq<Slot>, ds: seq<DeltaEntry>) {
    |slots| == |ds| + 1 && forall i | 0 <= i < |ds| :: GoStep(show, slots[i], slots[i + 1], ds[i].ops)
  }

  function OpsOf(ds: seq<DeltaEntry>): (r: seq<seq<WOp>>)
    ensures |r| == |ds|
    ensures forall i | 0 <= i < |ds| :: r[i] == ds[i].ops
  {
    seq(|ds|, i requires 0 <= i < |ds| => ds[i].ops)
  }

  /** How many of a key's deltas a replica at version `since` has seen. */
  function Held(ds: seq<DeltaEntry>, since: nat): (n: nat)
    ensures n <= |ds|
    ensures forall i | 0 <= i < n :: ds[i].version <= since
    ensures n < |ds| ==> ds[n].version > since
    decreases |ds|
  {
    if ds == [] || ds[0].version > since then 0 else 1 + Held(ds[1..], since)
  }

  lemma {:induction false} NewerAll(ds: seq<DeltaEntry>, since: nat)
    requires forall i | 0 <= i < |ds| :: ds[i].version > since
    ensures Newer(ds, since) == ds
    decreases |ds|
  {
    if ds != [] {
      NewerAll(ds[..|ds| - 1], since);
    }
  }

  lemma NewerIsRest(ds: seq<DeltaEntry>, since: nat)
    requires Rising(ds)
    ensures Newer(ds, since) == ds[Held(ds, since)..]
  {
    hide Newer;
    var h := Held(ds, since);
    assert ds == ds[..h] + ds[h..];
    NewerAppend(ds[..h], ds[h..], since);
    NewerNone(ds[..h], since);
    forall i | 0 <= i < |ds[h..]| ensures ds[h..][i].version > since {
      assert h + i == h || ds[h].version < ds[h + i].version;
    }
    NewerAll(ds[h..], since);
  }

  lemma GoStepParses(show: Printer, s: Slot, t: Slot, ops: seq<WOp>)
    requires GoStep(show, s, t, ops) && SafeSlot(s) && SafeSlot(t)
    ensures Delta.IsStep(s, t, ParseAll(ops))
  {
    if t.Present? {
      GoDeltaParses(show, s, t.value, ops);
      if s.Present? && s.value.Object? && t.value.Object? {
        BlendExact(show, s.value, t.value);
      }
    } else {
      assert ParseAll(ops) == [Delta.Remove([])];
    }
  }

  /** Everything logged after `since`, folded onto the value held at `since`, gives the newest value. */
  lemma GoResume(show: Printer, slots: seq<Slot>, ds: seq<DeltaEntry>, since: nat)
    requires GoPast(show, slots, ds) && Rising(ds) && forall i | 0 <= i < |slots| :: SafeSlot(slots[i])
    ensures ReceiveAll(slots[Held(ds, since)], OpsOf(Newer(ds, since))) == slots[|ds|]
  {
    hide GoStep, Newer, SafeSlot, Held, ReceiveAll;
    var h := Held(ds, since);
    NewerIsRest(ds, since);
    var frames := OpsOf(ds[h..]);
    forall i | 0 <= i < |frames| ensures Delta.IsStep(slots[h..][i], slots[h..][i + 1], ParseFrames(frames)[i]) {
      GoStepParses(show, slots[h + i], slots[h + i + 1], ds[h + i].ops);
    }
    ReceiveAllIsFlat(slots[h], frames);
    Delta.Replay(slots[h..], ParseFrames(frames), 0);
  }

  function SlotsAt(m: map<string, seq<Slot>>, k: string): seq<Slot> {
    if k in m then m[k] else [Absent]
  }

  /** One key's past leads to its present, unless something unlogged or unfollowable happened. */
  ghost predicate PastOk(show: Printer, slots: seq<Slot>, ds: seq<DeltaEntry>, now: Slot) {
    GoPast(show, slots, ds) && slots[|ds|] == now
  }

  lemma PastGrows(show: Printer, slots: seq<Slot>, ds: seq<DeltaEntry>, now: Slot, t: Slot, e: DeltaEntry)
    requires PastOk(show, slots, ds, now) && GoStep(show, now, t, e.ops)
    ensures PastOk(show, slots + [t], ds + [e], t)
  {
    hide GoStep;
    var slots', ds' := slots + [t], ds + [e];
    forall i | 0 <= i < |ds'| ensures GoStep(show, slots'[i], slots'[i + 1], ds'[i].ops) {
      if i < |ds| {
        assert GoStep(show, slots[i], slots[i + 1], ds[i].ops);
      }
    }
  }

  /** The keys an eviction picks. */
  function Chosen(entries: map<string, StateEntry>, chosen: (string, Value) -> bool): set<string> {
    set k | k in entries && chosen(k, entries[k].value)
  }

  /** `StateStore`, with one ring per key; `logged` is every delta ever logged for a key,
      dropped since or not, and `past` its values in between. `odd` are the keys whose past
      replicas cannot follow: evicted, appended to, or written with values that print alike. */
  /** One more entry in the key's ring, which holds the newest `cap`; the other rings are as before. */
  ghost predicate Kept(before: map<string, Ring>, after: map<string, Ring>, key: string, e: DeltaEntry, cap: nat)
    requires RingsOk(before, cap) && RingsOk(after, cap)
  {
    && KeptAt(after, key, cap) == Newest(KeptAt(before, key, cap) + [e], cap)
    && forall k | k != key :: KeptAt(after, k, cap) == KeptAt(before, k, cap)
  }

  class StateStore {
    var entries: map<string, StateEntry>
    var deltas: map<string, Ring>
    var global: nat
    const logCap: nat
    const maxKeys: nat
    const show: Printer
    ghost var logged: map<string, seq<DeltaEntry>>
    ghost var past: map<string, seq<Slot>>
    ghost var odd: set<string>

    ghost predicate RingsValid()
      reads this`deltas, this`logged, this`global
    {
      && 0 < logCap && RingsOk(deltas, logCap)
      && (forall k :: KeyOk(KeptAt(deltas, k, logCap), LogAt(logged, k), global))
    }

    ghost predicate Valid()
      reads this
    {
      && RingsValid()
      && (forall k | k !in odd :: PastOk(show, SlotsAt(past, k), LogAt(logged, k), ValueAt(entries, k)))
    }

    constructor (cap: nat, keys: nat, printer: Printer)
      requires 0 < cap
      ensures Valid() && entries == map[] && deltas == map[] && global == 0 && logged == map[] && past == map[] && odd == {}
    {
      logCap, maxKeys, show := cap, keys, printer;
      entries, deltas, global, logged, past, odd := map[], map[], 0, map[], map[], {};
    }

    /** `appendDelta` under the next version: one more delta in the key's ring. */
    method Commit(key: string, ops: seq<WOp>) returns (e: DeltaEntry)
      requires RingsValid()
      modifies this`global, this`deltas, this`logged
      ensures RingsValid()
      ensures global == old(global) + 1 && e == DeltaEntry(key, global, ops)
      ensures logged == old(logged)[key := old(LogAt(logged, key)) + [e]]
      ensures Kept(old(deltas), deltas, key, e, logCap)
    {
      hide KeyOk, Newest, Contents, PushRing;
      ghost var kept, all, version := KeptAt(deltas, key, logCap), LogAt(logged, key), global;
      assert KeyOk(kept, all, version);
      global := global + 1;
      e := DeltaEntry(key, global, ops);
      KeyLogs(kept, all, version, e, logCap);
      var ring := if key in deltas then deltas[key] else NewRing(logCap);
      NewRingEmpty(logCap);
      PushContents(ring, e);
      deltas := deltas[key := PushRing(ring, e)];
      PushCap(ring, e);
      logged := logged[key := all + [e]];
      forall k ensures KeyOk(KeptAt(deltas, k, logCap), LogAt(logged, k), global) {
        if k != key {
          assert old(KeyOk(KeptAt(deltas, k, logCap), LogAt(logged, k), global));
          KeyLater(KeptAt(deltas, k, logCap), LogAt(logged, k), version);
        }
      }
    }

    /** A key's new value and delta join its past; `followed` says whether replicas follow. */
    ghost method Remember(key: string, t: Slot, e: DeltaEntry, followed: bool, before: map<string, seq<DeltaEntry>>, was: map<string, StateEntry>)
      requires RingsValid()
      requires forall k | k !in odd :: PastOk(show, SlotsAt(past, k), LogAt(before, k), ValueAt(was, k))
      requires logged == before[key := LogAt(before, key) + [e]] && t == ValueAt(entries, key)
      requires forall k | k != key :: ValueAt(entries, k) == ValueAt(was, k)
      requires followed ==> GoStep(show, ValueAt(was, key), t, e.ops)
      modifies this`past, this`odd
      ensures Valid()
      ensures past == old(past)[key := old(SlotsAt(past, key)) + [t]]
      ensures odd == if followed then old(odd) else old(odd) + {key}
    {
      hide PastOk, GoStep, RingsValid;
      Remembered(show, past, odd, before, was, key, t, e, followed, entries);
      past := past[key := SlotsAt(past, key) + [t]];
      odd := if followed then odd else odd + {key};
    }

    /** `Apply`: nothing on a full key table or an empty diff. */
    method Apply(key: string, value: Value) returns (r: Option<DeltaEntry>)
      requires Valid()
      modifies this
      ensures Valid()
      ensures r.None? <==> (key !in old(entries) && |old(entries)| >= maxKeys)
                           || (value.Object? && key in old(entries) && old(entries)[key].value.Object?
                               && Blend(show, old(entries)[key].value, value) == old(entries)[key].value)
      ensures r.None? ==> entries == old(entries) && deltas == old(deltas) && global == old(global) && logged == old(logged)
                          && past == old(past) && odd == old(odd)
      ensures r.Some? ==>
        && global == old(global) + 1 && r.value.key == key && r.value.version == global
        && IsGoDelta(show, old(ValueAt(entries, key)), value, r.value.ops)
        && entries == old(entries)[key := StateEntry(value, global)]
        && logged == old(logged)[key := old(LogAt(logged, key)) + [r.value]]
        && Kept(old(deltas), deltas, key, r.value, logCap)
        && past == old(past)[key := old(SlotsAt(past, key)) + [Present(value)]]
        && odd == if Faithful(show, old(ValueAt(entries, key)), value) then old(odd) else old(odd) + {key}
    {
      hide PastOk, IsGoDelta, Blend, RingsValid;
      if key !in entries && |entries| >= maxKeys {
        return None;
      }
      var ops := Diff(show, if key in entries then entries[key].value else Null, value);
      ghost var now, before, was := ValueAt(entries, key), logged, entries;
      AbsentAsNull(show, now, value, ops);
      GoDeltaEmpty(show, now, value, ops);
      if ops == [] {
        return None;
      }
      var e := Commit(key, ops);
      entries := entries[key := StateEntry(value, e.version)];
      Remember(key, Present(value), e, Faithful(show, now, value), before, was);
      r := Some(e);
    }

    /** `Append`: one element onto an array value, keeping at most `maxLen` when positive. */
    method Append(key: string, element: Value, maxLen: int) returns (e: DeltaEntry)
      requires Valid()
      modifies this
      ensures Valid() && odd == old(odd) + {key}
      ensures global == old(global) + 1
      ensures e == DeltaEntry(key, global, AppendOps(ElemsOf(old(ValueAt(entries, key))), element, maxLen))
      ensures logged == old(logged)[key := old(LogAt(logged, key)) + [e]]
      ensures Kept(old(deltas), deltas, key, e, logCap)
      ensures entries == old(entries)[key := StateEntry(Array(Appended(ElemsOf(old(ValueAt(entries, key))), element, maxLen)), global)]
    {
      hide PastOk, RingsValid;
      var slice := ElemsOf(ValueAt(entries, key)) + [element];
      var ops: seq<WOp> := [Delta.Add("/-", element)];
      if maxLen > 0 && |slice| > maxLen {
        slice := slice[|slice| - maxLen..];
        ops := ops + [Delta.Remove("/0")];
      }
      ghost var now, before, was := ValueAt(entries, key), logged, entries;
      e := Commit(key, ops);
      entries := entries[key := StateEntry(Array(slice), e.version)];
      Remember(key, Present(Array(slice)), e, false, before, was);
    }

    /** `Delete`: nothing happens to an absent key. */
    method Delete(key: string) returns (r: Option<DeltaEntry>)
      requires Valid()
      modifies this
      ensures Valid() && odd == old(odd)
      ensures r.None? <==> key !in old(entries)
      ensures r.None? ==> entries == old(entries) && deltas == old(deltas) && global == old(global) && logged == old(logged)
                          && past == old(past)
      ensures r.Some? ==>
        && global == old(global) + 1 && r.value == DeltaEntry(key, global, [Delta.Remove("/")])
        && entries == old(entries) - {key}
        && logged == old(logged)[key := old(LogAt(logged, key)) + [r.value]]
        && Kept(old(deltas), deltas, key, r.value, logCap)
        && past == old(past)[key := old(SlotsAt(past, key)) + [Absent]]
    {
      hide PastOk, RingsValid;
      if key !in entries {
        return None;
      }
      ghost var now, before, was := ValueAt(entries, key), logged, entries;
      entries := entries - {key};
      var e := Commit(key, [Delta.Remove("/")]);
      Remember(key, Absent, e, true, before, was);
      r := Some(e);
    }

    /** The loop of `EvictIf`. */
    method DropChosen(chosen: (string, Value) -> bool) returns (evicted: nat)
      modifies this`entries, this`deltas
      ensures var out := Chosen(old(entries), chosen);
        entries == old(entries) - out && deltas == old(deltas) - out && evicted == |out|
    {
      var todo := entries.Keys;
      ghost var es, ds, out: set<string> := entries, deltas, {};
      evicted := 0;
      while todo != {}
        invariant todo <= es.Keys && evicted == |out|
        invariant out == set k | k in es && k !in todo && chosen(k, es[k].value)
        invariant entries == es - out && deltas == ds - out
        decreases todo
      {
        var k :| k in todo;
        assert k in entries && entries[k] == es[k];
        todo := todo - {k};
        if chosen(k, entries[k].value) {
          entries := entries - {k};
          deltas := deltas - {k};
          evicted := evicted + 1;
          out := out + {k};
        }
      }
      assert out == Chosen(es, chosen);
    }

    /** `EvictIf`: drops the chosen keys together with their rings, silently. */
    method EvictIf(chosen: (string, Value) -> bool) returns (evicted: nat)
      requires Valid()
      modifies this`entries, this`deltas, this`odd
      ensures Valid()
      ensures var out := Chosen(old(entries), chosen);
        entries == old(entries) - out && deltas == old(deltas) - out && evicted == |out| && odd == old(odd) + out
    {
      hide KeyOk, KeptAt, LogAt, PastOk, RingsOk, ValueAt, SlotsAt, Chosen;
      ghost var es, ds := entries, deltas;
      ghost var out := Chosen(es, chosen);
      evicted := DropChosen(chosen);
      DroppedOk(ds, out, logCap, logged, global);
      odd := odd + out;
      EvictedPast(show, past, logged, es, out, old(odd));
    }

    /** `DeltasSince`: an empty (nil) answer sends the caller to a full snapshot; any other
        answer is every delta ever logged for the key after `since`, in order. */
    method DeltasSince(key: string, since: nat) returns (r: seq<DeltaEntry>)
      requires Valid() && since < U64
      ensures r == if Reaches(KeptAt(deltas, key, logCap), since) then Newer(LogAt(logged, key), since) else []
      ensures var slots := SlotsAt(past, key);
        Reaches(KeptAt(deltas, key, logCap), since) && key !in odd && (forall i | 0 <= i < |slots| :: SafeSlot(slots[i])) ==>
          && Held(LogAt(logged, key), since) < |slots|
          && ReceiveAll(slots[Held(LogAt(logged, key), since)], OpsOf(r)) == ValueAt(entries, key)
    {
      hide KeyOk, Newer, PastOk, ReceiveAll, SafeSlot, Held, Contents, Next64, OpsOf;
      if key !in deltas || deltas[key].len == 0 {
        return [];
      }
      var ring := deltas[key];
      assert RingOk(ring);
      OldestFirst(ring);
      var oldest := ring.buf[Start(ring.head, ring.len, ring.cap)];
      if oldest.version > Next64(since) {
        return [];
      }
      assert KeyOk(KeptAt(deltas, key, logCap), LogAt(logged, key), global);
      KeyCovers(Contents(ring), LogAt(logged, key), global, since);
      r := Scan(ring, since);
      if key !in odd && forall i | 0 <= i < |SlotsAt(past, key)| :: SafeSlot(SlotsAt(past, key)[i]) {
        PastResumes(show, SlotsAt(past, key), LogAt(logged, key), ValueAt(entries, key), since, KeptAt(deltas, key, logCap), global);
      }
    }
  }

  /** The next version in 64 bits. */
  function Next64(since: nat): (n: nat)
    requires since < U64
    ensures n == if since + 1 < U64 then since + 1 else 0
  {
    (since + 1) % U64
  }

  lemma OldestFirst(ring: Ring)
    requires RingOk(ring) && ring.len > 0
    ensures Start(ring.head, ring.len, ring.cap) < |ring.buf|
    ensures |Contents(ring)| == ring.len && Contents(ring)[0] == ring.buf[Start(ring.head, ring.len, ring.cap)]
  {
  }

  /** Dropping rings keeps every key in order. */
  lemma DroppedOk(ds: map<string, Ring>, out: set<string>, cap: nat, logged: map<string, seq<DeltaEntry>>, global: nat)
    requires RingsOk(ds, cap) && forall k :: KeyOk(KeptAt(ds, k, cap), LogAt(logged, k), global)
    ensures RingsOk(ds - out, cap) && forall k :: KeyOk(KeptAt(ds - out, k, cap), LogAt(logged, k), global)
  {
    hide KeyOk, Contents;
    forall k ensures KeyOk(KeptAt(ds - out, k, cap), LogAt(logged, k), global) {
      KeyLater(KeptAt(ds, k, cap), LogAt(logged, k), global);
    }
  }

  lemma Remembered(show: Printer, past: map<string, seq<Slot>>, odd: set<string>, before: map<string, seq<DeltaEntry>>,
                   was: map<string, StateEntry>, key: string, t: Slot, e: DeltaEntry, followed: bool, entries: map<string, StateEntry>)
    requires forall k | k !in odd :: PastOk(show, SlotsAt(past, k), LogAt(before, k), ValueAt(was, k))
    requires t == ValueAt(entries, key) && forall k | k != key :: ValueAt(entries, k) == ValueAt(was, k)
    requires followed ==> GoStep(show, ValueAt(was, key), t, e.ops)
    ensures var past' := past[key := SlotsAt(past, key) + [t]];
      var logged := before[key := LogAt(before, key) + [e]];
      forall k | k !in (if followed then odd else odd + {key}) :: PastOk(show, SlotsAt(past', k), LogAt(logged, k), ValueAt(entries, k))
  {
    hide PastOk, GoStep;
    if key !in odd && followed {
      PastGrows(show, SlotsAt(past, key), LogAt(before, key), ValueAt(was, key), t, e);
    }
  }

  lemma AbsentAsNull(show: Printer, s: Slot, w: Value, ops: seq<WOp>)
    requires IsGoDelta(show, Present(Visible(s)), w, ops)
    ensures IsGoDelta(show, s, w, ops)
  {
  }

  lemma EvictedPast(show: Printer, past: map<string, seq<Slot>>, logged: map<string, seq<DeltaEntry>>, es: map<string, StateEntry>,
                    out: set<string>, odd: set<string>)
    requires forall k | k !in odd :: PastOk(show, SlotsAt(past, k), LogAt(logged, k), ValueAt(es, k))
    ensures forall k | k !in odd + out :: PastOk(show, SlotsAt(past, k), LogAt(logged, k), ValueAt(es - out, k))
  {
    hide PastOk;
    forall k | k !in odd + out ensures PastOk(show, SlotsAt(past, k), LogAt(logged, k), ValueAt(es - out, k)) {
      assert ValueAt(es - out, k) == ValueAt(es, k);
    }
  }

  lemma PastResumes(show: Printer, slots: seq<Slot>, ds: seq<DeltaEntry>, now: Slot, since: nat, kept: seq<DeltaEntry>, global: nat)
    requires PastOk(show, slots, ds, now) && KeyOk(kept, ds, global) && forall i | 0 <= i < |slots| :: SafeSlot(slots[i])
    ensures Held(ds, since) < |slots| && ReceiveAll(slots[Held(ds, since)], OpsOf(Newer(ds, since))) == now
  {
    hide GoStep, Newer, SafeSlot, ReceiveAll;
    GoResume(show, slots, ds, since);
  }

  /** The held entries are not empty and go back to the version after `since`, which is computed in
      64 bits. */
  predicate Reaches(kept: seq<DeltaEntry>, since: nat) {
    kept != [] && if since + 1 < U64 then kept[0].version <= since + 1 else kept[0].version == 0
  }

  lemma NewRingEmpty(cap: nat)
    requires 0 < cap
    ensures RingOk(NewRing(cap)) && NewRing(cap).cap == cap && Contents(NewRing(cap)) == []
  {
  }

  lemma PushCap(r: Ring, e: DeltaEntry)
    requires RingOk(r)
    ensures PushRing(r, e).cap == r.cap
  {
  }

  lemma KeyCovers(kept: seq<DeltaEntry>, logged: seq<DeltaEntry>, global: nat, since: nat)
    requires KeyOk(kept, logged, global) && kept != [] && kept[0].version <= since + 1
    ensures Newer(kept, since) == Newer(logged, since)
  {
    RingCovers(logged, kept, since);
  }

  // ---------- appending ----------

  /** The elements of an array value; nothing for anything else. */
  function ElemsOf(s: Slot): seq<Value> {
    if s.Present? && s.value.Array? then s.value.elems else []
  }

  function Appended(elems: seq<Value>, element: Value, maxLen: int): seq<Value> {
    if maxLen > 0 then Newest(elems + [element], maxLen) else elems + [element]
  }

  /** The ops `Append` emits: one append, and one removal of the head if anything was trimmed. */
  function AppendOps(elems: seq<Value>, element: Value, maxLen: int): seq<WOp> {
    [Delta.Add("/-", element)] + if maxLen > 0 && |elems| + 1 > maxLen then [Delta.Remove("/0")] else []
  }

  /** What a replica holds after those ops. */
  lemma ReceiveAppend(v: Value, element: Value, maxLen: int)
    ensures !v.Object? ==> var elems := ElemsOf(Present(v));
      Receive(v, AppendOps(elems, element, maxLen))
      == Array(if maxLen > 0 && |elems| + 1 > maxLen then (elems + [element])[1..] else elems + [element])
    ensures v.Object? ==> Receive(v, AppendOps([], element, maxLen)).Object?
  {
    var elems := ElemsOf(Present(v));
    var ops := AppendOps(elems, element, maxLen);
    ParseAppend(elems, element, maxLen);
    var parsed := ParseAll(ops);
    assert parsed[0] == Delta.Add(["-"], element);
    var w := Delta.ApplyOne(v, parsed[0]);
    assert v.Object? ==> w.Object?;
    assert !v.Object? ==> w == Array(elems + [element]);
    if |ops| == 1 {
      assert parsed[1..] == [];
      assert Delta.ApplyOps(v, parsed) == Delta.ApplyOps(w, []);
    } else {
      var last := parsed[1];
      assert parsed[1..] == [last] && [last][1..] == [];
      assert Delta.ApplyOps(v, parsed) == Delta.ApplyOps(w, [last]);
      assert Delta.ApplyOps(w, [last]) == Delta.ApplyOps(Delta.ApplyOne(w, last), []);
      assert Delta.Decimal("0") == 0 && Delta.IsDigits("0") by { assert "0"[..0] == ""; }
      assert !v.Object? ==> Delta.LeafInArray(elems + [element], "0", last) == (elems + [element])[1..];
    }
  }

  lemma ParseAppend(elems: seq<Value>, element: Value, maxLen: int)
    ensures var ops := AppendOps(elems, element, maxLen);
      ParseAll(ops) == [Delta.Add(["-"], element)] + if |ops| == 2 then [Delta.Remove(["0"])] else []
  {
    SplitSegment("-", "");
    SplitSegment("0", "");
    assert "/-"[1..] == "-" && "/0"[1..] == "0";
  }

  /** The emitted ops take a replica to the stored array exactly when the old value was not an
      object and at most one element was trimmed. */
  lemma AppendExact(v: Value, element: Value, maxLen: int)
    ensures var elems := ElemsOf(Present(v));
      Receive(v, AppendOps(elems, element, maxLen)) == Array(Appended(elems, element, maxLen))
      <==> !v.Object? && (maxLen <= 0 || |elems| <= maxLen)
  {
    ReceiveAppend(v, element, maxLen);
    var elems := ElemsOf(Present(v));
    if !v.Object? && maxLen > 0 && |elems| + 1 > maxLen {
      assert |(elems + [element])[1..]| == |elems|;
      assert |Appended(elems, element, maxLen)| == maxLen;
    }
  }
}
