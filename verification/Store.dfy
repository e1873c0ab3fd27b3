/** The versioned in-memory store and its capped per-key delta log. */
module Store {
  import opened Basics
  import opened Json
  import opened Delta
  import opened Wire
  import opened Schedule
  import opened DiffImpl

  const MAX_LOG: nat := 1000

  datatype StateEntry = StateEntry(version: nat, value: Value)
  datatype Logged = Logged(version: nat, ops: seq<WOp>)

  function SlotAt(entries: map<string, StateEntry>, k: string): Slot {
    if k in entries then Present(entries[k].value) else Absent
  }

  function LogAt(log: map<string, seq<Logged>>, k: string): seq<Logged> {
    if k in log then log[k] else []
  }

  predicate Ascending(ds: seq<Logged>) {
    forall i, j | 0 <= i < j < |ds| :: ds[i].version < ds[j].version
  }

  function Frames(ds: seq<Logged>): (r: seq<seq<WOp>>)
    ensures |r| == |ds|
    ensures forall i | 0 <= i < |ds| :: r[i] == ds[i].ops
  {
    seq(|ds|, i requires 0 <= i < |ds| => ds[i].ops)
  }

  /** Everything that ever happened to one key. */
  datatype Past = Past(slots: seq<Slot>, deltas: seq<Logged>)

  ghost predicate ValidPast(p: Past) {
    && |p.slots| == |p.deltas| + 1
    && Ascending(p.deltas)
    && (forall i | 0 <= i < |p.deltas| ::
          IsWireDelta(p.slots[i], p.slots[i + 1], p.deltas[i].ops) && p.deltas[i].ops != [])
  }

  function Current(p: Past): Slot
    requires p.slots != []
  {
    p.slots[|p.slots| - 1]
  }

  function Extend(p: Past, t: Slot, d: Logged): Past {
    Past(p.slots + [t], p.deltas + [d])
  }

  lemma ExtendValid(p: Past, t: Slot, d: Logged)
    requires ValidPast(p) && IsWireDelta(Current(p), t, d.ops) && d.ops != []
    requires forall i | 0 <= i < |p.deltas| :: p.deltas[i].version < d.version
    ensures ValidPast(Extend(p, t, d)) && Current(Extend(p, t, d)) == t
  {
    var q := Extend(p, t, d);
    forall i | 0 <= i < |q.deltas|
      ensures IsWireDelta(q.slots[i], q.slots[i + 1], q.deltas[i].ops) && q.deltas[i].ops != []
    {
      if i < |p.deltas| {
        assert IsWireDelta(p.slots[i], p.slots[i + 1], p.deltas[i].ops);
      }
    }
  }

  /** How one key's entry and log stand to its past. */
  ghost predicate KeyOk(slot: Slot, log: seq<Logged>, p: Past, version: nat) {
    && ValidPast(p)
    && Current(p) == slot
    && log == Newest(p.deltas, MAX_LOG)
    && (forall i | 0 <= i < |p.deltas| :: p.deltas[i].version <= version)
  }

  class StateStore {
    var entries: map<string, StateEntry>
    var globalVersion: nat
    var log: map<string, seq<Logged>>
    ghost var past: map<string, Past>

    ghost function PastOf(k: string): Past
      reads this
    {
      if k in past then past[k] else Past([Absent], [])
    }

    ghost predicate Valid()
      reads this
    {
      && (forall k :: KeyOk(SlotAt(entries, k), LogAt(log, k), PastOf(k), globalVersion))
      && (forall k | k in entries :: 0 < entries[k].version <= globalVersion)
    }

    constructor ()
      ensures Valid() && entries == map[] && globalVersion == 0 && past == map[]
    {
      entries, globalVersion, log, past := map[], 0, map[], map[];
    }

    /** `DeltaLog::append`: push, then drop the oldest entries over the cap. */
    method AppendLog(key: string, version: nat, ops: seq<WOp>)
      modifies this`log
      ensures log == old(log)[key := Newest(old(LogAt(log, key)) + [Logged(version, ops)], MAX_LOG)]
    {
      var entry := LogAt(log, key) + [Logged(version, ops)];
      if |entry| > MAX_LOG {
        var excess := |entry| - MAX_LOG;
        entry := entry[excess..];
      }
      log := log[key := entry];
    }

    /** Log a change of `key` from `before` to what `entries` now holds. */
    method Record(key: string, ghost before: Slot, version: nat, ops: seq<WOp>)
      requires version == globalVersion > 0 && ops != []
      requires forall k :: KeyOk(if k == key then before else SlotAt(entries, k), LogAt(log, k), PastOf(k), version - 1)
      requires IsWireDelta(before, SlotAt(entries, key), ops)
      modifies this`log, this`past
      ensures forall k :: KeyOk(SlotAt(entries, k), LogAt(log, k), PastOf(k), version)
      ensures past == old(past)[key := Extend(old(PastOf(key)), SlotAt(entries, key), Logged(version, ops))]
      ensures log == old(log)[key := Newest(old(LogAt(log, key)) + [Logged(version, ops)], MAX_LOG)]
    {
      hide IsWireDelta, ValidPast, Newest, Current;
      ghost var after, lg, p := SlotAt(entries, key), LogAt(log, key), PastOf(key);
      Logging(before, after, lg, p, version - 1, Logged(version, ops));
      AppendLog(key, version, ops);
      past := past[key := Extend(p, after, Logged(version, ops))];
      forall k ensures KeyOk(SlotAt(entries, k), LogAt(log, k), PastOf(k), version) {
        if k != key {
          assert old(KeyOk(SlotAt(entries, k), LogAt(log, k), PastOf(k), version - 1));
        }
      }
    }

    /** Write `value` to `key`; the version always advances, the log only when something changed. */
    method Apply(key: string, value: Value) returns (version: nat, ops: seq<WOp>)
      requires Valid()
      modifies this
      ensures Valid()
      ensures version == old(globalVersion) + 1 == globalVersion
      ensures entries == old(entries)[key := StateEntry(version, value)]
      ensures IsWireDelta(old(SlotAt(entries, key)), Present(value), ops)
      ensures ops == [] <==> old(SlotAt(entries, key)) == Present(value)
      ensures past == if ops == [] then old(past)
                      else old(past)[key := Extend(old(PastOf(key)), Present(value), Logged(version, ops))]
      ensures log == if ops == [] then old(log)
                     else old(log)[key := Newest(old(LogAt(log, key)) + [Logged(version, ops)], MAX_LOG)]
    {
      hide IsWireDelta, ValidPast, Newest, Current;
      globalVersion := globalVersion + 1;
      version := globalVersion;
      var before := SlotAt(entries, key);
      ops := WriteDelta(before, value);
      entries := entries[key := StateEntry(version, value)];
      forall k
        ensures KeyOk(if k == key then before else SlotAt(entries, k), LogAt(log, k), PastOf(k), version - 1)
      {
        assert old(KeyOk(SlotAt(entries, k), LogAt(log, k), PastOf(k), globalVersion));
      }
      if ops != [] {
        Record(key, before, version, ops);
      }
    }

    /** Remove `key`; absent keys change nothing and take no version. */
    method Delete(key: string) returns (r: Option<Logged>)
      requires Valid()
      modifies this
      ensures Valid()
      ensures r.None? <==> key !in old(entries)
      ensures r.None? ==> entries == old(entries) && globalVersion == old(globalVersion) && past == old(past) && log == old(log)
      ensures r.Some? ==>
        && r.value.version == old(globalVersion) + 1 == globalVersion
        && entries == old(entries) - {key}
        && r.value.ops == [Remove("/")] && IsWireDelta(old(SlotAt(entries, key)), Absent, r.value.ops)
        && past == old(past)[key := Extend(old(PastOf(key)), Absent, r.value)]
        && log == old(log)[key := Newest(old(LogAt(log, key)) + [r.value], MAX_LOG)]
    {
      hide IsWireDelta, ValidPast, Newest, Current;
      if key !in entries {
        return None;
      }
      ghost var before := SlotAt(entries, key);
      entries := entries - {key};
      globalVersion := globalVersion + 1;
      var ops: seq<WOp> := [Remove("/")];
      RootDelta(before, Absent, Remove([]));
      forall k
        ensures KeyOk(if k == key then before else SlotAt(entries, k), LogAt(log, k), PastOf(k), globalVersion - 1)
      {
        assert old(KeyOk(SlotAt(entries, k), LogAt(log, k), PastOf(k), globalVersion));
      }
      Record(key, before, globalVersion, ops);
      r := Some(Logged(globalVersion, ops));
    }

    /** `deltas_since`: exactly the retained deltas newer than `since`, in order. */
    method DeltasSince(key: string, since: nat) returns (r: seq<Logged>)
      requires Valid()
      ensures var p := PastOf(key);
        r == p.deltas[Max(Evicted(p), Held(p.deltas, since))..]
    {
      var all := LogAt(log, key);
      r := [];
      var i := 0;
      while i < |all|
        invariant 0 <= i <= |all|
        invariant r == Newer(all[..i], since)
      {
        NewerSnoc(all[..i], all[i], since);
        assert all[..i + 1] == all[..i] + [all[i]];
        if all[i].version > since {
          r := r + [all[i]];
        }
        i := i + 1;
      }
      assert all[..i] == all;
      assert KeyOk(SlotAt(entries, key), LogAt(log, key), PastOf(key), globalVersion);
      RetainedNewer(PastOf(key), since);
    }
  }

  /** The ops of a write: a structural diff, or a root ADD for a new key. */
  method WriteDelta(before: Slot, value: Value) returns (ops: seq<WOp>)
    ensures IsWireDelta(before, Present(value), ops)
    ensures ops == [] <==> before == Present(value)
  {
    if before.Present? {
      ops := Diff(before.value, value);
    } else {
      ops := [Add("/", value)];
      RootDelta(Absent, Present(value), Add([], value));
    }
  }

  lemma RootDelta(s: Slot, t: Slot, op: POp)
    requires IsDelta(s, t, [op]) && op.path == []
    ensures IsWireDelta(s, t, [WithPath(op, "/")])
  {
    PrintRoot(op, []);
  }

  /** A non-empty delta keeps the log the newest part of the past. */
  lemma Logging(before: Slot, after: Slot, log: seq<Logged>, p: Past, version: nat, d: Logged)
    requires KeyOk(before, log, p, version)
    requires IsWireDelta(before, after, d.ops) && d.ops != [] && d.version == version + 1
    ensures KeyOk(after, Newest(log + [d], MAX_LOG), Extend(p, after, d), version + 1)
  {
    ExtendValid(p, after, d);
    var all := p.deltas + [d];
    if |p.deltas| > MAX_LOG {
      assert log + [d] == all[|p.deltas| - MAX_LOG..];
    } else {
      assert log + [d] == all;
    }
    assert Newest(log + [d], MAX_LOG) == Newest(all, MAX_LOG);
  }

  // ---------- what RESUME may rely on ----------

  /** How many of a key's deltas the cap has dropped. */
  function Evicted(p: Past): nat {
    if |p.deltas| <= MAX_LOG then 0 else |p.deltas| - MAX_LOG
  }

  /** How many of a key's deltas a replica at version `since` has seen. */
  function Held(ds: seq<Logged>, since: nat): (n: nat)
    ensures n <= |ds|
    ensures forall i | 0 <= i < n :: ds[i].version <= since
    ensures n < |ds| ==> ds[n].version > since
    decreases |ds|
  {
    if ds == [] then 0
    else if ds[0].version > since then 0
    else 1 + Held(ds[1..], since)
  }

  function Newer(ds: seq<Logged>, since: nat): seq<Logged>
    decreases |ds|
  {
    if ds == [] then []
    else (if ds[0].version > since then [ds[0]] else []) + Newer(ds[1..], since)
  }

  lemma {:induction false} NewerSnoc(ds: seq<Logged>, d: Logged, since: nat)
    ensures Newer(ds + [d], since) == Newer(ds, since) + (if d.version > since then [d] else [])
    decreases |ds|
  {
    if ds == [] {
      assert ds + [d] == [d];
      assert [d][1..] == [];
    } else {
      assert (ds + [d])[1..] == ds[1..] + [d];
      NewerSnoc(ds[1..], d, since);
    }
  }

  lemma {:induction false} NewerIsSuffix(ds: seq<Logged>, since: nat, n: nat)
    requires n <= |ds|
    requires forall i | 0 <= i < n :: ds[i].version <= since
    requires forall i | n <= i < |ds| :: ds[i].version > since
    ensures Newer(ds, since) == ds[n..]
    decreases |ds|
  {
    if ds != [] {
      NewerIsSuffix(ds[1..], since, if n == 0 then 0 else n - 1);
      if n == 0 {
        assert ds[1..][0..] == ds[1..];
      } else {
        assert ds[1..][n - 1..] == ds[n..];
      }
    }
  }

  lemma RetainedNewer(p: Past, since: nat)
    requires ValidPast(p)
    ensures Newer(Newest(p.deltas, MAX_LOG), since) == p.deltas[Max(Evicted(p), Held(p.deltas, since))..]
  {
    hide IsWireDelta, Newer;
    var e, h := Evicted(p), Held(p.deltas, since);
    var kept := p.deltas[e..];
    assert Newest(p.deltas, MAX_LOG) == kept;
    var n := if e < h then h - e else 0;
    forall i | n <= i < |kept| ensures kept[i].version > since {
      assert kept[i] == p.deltas[e + i];
      assert p.deltas[h].version > since;
    }
    forall i | 0 <= i < n ensures kept[i].version <= since {
      assert kept[i] == p.deltas[e + i];
    }
    NewerIsSuffix(kept, since, n);
    assert kept[n..] == p.deltas[Max(e, h)..];
  }

  /** The retained log serves RESUME: as long as no evicted delta is newer than `since`,
      folding the reply onto the value held at `since` gives the current value. */
  lemma ResumeReplay(p: Past, since: nat)
    requires ValidPast(p)
    requires forall i | 0 <= i < |p.slots| :: SafeSlot(p.slots[i])
    requires forall i | 0 <= i < Evicted(p) :: p.deltas[i].version <= since
    ensures var h := Held(p.deltas, since);
      ReceiveAll(p.slots[h], Frames(Newer(Newest(p.deltas, MAX_LOG), since))) == Current(p)
  {
    hide IsWireDelta, Newer, ReceiveAll, SafeSlot, Held;
    var e, h := Evicted(p), Held(p.deltas, since);
    RetainedNewer(p, since);
    assert e <= h;
    var ds := Frames(p.deltas);
    assert History(p.slots, ds) by {
      forall i | 0 <= i < |ds| ensures IsWireDelta(p.slots[i], p.slots[i + 1], ds[i]) {
        assert ds[i] == p.deltas[i].ops;
      }
    }
    assert Frames(p.deltas[h..]) == ds[h..];
    LateDeltas(p.slots, ds, h, h);
  }

  /** The code replays the retained suffix even when older deltas were evicted. With `e`
      evicted, `n` logged and `h` held, that reply is right for every history exactly
      when nothing the replica lacks was evicted. */
  lemma GappedReplayExact(e: nat, h: nat, n: nat)
    requires e <= n && h <= n
    ensures Converges(Max(e, h), h, n) <==> e <= h
  {
    ConvergesExact(Max(e, h), h, n);
  }
}
