/** `state.presence` and the cleanup loop that runs when a session ends. */
module Presence {
  import opened Basics
  import opened Json
  import opened Delta
  import opened Paths
  import opened Wire
  import opened Store
  import opened Edits

  datatype PresenceEntry = PresenceEntry(key: string, path: string)

  type Entries = map<string, StateEntry>

  function LookupAt(es: Entries, k: string, p: Path): Slot {
    if k in es then Lookup(es[k].value, p) else Absent
  }

  /** Only paths that start with '/' are ever registered. */
  predicate Registrable(e: PresenceEntry) {
    RequestPath(e.path).Some?
  }

  function PathOf(e: PresenceEntry): Path
    requires Registrable(e)
  {
    RequestPath(e.path).value
  }

  /** Nothing is left at the registered path; a root path reads as null. */
  predicate Gone(es: Entries, e: PresenceEntry)
    requires Registrable(e)
  {
    if PathOf(e) == [] then Visible(SlotAt(es, e.key)) == Null
    else LookupAt(es, e.key, PathOf(e)) == Absent
  }

  /** A path of a key that no registered path can reach. */
  predicate Apart(e: PresenceEntry, k: string, q: Path)
    requires Registrable(e)
  {
    e.key == k ==> !Comparable(PathOf(e), q)
  }

  /** What one round of the cleanup loop writes back. */
  function Cleaned(es: Entries, e: PresenceEntry, version: nat): Entries {
    if e.key in es then es[e.key := StateEntry(version, JsonRemoveIn(es[e.key].value, e.path))] else es
  }

  lemma RegistrablePath(e: PresenceEntry)
    requires Registrable(e)
    ensures forall v :: JsonRemoveIn(v, e.path) == if PathOf(e) == [] then Null else RemoveIn(v, PathOf(e))
  {
  }

  lemma CleanedGone(es: Entries, e: PresenceEntry, version: nat)
    requires Registrable(e)
    ensures Gone(Cleaned(es, e, version), e)
  {
    RegistrablePath(e);
    if e.key in es && PathOf(e) != [] {
      RemoveGone(es[e.key].value, PathOf(e));
    }
  }

  /** A later removal never brings an earlier one back. */
  lemma CleanedStaysGone(es: Entries, e: PresenceEntry, version: nat, d: PresenceEntry)
    requires Registrable(e) && Registrable(d) && Gone(es, d)
    ensures Gone(Cleaned(es, e, version), d)
  {
    RegistrablePath(e);
    if e.key in es && d.key == e.key && PathOf(e) != [] && PathOf(d) != [] {
      RemoveCreatesNothing(es[e.key].value, PathOf(e), PathOf(d));
    }
  }

  lemma CleanedFrame(es: Entries, e: PresenceEntry, version: nat, k: string, q: Path)
    requires Registrable(e) && Apart(e, k, q)
    ensures LookupAt(Cleaned(es, e, version), k, q) == LookupAt(es, k, q)
  {
    RegistrablePath(e);
    if e.key in es && e.key == k {
      RemoveFrame(es[k].value, PathOf(e), q);
    }
  }

  /** A path that holds an object. */
  predicate HoldsObject(es: Entries, k: string, q: Path) {
    LookupAt(es, k, q).Present? && LookupAt(es, k, q).value.Object?
  }

  /** A path of a key that no registered path leads to or past. */
  predicate NotBelow(e: PresenceEntry, k: string, q: Path)
    requires Registrable(e)
  {
    e.key == k ==> !IsPrefix(PathOf(e), q)
  }

  lemma CleanedKeepsObject(es: Entries, e: PresenceEntry, version: nat, k: string, q: Path)
    requires Registrable(e) && NotBelow(e, k, q) && HoldsObject(es, k, q)
    ensures HoldsObject(Cleaned(es, e, version), k, q)
  {
    RegistrablePath(e);
    if e.key in es && e.key == k {
      var p := PathOf(e);
      if Comparable(p, q) {
        RemoveExact(es[k].value, p);
        assert p[..|q|] == q;
      } else {
        RemoveFrame(es[k].value, p, q);
      }
    }
  }

  /** Session end: every registered path is gone and nothing apart from them has changed. */
  method Cleanup(store: StateStore, presence: seq<PresenceEntry>)
    requires store.Valid()
    requires forall i | 0 <= i < |presence| :: Registrable(presence[i])
    modifies store
    ensures store.Valid()
    ensures forall i | 0 <= i < |presence| :: Gone(store.entries, presence[i])
    ensures forall k, q | (forall i | 0 <= i < |presence| :: Apart(presence[i], k, q)) ::
      LookupAt(store.entries, k, q) == old(LookupAt(store.entries, k, q))
    ensures forall k, q | (forall i | 0 <= i < |presence| :: NotBelow(presence[i], k, q)) && old(HoldsObject(store.entries, k, q)) ::
      HoldsObject(store.entries, k, q)
    ensures store.entries.Keys == old(store.entries.Keys)
  {
    var i := 0;
    while i < |presence|
      invariant 0 <= i <= |presence|
      invariant store.Valid() && store.entries.Keys == old(store.entries.Keys)
      invariant forall k, q | (forall j | 0 <= j < |presence| :: NotBelow(presence[j], k, q)) && old(HoldsObject(store.entries, k, q)) ::
        HoldsObject(store.entries, k, q)
      invariant forall j | 0 <= j < i :: Gone(store.entries, presence[j])
      invariant forall k, q | (forall j | 0 <= j < |presence| :: Apart(presence[j], k, q)) ::
        LookupAt(store.entries, k, q) == old(LookupAt(store.entries, k, q))
    {
      ghost var before := store.entries;
      ghost var version := CleanOne(store, presence[i]);
      AfterOne(before, store.entries, presence, i, version);
      ObjectsAfterOne(before, store.entries, presence, i, version);
      i := i + 1;
    }
  }

  /** One round of the loop: skip absent keys, otherwise write the pruned value back. */
  method CleanOne(store: StateStore, e: PresenceEntry) returns (ghost version: nat)
    requires store.Valid()
    modifies store
    ensures store.Valid()
    ensures store.entries == Cleaned(old(store.entries), e, version)
  {
    version := 0;
    if e.key in store.entries {
      var updated := JsonRemoveIn(store.entries[e.key].value, e.path);
      var v, ops := store.Apply(e.key, updated);
      version := v;
    }
  }

  lemma ObjectsAfterOne(before: Entries, after: Entries, presence: seq<PresenceEntry>, i: nat, version: nat)
    requires i < |presence| && forall j | 0 <= j < |presence| :: Registrable(presence[j])
    requires after == Cleaned(before, presence[i], version)
    ensures forall k, q | (forall j | 0 <= j < |presence| :: NotBelow(presence[j], k, q)) && HoldsObject(before, k, q) ::
      HoldsObject(after, k, q)
  {
    hide HoldsObject, NotBelow;
    forall k, q | (forall j | 0 <= j < |presence| :: NotBelow(presence[j], k, q)) && HoldsObject(before, k, q)
      ensures HoldsObject(after, k, q)
    {
      assert NotBelow(presence[i], k, q);
      CleanedKeepsObject(before, presence[i], version, k, q);
    }
  }

  lemma AfterOne(before: Entries, after: Entries, presence: seq<PresenceEntry>, i: nat, version: nat)
    requires i < |presence| && forall j | 0 <= j < |presence| :: Registrable(presence[j])
    requires after == Cleaned(before, presence[i], version)
    requires forall j | 0 <= j < i :: Gone(before, presence[j])
    ensures forall j | 0 <= j <= i :: Gone(after, presence[j])
    ensures forall k, q | (forall j | 0 <= j < |presence| :: Apart(presence[j], k, q)) ::
      LookupAt(after, k, q) == LookupAt(before, k, q)
  {
    hide Gone, Apart, LookupAt;
    CleanedGone(before, presence[i], version);
    forall j | 0 <= j < i ensures Gone(after, presence[j]) {
      CleanedStaysGone(before, presence[i], version, presence[j]);
    }
    forall k, q | (forall j | 0 <= j < |presence| :: Apart(presence[j], k, q))
      ensures LookupAt(after, k, q) == LookupAt(before, k, q)
    {
      assert Apart(presence[i], k, q);
      CleanedFrame(before, presence[i], version, k, q);
    }
  }

  /** `state.presence`: write the path, then register it once; a malformed path changes nothing. */
  method Announce(store: StateStore, presence: seq<PresenceEntry>, key: string, path: string, value: Value)
    returns (ok: bool, registered: seq<PresenceEntry>)
    requires store.Valid()
    modifies store
    ensures store.Valid()
    ensures ok <==> Registrable(PresenceEntry(key, path))
    ensures !ok ==> store.entries == old(store.entries) && registered == presence
    ensures ok ==> PresenceEntry(key, path) in registered && forall e | e in registered :: e in presence || e == PresenceEntry(key, path)
    ensures ok ==> presence <= registered && |registered| == |presence| + if PresenceEntry(key, path) in presence then 0 else 1
    ensures ok ==> LookupAt(store.entries, key, PathOf(PresenceEntry(key, path))) == Present(value)
    ensures ok ==> forall k, q | Apart(PresenceEntry(key, path), k, q) ::
      LookupAt(store.entries, k, q) == old(LookupAt(store.entries, k, q))
  {
    hide SetIn, Lookup, Apart, StateStore.Valid, IsWireDelta, Newest;
    var e := PresenceEntry(key, path);
    registered := presence;
    var current := if key in store.entries then store.entries[key].value else Null;
    var updated := JsonSetIn(current, path, value);
    if updated.None? {
      return false, presence;
    }
    ok := true;
    ghost var before := store.entries;
    var version, ops := store.Apply(key, updated.value);
    if e !in presence {
      registered := presence + [e];
    }
    Announced(before, e, current, version, value);
  }

  lemma Announced(before: Entries, e: PresenceEntry, current: Value, version: nat, value: Value)
    requires Registrable(e) && current == if e.key in before then before[e.key].value else Null
    ensures var after := before[e.key := StateEntry(version, SetIn(current, PathOf(e), value))];
      && LookupAt(after, e.key, PathOf(e)) == Present(value)
      && forall k, q | Apart(e, k, q) :: LookupAt(after, k, q) == LookupAt(before, k, q)
  {
    hide SetIn, RequestPath;
    var after := before[e.key := StateEntry(version, SetIn(current, PathOf(e), value))];
    SetThenLookup(current, PathOf(e), value);
    forall k, q | Apart(e, k, q) ensures LookupAt(after, k, q) == LookupAt(before, k, q) {
      if k == e.key {
        SetFrame(current, PathOf(e), value, q);
        assert e.key !in before ==> Lookup(Null, q) == Absent;
      }
    }
  }
}
