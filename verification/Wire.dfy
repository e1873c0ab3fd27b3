/** Deltas as they travel: ops with path strings. */
module Wire {
  import opened Json
  import opened Delta
  import opened Paths

  type WOp = Op<string>

  function Print(op: POp, at: Path): WOp {
    WithPath(op, PrintPath(at + op.path))
  }

  /** Ops found below `at`, with their full path strings. */
  function PrintAll(ops: seq<POp>, at: Path): (r: seq<WOp>)
    ensures |r| == |ops|
    ensures forall i | 0 <= i < |ops| :: r[i] == Print(ops[i], at)
  {
    seq(|ops|, i requires 0 <= i < |ops| => Print(ops[i], at))
  }

  function ParseAll(ops: seq<WOp>): (r: seq<POp>)
    ensures |r| == |ops|
    ensures forall i | 0 <= i < |ops| :: r[i] == WithPath(ops[i], ParsePath(ops[i].path))
  {
    seq(|ops|, i requires 0 <= i < |ops| => WithPath(ops[i], ParsePath(ops[i].path)))
  }

  /** What a replica holds after the frame's ops. */
  function Receive(state: Value, ops: seq<WOp>): Value {
    ApplyOps(state, ParseAll(ops))
  }

  /** What the server sends when a key goes from `s` to `t`. */
  ghost predicate IsWireDelta(s: Slot, t: Slot, ops: seq<WOp>) {
    exists parsed :: IsDelta(s, t, parsed) && ops == PrintAll(parsed, [])
  }

  // ---------- which values the wire can carry ----------

  /** Every key on the way to a field is slash free; arrays are atomic, so their insides do not matter. */
  predicate NestedSafe(v: Value)
    decreases v
  {
    v.Object? ==> forall k | k in v.fields :: SlashFree(k) && NestedSafe(v.fields[k])
  }

  predicate SafeValue(v: Value) {
    NestedSafe(v) && (v.Object? ==> "" !in v.fields)
  }

  predicate SafeSlot(s: Slot) {
    s.Present? ==> SafeValue(s.value)
  }

  lemma {:induction false} DiffPathsSlashFree(v: Value, w: Value, ops: seq<POp>, i: nat)
    requires IsDiff(v, w, ops) && NestedSafe(v) && NestedSafe(w) && i < |ops|
    ensures AllSlashFree(ops[i].path)
    decreases v
  {
    if v.Object? && w.Object? {
      var k := ops[i].path[0];
      var sub := Sub(ops, k);
      InSub(ops, i, k);
      var j :| 0 <= j < |sub| && sub[j] == Tail(ops[i]);
      assert SlashFree(k);
      if k in v.fields && k in w.fields {
        DiffPathsSlashFree(v.fields[k], w.fields[k], sub, j);
      }
      assert AllSlashFree(sub[j].path);
      assert ops[i].path == [k] + sub[j].path;
    }
  }

  /** A delta between safe values is parsed back to what the differ meant. */
  lemma DeltaSurvives(s: Slot, t: Slot, ops: seq<POp>)
    requires IsDelta(s, t, ops) && SafeSlot(s) && SafeSlot(t)
    ensures ParseAll(PrintAll(ops, [])) == ops
  {
    forall i | 0 <= i < |ops| ensures ParseAll(PrintAll(ops, []))[i] == ops[i] {
      if s.Present? && t.Present? {
        DiffPathsSlashFree(s.value, t.value, ops, i);
      }
      assert SafePath(ops[i].path);
      assert [] + ops[i].path == ops[i].path;
      PathRoundTrip(ops[i].path);
    }
  }

  lemma WireDeltaParses(s: Slot, t: Slot, ops: seq<WOp>)
    requires IsWireDelta(s, t, ops) && SafeSlot(s) && SafeSlot(t)
    ensures IsDelta(s, t, ParseAll(ops))
  {
    var parsed :| IsDelta(s, t, parsed) && ops == PrintAll(parsed, []);
    DeltaSurvives(s, t, parsed);
  }

  /** Round trip over path strings, for every visiting order, and emptiness. */
  lemma WireRoundTrip(s: Slot, t: Slot, ops: seq<WOp>)
    requires IsWireDelta(s, t, ops)
    ensures SafeSlot(s) && SafeSlot(t) ==> Receive(Visible(s), ops) == Visible(t)
    ensures ops == [] <==> s == t
  {
    var parsed :| IsDelta(s, t, parsed) && ops == PrintAll(parsed, []);
    EmptyIffSame(s, t, parsed);
    if SafeSlot(s) && SafeSlot(t) {
      DeltaSurvives(s, t, parsed);
      RoundTrip(s, t, parsed);
      ApplyOpsIsVisible(s, parsed);
    }
  }

  // ---------- exactly which key names are safe ----------

  /** Objects whose top-level keys come from `top` and whose nested keys come from `nested`. */
  predicate KeysFrom(v: Value, top: set<string>, nested: set<string>)
    decreases v
  {
    v.Object? ==> forall k | k in v.fields :: k in top && KeysFrom(v.fields[k], nested, nested)
  }

  /** The round trip holds for all values over the given key names. */
  ghost predicate AlphabetWorks(top: set<string>, nested: set<string>) {
    forall v: Value, w: Value, ops: seq<WOp> ::
      KeysFrom(v, top, nested) && KeysFrom(w, top, nested) && IsWireDelta(Present(v), Present(w), ops)
      ==> Receive(v, ops) == w
  }

  predicate SafeAlphabet(top: set<string>, nested: set<string>) {
    && "" !in top
    && (forall k | k in top :: SlashFree(k))
    && (forall k | k in nested :: SlashFree(k))
  }

  lemma {:induction false} KeysFromSafe(v: Value, top: set<string>, nested: set<string>)
    requires KeysFrom(v, top, nested)
    requires forall k | k in top + nested :: SlashFree(k)
    ensures NestedSafe(v)
    decreases v
  {
    if v.Object? {
      forall k | k in v.fields ensures SlashFree(k) && NestedSafe(v.fields[k]) {
        assert k in top + nested;
        KeysFromSafe(v.fields[k], nested, nested);
      }
    }
  }

  /** Adding field `k` below `at` is one ADD op. */
  lemma InsertTop(k: string, x: Value)
    ensures IsDiff(Object(map[]), Object(map[k := x]), [Add([k], x)])
  {
    var ops: seq<POp> := [Add([k], x)];
    assert Sub(ops[1..], k) == [];
    assert Sub(ops, k) == [Tail(ops[0])];
    assert [k][1..] == [];
  }

  lemma InsertBelow(t: string, k: string, x: Value)
    ensures IsDiff(Object(map[t := Object(map[])]), Object(map[t := Object(map[k := x])]), [Add([t, k], x)])
  {
    var ops: seq<POp> := [Add([t, k], x)];
    assert Sub(ops[1..], t) == [];
    assert Sub(ops, t) == [Tail(ops[0])];
    assert [t, k][1..] == [k];
    InsertTop(k, x);
  }

  lemma UnsafeTopKeyFails(top: set<string>, nested: set<string>, k: string)
    requires k in top && (k == "" || !SlashFree(k))
    ensures !AlphabetWorks(top, nested)
  {
    var v, w := Object(map[]), Object(map[k := Null]);
    InsertTop(k, Null);
    var ops := PrintAll([Add([k], Null)], []);
    assert IsWireDelta(Present(v), Present(w), ops);
    assert KeysFrom(v, top, nested) && KeysFrom(w, top, nested);
    assert [] + [k] == [k];
    var p := ParsePath(ops[0].path);
    assert ops == [Add(PrintPath([k]), Null)];
    assert ParseAll(ops) == [Add(p, Null)];
    ReceiveOne(v, ops);
    if Receive(v, ops) == w {
      PathRoundTrip([k]);
      LandsElsewhere(p, k);
      assert false;
    }
  }

  lemma ReceiveOne(v: Value, ops: seq<WOp>)
    requires |ops| == 1
    ensures Receive(v, ops) == ApplyOne(v, ParseAll(ops)[0])
  {
    var p := ParseAll(ops);
    assert p[1..] == [];
    assert ApplyOps(v, p) == ApplyOps(ApplyOne(v, p[0]), p[1..]);
  }

  /** On an empty object, an op whose path is not `[k]` cannot produce `{k: null}`. */
  lemma LandsElsewhere(p: Path, k: string)
    requires p != [k]
    ensures ApplyOne(Object(map[]), Add(p, Null)) != Object(map[k := Null])
  {
    if |p| > 1 {
      var r := ApplyIn(Object(map[]), p, Add(p, Null));
      assert r.fields[p[0]].IsContainer();
      assert p[0] == k ==> r.fields[k] != Null;
      assert p[0] in r.fields;
    } else if |p| == 1 {
      assert p == [p[0]];
      assert p[0] in map[p[0] := Null];
    }
  }

  lemma NestedLandsElsewhere(t: string, k: string)
    requires t != "" && SlashFree(t) && !SlashFree(k)
    ensures var p := ParsePath(PrintPath([t, k]));
      ApplyOne(Object(map[t := Object(map[])]), Add(p, Null)) != Object(map[t := Object(map[k := Null])])
  {
    PrintIsJoin([t, k]);
    assert PrintPath([t, k])[1..] == t + "/" + k by { assert [t, k][1..] == [k]; }
    SplitSegment(t, k);
    SplitNotWhole(k);
    var p := ParsePath(PrintPath([t, k]));
    assert p == [t] + Split(k) && p[1..] == Split(k);
    var m := map[t := Object(map[])];
    ApplyInObject(m, Add(p, Null));
    LandsElsewhere(p[1..], k);
    var inner := ApplyOne(Object(map[]), Add(p[1..], Null));
    assert ApplySlot(Field(m, t), Add(p[1..], Null)) == Present(inner);
    assert ApplyOne(Object(m), Add(p, Null)).fields[t] == inner;
  }

  lemma UnsafeNestedKeyFails(top: set<string>, nested: set<string>, t: string, k: string)
    requires t in top && t != "" && SlashFree(t) && k in nested && !SlashFree(k)
    ensures !AlphabetWorks(top, nested)
  {
    hide ParsePath, PrintPath, ApplyOne, IsDiff;
    var v, w := Object(map[t := Object(map[])]), Object(map[t := Object(map[k := Null])]);
    InsertBelow(t, k, Null);
    var op: POp := Add([t, k], Null);
    var ops := PrintAll([op], []);
    assert IsWireDelta(Present(v), Present(w), ops);
    assert KeysFrom(Object(map[k := Null]), nested, nested);
    assert KeysFrom(v, top, nested) && KeysFrom(w, top, nested);
    assert [] + [t, k] == [t, k];
    ReceiveOne(v, ops);
    NestedLandsElsewhere(t, k);
  }

  lemma SplitNotWhole(k: string)
    requires !SlashFree(k)
    ensures Split(k) != [k]
  {
    SplitIsSlashFree(k);
    assert SlashFree(Split(k)[0]);
  }

  /** The law holds over a key alphabet exactly when no key holds a '/' and no
      top-level key is empty. */
  lemma SafeAlphabetExact(top: set<string>, nested: set<string>)
    requires top != {}
    ensures AlphabetWorks(top, nested) <==> SafeAlphabet(top, nested)
  {
    if SafeAlphabet(top, nested) {
      forall v: Value, w: Value, ops: seq<WOp>
        | KeysFrom(v, top, nested) && KeysFrom(w, top, nested) && IsWireDelta(Present(v), Present(w), ops)
        ensures Receive(v, ops) == w
      {
        KeysFromSafe(v, top, nested);
        KeysFromSafe(w, top, nested);
        WireRoundTrip(Present(v), Present(w), ops);
      }
    } else if k :| k in top && (k == "" || !SlashFree(k)) {
      UnsafeTopKeyFails(top, nested, k);
    } else {
      var t :| t in top;
      var k :| k in nested && !SlashFree(k);
      UnsafeNestedKeyFails(top, nested, t, k);
    }
  }
}
