/** The Go server's differ: its own visiting order and path strings, the same structural diff. */
module GoDiff {
  import opened Json
  import opened Delta
  import opened Paths
  import opened Wire
  import opened DiffImpl

  /** A slash before every segment; the root is "/". */
  function GoPath(p: Path): string {
    if p == [] then "/" else Slashed(p)
  }

  function Slashed(p: Path): string
    decreases |p|
  {
    if p == [] then "" else "/" + p[0] + Slashed(p[1..])
  }

  function GoPrint(ops: seq<POp>): (r: seq<WOp>)
    ensures |r| == |ops|
    ensures forall i | 0 <= i < |ops| :: r[i] == WithPath(ops[i], GoPath(ops[i].path))
  {
    seq(|ops|, i requires 0 <= i < |ops| => WithPath(ops[i], GoPath(ops[i].path)))
  }

  /** `ops` prefixed by "/" and the key, as the loop over nested diffs does. */
  function Prefixed(k: string, ops: seq<WOp>): (r: seq<WOp>)
    ensures |r| == |ops|
    ensures forall i | 0 <= i < |ops| :: r[i] == WithPath(ops[i], "/" + k + ops[i].path)
  {
    seq(|ops|, i requires 0 <= i < |ops| => WithPath(ops[i], "/" + k + ops[i].path))
  }

  // ---------- equality by printed form ----------

  /** How values are printed for comparison. */
  type Printer = Value -> string

  /** `equal`: scalars by type and value, everything else by printed form. */
  predicate GoEqual(show: Printer, a: Value, b: Value) {
    if a.IsContainer() then show(a) == show(b) else a == b
  }

  /** What replicas of `v` hold after the diff to `w`: where two values print alike, the old one stays. */
  function Blend(show: Printer, v: Value, w: Value): Value
    decreases v
  {
    if v.Object? && w.Object? then
      Object(map k | k in w.fields :: if k in v.fields then Blend(show, v.fields[k], w.fields[k]) else w.fields[k])
    else if GoEqual(show, v, w) then v
    else w
  }

  /** No two different values that `Diff` compares print alike. */
  predicate Distinct(show: Printer, v: Value, w: Value)
    decreases v
  {
    if v.Object? && w.Object? then forall k | k in v.fields && k in w.fields :: Distinct(show, v.fields[k], w.fields[k])
    else GoEqual(show, v, w) ==> v == w
  }

  lemma {:induction false} BlendExact(show: Printer, v: Value, w: Value)
    ensures Blend(show, v, w) == w <==> Distinct(show, v, w)
    decreases v
  {
    if v.Object? && w.Object? {
      var b := Blend(show, v, w).fields;
      forall k | k in v.fields && k in w.fields ensures b[k] == w.fields[k] <==> Distinct(show, v.fields[k], w.fields[k]) {
        BlendExact(show, v.fields[k], w.fields[k]);
      }
      if Distinct(show, v, w) {
        assert b == w.fields;
      }
    }
  }

  /** A field that held a scalar is always compared exactly, however values print; two containers or
      a container and a scalar that print alike are taken for equal. */
  lemma ComparedExactly(show: Printer, v: Value, w: Value)
    ensures !v.IsContainer() ==> Distinct(show, v, w) && Blend(show, v, w) == w
    ensures v.IsContainer() && !(v.Object? && w.Object?) ==>
      Blend(show, v, w) == (if show(v) == show(w) then v else w) && (Distinct(show, v, w) <==> v == w || show(v) != show(w))
  {
  }

  lemma {:induction false} BlendSafe(show: Printer, v: Value, w: Value)
    requires NestedSafe(v) && NestedSafe(w)
    ensures NestedSafe(Blend(show, v, w))
    decreases v
  {
    if v.Object? && w.Object? {
      forall k | k in v.fields && k in w.fields ensures NestedSafe(Blend(show, v.fields[k], w.fields[k])) {
        BlendSafe(show, v.fields[k], w.fields[k]);
      }
    }
  }

  /** Go's `%v` on JSON values, for any way of printing maps. */
  function Format(v: Value, maps: map<string, Value> -> string): string
    decreases v, 1
  {
    match v
    case Null => "<nil>"
    case Bool(b) => if b then "true" else "false"
    case Number(lexeme) => lexeme
    case Text(t) => t
    case Array(elems) => "[" + FormatAll(v, |elems|, maps) + "]"
    case Object(m) => maps(m)
  }

  /** The first `n` elements of an array, separated by blanks. */
  function FormatAll(v: Value, n: nat, maps: map<string, Value> -> string): string
    requires v.Array? && n <= |v.elems|
    decreases v, 0, n
  {
    if n == 0 then ""
    else if n == 1 then Format(v.elems[0], maps)
    else FormatAll(v, n - 1, maps) + " " + Format(v.elems[n - 1], maps)
  }

  const ONE_TEXT: Value := Array([Text("a b")])
  const TWO_TEXTS: Value := Array([Text("a"), Text("b")])

  /** Two different arrays print alike, so writing one over the other inside an object is no
      change at all to the Go server. */
  lemma PrintedAlike(maps: map<string, Value> -> string)
    ensures var show := (v: Value) => Format(v, maps);
      var old_, new_ := Object(map["x" := TWO_TEXTS]), Object(map["x" := ONE_TEXT]);
      old_ != new_ && !Distinct(show, old_, new_) && Blend(show, old_, new_) == old_
  {
    var show := (v: Value) => Format(v, maps);
    assert FormatAll(ONE_TEXT, 1, maps) == "a b";
    assert FormatAll(TWO_TEXTS, 1, maps) == "a";
    assert FormatAll(TWO_TEXTS, 2, maps) == "a" + " " + "b" == "a b";
    assert GoEqual(show, TWO_TEXTS, ONE_TEXT);
    assert |ONE_TEXT.elems| == 1 && |TWO_TEXTS.elems| == 2;
    var old_, new_ := Object(map["x" := TWO_TEXTS]), Object(map["x" := ONE_TEXT]);
    assert old_.fields["x"] == TWO_TEXTS && new_.fields["x"] == ONE_TEXT;
    assert Blend(show, old_, new_).fields == old_.fields;
  }

  /** What `Apply` logs when a key goes from `s` to `w`: anything that is not two objects is
      overwritten whole, even by an equal value. */
  ghost predicate IsGoDelta(show: Printer, s: Slot, w: Value, ops: seq<WOp>) {
    if s.Present? && s.value.Object? && w.Object? then
      exists parsed :: IsDiff(s.value, Blend(show, s.value, w), parsed) && ops == GoPrint(parsed)
    else ops == [Update("/", w)]
  }

  /** What a replica makes of it. */
  function Reached(show: Printer, s: Slot, w: Value): Value {
    if s.Present? && s.value.Object? && w.Object? then Blend(show, s.value, w) else w
  }

  predicate Faithful(show: Printer, s: Slot, w: Value) {
    s.Present? && s.value.Object? && w.Object? ==> Distinct(show, s.value, w)
  }

  lemma GoDeltaEmpty(show: Printer, s: Slot, w: Value, ops: seq<WOp>)
    requires IsGoDelta(show, s, w, ops)
    ensures ops == [] <==> s.Present? && s.value.Object? && w.Object? && Blend(show, s.value, w) == s.value
  {
    if s.Present? && s.value.Object? && w.Object? {
      var parsed :| IsDiff(s.value, Blend(show, s.value, w), parsed) && ops == GoPrint(parsed);
      EmptyIffSame(s, Present(Blend(show, s.value, w)), parsed);
    }
  }

  // ---------- the differ ----------

  lemma PrefixedIsLift(k: string, ops: seq<POp>)
    requires AllDeep(ops)
    ensures Prefixed(k, GoPrint(ops)) == GoPrint(Lift(k, ops))
  {
    forall i | 0 <= i < |ops| ensures Prefixed(k, GoPrint(ops))[i] == GoPrint(Lift(k, ops))[i] {
      var p := [k] + ops[i].path;
      assert p[1..] == ops[i].path;
    }
  }

  lemma GoPrintOne(op: POp, k: string)
    requires op.path == []
    ensures GoPrint(Lift(k, [op])) == [WithPath(op, "/" + k)]
  {
    assert [k] + op.path == [k] && [k][1..] == [];
    assert Slashed([k]) == "/" + k + Slashed([]);
    assert "/" + k + "" == "/" + k;
  }

  lemma GoPrintAppend(a: seq<POp>, b: seq<POp>)
    ensures GoPrint(a + b) == GoPrint(a) + GoPrint(b)
  {
  }

  /** One more field: its delta joins the ones so far. */
  lemma CoverField(m: map<string, Value>, n: map<string, Value>, done: set<string>, diff: seq<POp>, k: string, sub: seq<POp>)
    requires Covers(m, n, done, diff) && k in m.Keys + n.Keys && k !in done && IsDelta(Field(m, k), Field(n, k), sub)
    ensures Covers(m, n, done + {k}, diff + Lift(k, sub))
    ensures GoPrint(diff + Lift(k, sub)) == GoPrint(diff) + GoPrint(Lift(k, sub))
  {
    hide Covers, IsDelta;
    CoverOne(m, n, done, diff, k, sub, []);
    GoPrintAppend(diff, Lift(k, sub));
  }

  /** `Diff` */
  method Diff(show: Printer, old_: Value, new_: Value) returns (ops: seq<WOp>)
    ensures IsGoDelta(show, Present(old_), new_, ops)
    decreases old_, 2
  {
    if !old_.Object? || !new_.Object? {
      return [Update("/", new_)];
    }
    ghost var parsed: seq<POp>;
    ops, parsed := DiffFields(show, old_, new_);
  }

  method DiffFields(show: Printer, old_: Value, new_: Value) returns (ops: seq<WOp>, ghost parsed: seq<POp>)
    requires old_.Object? && new_.Object?
    ensures IsDiff(old_, Blend(show, old_, new_), parsed) && ops == GoPrint(parsed)
    decreases old_, 1
  {
    var m, n := old_.fields, new_.fields;
    ghost var blend := Blend(show, old_, new_).fields;
    ops, parsed := [], [];
    var todo := m.Keys;
    ghost var done: set<string> := {};
    while todo != {}
      invariant todo !! done && todo + done == m.Keys
      invariant Covers(m, blend, done, parsed) && ops == GoPrint(parsed)
      decreases todo
    {
      hide Blend, IsDelta, IsDiff;
      var k :| k in todo;
      todo := todo - {k};
      var more: seq<WOp>;
      ghost var sub: seq<POp>;
      more, sub := DiffOld(show, old_, new_, k);
      CoverField(m, blend, done, parsed, k, sub);
      ops, parsed, done := ops + more, parsed + Lift(k, sub), done + {k};
    }
    assert done == m.Keys;
    ops, parsed := AddNew(m, n, blend, ops, parsed);
  }

  /** Body of the first loop: one key of the old object. */
  method DiffOld(show: Printer, old_: Value, new_: Value, k: string) returns (ops: seq<WOp>, ghost sub: seq<POp>)
    requires old_.Object? && new_.Object? && k in old_.fields
    ensures IsDelta(Field(old_.fields, k), Field(Blend(show, old_, new_).fields, k), sub) && ops == GoPrint(Lift(k, sub))
    decreases old_, 0
  {
    var m, n := old_.fields, new_.fields;
    if k !in n {
      sub := [Remove([])];
      GoPrintOne(sub[0], k);
      ops := [Remove("/" + k)];
    } else if m[k].Object? && n[k].Object? {
      var nested: seq<WOp>;
      nested, sub := DiffFields(show, m[k], n[k]);
      DeepDiff(m[k], Blend(show, m[k], n[k]), sub);
      PrefixedIsLift(k, sub);
      ops := Prefixed(k, nested);
    } else if !GoEqual(show, m[k], n[k]) {
      sub := [Update([], n[k])];
      GoPrintOne(sub[0], k);
      ops := [Update("/" + k, n[k])];
    } else {
      ops, sub := [], [];
      SelfDiffEmpty(m[k]);
    }
  }

  lemma DeepDiff(v: Value, w: Value, ops: seq<POp>)
    requires v.Object? && w.Object? && IsDiff(v, w, ops)
    ensures AllDeep(ops)
  {
  }

  /** Second loop: keys only the new object has. */
  method AddNew(m: map<string, Value>, n: map<string, Value>, ghost blend: map<string, Value>, ops0: seq<WOp>, ghost parsed0: seq<POp>)
    returns (ops: seq<WOp>, ghost parsed: seq<POp>)
    requires blend.Keys == n.Keys && forall k | k in n && k !in m :: blend[k] == n[k]
    requires Covers(m, blend, m.Keys, parsed0) && ops0 == GoPrint(parsed0)
    ensures IsDiff(Object(m), Object(blend), parsed) && ops == GoPrint(parsed)
  {
    hide Sub;
    ops, parsed := ops0, parsed0;
    var todo := n.Keys;
    ghost var done := m.Keys;
    while todo != {}
      invariant todo <= n.Keys && done == m.Keys + (n.Keys - todo)
      invariant Covers(m, blend, done, parsed) && ops == GoPrint(parsed)
      decreases todo
    {
      var k :| k in todo;
      todo := todo - {k};
      if k !in m {
        GoPrintOne(Add([], n[k]), k);
        CoverField(m, blend, done, parsed, k, [Add([], n[k])]);
        ops := ops + [Add("/" + k, n[k])];
        parsed, done := parsed + Lift(k, [Add([], n[k])]), done + {k};
      }
    }
    assert done == m.Keys + n.Keys;
  }

  // ---------- received by a replica ----------

  lemma {:induction false} SlashedIsJoin(p: Path)
    requires p != []
    ensures Slashed(p) == "/" + Join(p)
    decreases |p|
  {
    if |p| > 1 {
      SlashedIsJoin(p[1..]);
      assert "/" + p[0] + ("/" + Join(p[1..])) == "/" + (p[0] + "/" + Join(p[1..]));
    } else {
      assert p[1..] == [] && "/" + p[0] + "" == "/" + p[0];
    }
  }

  /** A path survives printing and parsing exactly when no key holds a slash and it is not the
      lone empty key. */
  lemma GoPathRoundTrip(p: Path)
    ensures ParsePath(GoPath(p)) == p <==> AllSlashFree(p) && p != [""]
  {
    if p != [] {
      SlashedIsJoin(p);
      var path := GoPath(p);
      assert path[1..] == Join(p);
      if AllSlashFree(p) {
        SplitJoin(p);
        JoinEmpty(p);
      } else {
        SplitIsSlashFree(path[1..]);
      }
    }
  }

  lemma {:induction false} JoinEmpty(p: Path)
    requires p != []
    ensures Join(p) == "" <==> p == [""]
  {
  }

  /** What `Apply` logs, parsed, is one step of the key's chain to the value replicas reach. */
  lemma GoDeltaParses(show: Printer, s: Slot, w: Value, ops: seq<WOp>)
    requires IsGoDelta(show, s, w, ops) && SafeSlot(s) && SafeValue(w)
    ensures IsStep(s, Present(Reached(show, s, w)), ParseAll(ops))
  {
    if s.Present? && s.value.Object? && w.Object? {
      var parsed :| IsDiff(s.value, Blend(show, s.value, w), parsed) && ops == GoPrint(parsed);
      BlendSafe(show, s.value, w);
      GoDeltaSurvives(s.value, Blend(show, s.value, w), parsed);
    } else {
      assert ParseAll(ops) == [Update([], w)];
    }
  }

  /** A replica that receives what `Apply` logs holds the new value exactly when no two different
      values that were compared print alike, for values whose keys hold no slash and whose
      top level has no empty key. */
  lemma GoRoundTrip(show: Printer, s: Slot, w: Value, ops: seq<WOp>)
    requires IsGoDelta(show, s, w, ops) && SafeSlot(s) && SafeValue(w)
    ensures Receive(Visible(s), ops) == Reached(show, s, w)
    ensures Receive(Visible(s), ops) == w <==> Faithful(show, s, w)
  {
    var t := Present(Reached(show, s, w));
    GoDeltaParses(show, s, w, ops);
    assert Chain([s, t], [ParseAll(ops)]);
    Replay([s, t], [ParseAll(ops)], 0);
    assert Flat([ParseAll(ops)]) == ParseAll(ops) + Flat([]) == ParseAll(ops);
    ApplyOpsIsVisible(s, ParseAll(ops));
    if s.Present? && s.value.Object? && w.Object? {
      BlendExact(show, s.value, w);
    }
  }

  lemma GoDeltaSurvives(v: Value, w: Value, ops: seq<POp>)
    requires v.Object? && w.Object? && IsDiff(v, w, ops) && SafeValue(v) && SafeValue(w)
    ensures ParseAll(GoPrint(ops)) == ops
  {
    forall i | 0 <= i < |ops| ensures ParseAll(GoPrint(ops))[i] == ops[i] {
      DiffPathsSlashFree(v, w, ops, i);
      assert ops[i].path[0] in v.fields.Keys + w.fields.Keys;
      GoPathRoundTrip(ops[i].path);
    }
  }
}
