/** The delta algebra over parsed paths: what one op does, what a structural
    diff is, and the laws that make replicas converge. */
module Delta {
  import opened Json

  /** One change; `P` is a parsed path (`seq<string>`) or a wire path (`string`). */
  datatype Op<P> = Add(path: P, value: Value) | Update(path: P, value: Value) | Remove(path: P)

  type Path = seq<string>
  type POp = Op<Path>

  function WithPath<P, Q>(op: Op<P>, q: Q): Op<Q> {
    match op
    case Add(_, v) => Add(q, v)
    case Update(_, v) => Update(q, v)
    case Remove(_) => Remove(q)
  }

  // ---------- one op ----------

  predicate IsDigits(seg: string) {
    seg != "" && forall i | 0 <= i < |seg| :: '0' <= seg[i] <= '9'
  }

  function Decimal(seg: string): nat
    requires forall i | 0 <= i < |seg| :: '0' <= seg[i] <= '9'
  {
    if seg == "" then 0
    else 10 * Decimal(seg[..|seg| - 1]) + (seg[|seg| - 1] as int - '0' as int)
  }

  /** The container implied by the segment that will index into it. */
  function ContainerFor(seg: string): Value {
    if seg == "-" || IsDigits(seg) then Array([]) else Object(map[])
  }

  /** The container to descend into: the one already there, or a fresh one. */
  function Seed(s: Slot, seg: string): (v: Value)
    ensures v.IsContainer()
  {
    if s.Present? && s.value.IsContainer() then s.value else ContainerFor(seg)
  }

  /** An op whose last segment addresses an element of an array. */
  function LeafInArray(elems: seq<Value>, last: string, op: POp): seq<Value> {
    if last == "-" then
      if !op.Remove? then elems + [op.value]
      else if elems != [] then elems[..|elems| - 1]
      else elems
    else if !IsDigits(last) then elems
    else
      var i := Decimal(last);
      if i < |elems| then
        if op.Remove? then elems[..i] + elems[i + 1..] else elems[i := op.value]
      else if i == |elems| && !op.Remove? then elems + [op.value]
      else elems
  }

  function Leaf(node: Value, last: string, op: POp): Value
    requires node.IsContainer()
  {
    match node
    case Array(elems) => Array(LeafInArray(elems, last, op))
    case Object(m) => if op.Remove? then Object(m - {last}) else Object(m[last := op.value])
  }

  /** Apply `op` below the container `node`, following `parts`. */
  function ApplyIn(node: Value, parts: Path, op: POp): (v: Value)
    requires node.IsContainer() && parts != []
    ensures v.IsContainer()
    ensures node.Object? ==> v.Object?
    decreases |parts|
  {
    if |parts| == 1 then Leaf(node, parts[0], op)
    else
      match node
      case Object(m) =>
        Object(m[parts[0] := ApplyIn(Seed(Field(m, parts[0]), parts[1]), parts[1..], op)])
      case Array(elems) =>
        if IsDigits(parts[0]) && Decimal(parts[0]) < |elems| then
          var i := Decimal(parts[0]);
          Array(elems[i := ApplyIn(Seed(Present(elems[i]), parts[1]), parts[1..], op)])
        else node
  }

  /** One op on a replica's value. */
  function ApplyOne(state: Value, op: POp): Value {
    if op.path == [] then
      if op.Remove? then Null else op.value
    else
      ApplyIn(Seed(Present(state), op.path[0]), op.path, op)
  }

  function ApplyOps(state: Value, ops: seq<POp>): Value
    decreases |ops|
  {
    if ops == [] then state else ApplyOps(ApplyOne(state, ops[0]), ops[1..])
  }

  /** One op on a slot; a root REMOVE leaves it absent. */
  function ApplySlot(s: Slot, op: POp): Slot {
    if op.path == [] then
      if op.Remove? then Absent else Present(op.value)
    else
      Present(ApplyIn(Seed(s, op.path[0]), op.path, op))
  }

  function ApplyAll(s: Slot, ops: seq<POp>): Slot
    decreases |ops|
  {
    if ops == [] then s else ApplyAll(ApplySlot(s, ops[0]), ops[1..])
  }

  /** A replica's value is the visible part of the slot. */
  lemma {:induction false} ApplyOpsIsVisible(s: Slot, ops: seq<POp>)
    ensures ApplyOps(Visible(s), ops) == Visible(ApplyAll(s, ops))
    decreases |ops|
  {
    if ops != [] {
      ApplyOpsIsVisible(ApplySlot(s, ops[0]), ops[1..]);
    }
  }

  lemma {:induction false} ApplyAllAppend(s: Slot, a: seq<POp>, b: seq<POp>)
    ensures ApplyAll(s, a + b) == ApplyAll(ApplyAll(s, a), b)
    decreases |a|
  {
    if a == [] {
      assert a + b == b;
    } else {
      assert (a + b)[1..] == a[1..] + b;
      ApplyAllAppend(ApplySlot(s, a[0]), a[1..], b);
    }
  }

  // ---------- projecting ops onto one field ----------

  predicate Under(op: POp, k: string) {
    op.path != [] && op.path[0] == k
  }

  function Tail(op: POp): POp
    requires op.path != []
  {
    WithPath(op, op.path[1..])
  }

  /** The ops that go through field `k`, seen from inside that field. */
  function Sub(ops: seq<POp>, k: string): (r: seq<POp>)
    ensures |r| <= |ops|
    decreases |ops|
  {
    if ops == [] then []
    else if Under(ops[0], k) then [Tail(ops[0])] + Sub(ops[1..], k)
    else Sub(ops[1..], k)
  }

  lemma {:induction false} SubAppend(a: seq<POp>, b: seq<POp>, k: string)
    ensures Sub(a + b, k) == Sub(a, k) + Sub(b, k)
    decreases |a|
  {
    if a == [] {
      assert a + b == b;
    } else {
      assert (a + b)[1..] == a[1..] + b;
      SubAppend(a[1..], b, k);
    }
  }

  lemma {:induction false} InSub(ops: seq<POp>, i: nat, k: string)
    requires i < |ops| && Under(ops[i], k)
    ensures Tail(ops[i]) in Sub(ops, k)
    decreases |ops|
  {
    if i > 0 {
      InSub(ops[1..], i - 1, k);
    }
  }

  predicate AllDeep(ops: seq<POp>) {
    forall i | 0 <= i < |ops| :: ops[i].path != []
  }

  lemma ApplyInObject(m: map<string, Value>, op: POp)
    requires op.path != []
    ensures ApplyIn(Object(m), op.path, op)
         == Object(SetField(m, op.path[0], ApplySlot(Field(m, op.path[0]), Tail(op))))
  {
    if |op.path| > 1 {
      ApplyInSameTarget(Seed(Field(m, op.path[0]), op.path[1]), op.path[1..], op, Tail(op));
    }
  }

  /** `ApplyIn` looks at the op's kind and value only. */
  lemma {:induction false} ApplyInSameTarget(node: Value, parts: Path, op: POp, op': POp)
    requires node.IsContainer() && parts != []
    requires op' == WithPath(op, op'.path)
    ensures ApplyIn(node, parts, op) == ApplyIn(node, parts, op')
    decreases |parts|
  {
    if |parts| > 1 {
      match node
      case Object(m) =>
        ApplyInSameTarget(Seed(Field(m, parts[0]), parts[1]), parts[1..], op, op');
      case Array(elems) =>
        if IsDigits(parts[0]) && Decimal(parts[0]) < |elems| {
          ApplyInSameTarget(Seed(Present(elems[Decimal(parts[0])]), parts[1]), parts[1..], op, op');
        }
    }
  }

  /** Ops on an object act field by field, whatever their interleaving. */
  lemma {:induction false} FieldByField(m: map<string, Value>, ops: seq<POp>, k: string)
    requires AllDeep(ops)
    ensures ApplyAll(Present(Object(m)), ops).Present?
    ensures ApplyAll(Present(Object(m)), ops).value.Object?
    ensures Field(ApplyAll(Present(Object(m)), ops).value.fields, k) == ApplyAll(Field(m, k), Sub(ops, k))
    decreases |ops|
  {
    if ops != [] {
      var op := ops[0];
      ApplyInObject(m, op);
      var m' := SetField(m, op.path[0], ApplySlot(Field(m, op.path[0]), Tail(op)));
      assert ApplySlot(Present(Object(m)), op) == Present(Object(m'));
      SetFieldLookup(m, op.path[0], ApplySlot(Field(m, op.path[0]), Tail(op)), k);
      FieldByField(m', ops[1..], k);
    }
  }

  // ---------- structural diff ----------

  /** `ops` is a structural diff from `v` to `w`, for some order of visiting the fields. */
  ghost predicate IsDiff(v: Value, w: Value, ops: seq<POp>)
    decreases v
  {
    if v.Object? && w.Object? then
      var m, n := v.fields, w.fields;
      && (forall i | 0 <= i < |ops| :: ops[i].path != [] && ops[i].path[0] in m.Keys + n.Keys)
      && (forall k | k in m.Keys + n.Keys ::
            if k !in m then Sub(ops, k) == [Add([], n[k])]
            else if k !in n then Sub(ops, k) == [Remove([])]
            else IsDiff(m[k], n[k], Sub(ops, k)))
    else if v == w then ops == []
    else ops == [Update([], w)]
  }

  /** The delta the store produces when a key goes from slot `s` to slot `t`. */
  ghost predicate IsDelta(s: Slot, t: Slot, ops: seq<POp>) {
    match (s, t)
    case (Absent, Absent) => ops == []
    case (Absent, Present(v)) => ops == [Add([], v)]
    case (Present(_), Absent) => ops == [Remove([])]
    case (Present(v), Present(w)) => IsDiff(v, w, ops)
  }

  lemma {:induction false} SubForeign(ops: seq<POp>, k: string)
    requires forall i | 0 <= i < |ops| :: !Under(ops[i], k)
    ensures Sub(ops, k) == []
    decreases |ops|
  {
    if ops != [] {
      SubForeign(ops[1..], k);
    }
  }

  /** A diff of two objects is a delta of every field. */
  lemma DiffOfField(m: map<string, Value>, n: map<string, Value>, ops: seq<POp>, k: string)
    requires IsDiff(Object(m), Object(n), ops)
    ensures AllDeep(ops)
    ensures IsDelta(Field(m, k), Field(n, k), Sub(ops, k))
  {
    if k !in m.Keys + n.Keys {
      SubForeign(ops, k);
    }
  }

  // ---------- histories ----------

  /** One step of a key: a structural delta, or an UPDATE of the whole value, needed or not. */
  ghost predicate IsStep(s: Slot, t: Slot, ops: seq<POp>) {
    IsDelta(s, t, ops) || (t.Present? && ops == [Update([], t.value)])
  }

  /** The values of one key over time, and the deltas between neighbours. */
  ghost predicate Chain(hist: seq<Slot>, ds: seq<seq<POp>>) {
    |hist| == |ds| + 1 && forall i | 0 <= i < |ds| :: IsStep(hist[i], hist[i + 1], ds[i])
  }

  function Flat<T>(ds: seq<seq<T>>): seq<T>
    decreases |ds|
  {
    if ds == [] then [] else ds[0] + Flat(ds[1..])
  }

  lemma {:induction false} FlatAppend<T>(a: seq<seq<T>>, b: seq<seq<T>>)
    ensures Flat(a + b) == Flat(a) + Flat(b)
    decreases |a|
  {
    if a == [] {
      assert a + b == b;
    } else {
      assert (a + b)[1..] == a[1..] + b;
      FlatAppend(a[1..], b);
    }
  }

  function Subs(ds: seq<seq<POp>>, k: string): (r: seq<seq<POp>>)
    ensures |r| == |ds|
    ensures forall i | 0 <= i < |ds| :: r[i] == Sub(ds[i], k)
  {
    seq(|ds|, i requires 0 <= i < |ds| => Sub(ds[i], k))
  }

  lemma {:induction false} SubFlat(ds: seq<seq<POp>>, k: string)
    ensures Sub(Flat(ds), k) == Flat(Subs(ds, k))
    decreases |ds|
  {
    if ds != [] {
      SubAppend(ds[0], Flat(ds[1..]), k);
      SubFlat(ds[1..], k);
      assert Subs(ds, k)[1..] == Subs(ds[1..], k);
    }
  }

  /** A delta that overwrites the whole slot. */
  predicate IsWhole(d: seq<POp>) {
    |d| == 1 && d[0].path == []
  }

  predicate NoWhole(ds: seq<seq<POp>>) {
    forall i | 0 <= i < |ds| :: !IsWhole(ds[i])
  }

  /** A whole-slot delta ignores what was there before. */
  lemma WholeOverwrites(s: Slot, t: Slot, d: seq<POp>, from: Slot)
    requires IsStep(s, t, d) && IsWhole(d)
    ensures ApplyAll(from, d) == t
  {
    assert d[1..] == [];
    assert ApplyAll(from, d) == ApplySlot(from, d[0]);
  }

  /** Without a whole-slot delta, the slot either never changes or is an object throughout. */
  lemma {:induction false} NoWholeShape(hist: seq<Slot>, ds: seq<seq<POp>>, j: nat)
    requires Chain(hist, ds) && j <= |ds| && NoWhole(ds)
    ensures var last := hist[|ds|];
      if last.Present? && last.value.Object?
      then hist[j].Present? && hist[j].value.Object?
      else hist[j] == last && Flat(ds) == []
    decreases |ds|
  {
    if ds != [] {
      var rest, h := ds[1..], hist[1..];
      forall i | 0 <= i < |rest| ensures IsStep(h[i], h[i + 1], rest[i]) {
        assert IsStep(hist[i + 1], hist[i + 2], ds[i + 1]);
      }
      NoWholeShape(h, rest, 0);
      if j > 0 {
        NoWholeShape(h, rest, j - 1);
      }
      assert IsStep(hist[0], hist[1], ds[0]);
      assert Flat(ds) == ds[0] + Flat(rest);
    }
  }

  // ---------- deliveries ----------

  /** The deltas numbered by `order`, in that order. */
  function Pick<T>(ds: seq<T>, order: seq<nat>): (r: seq<T>)
    requires InRange(order, |ds|)
    ensures |r| == |order|
    ensures forall i | 0 <= i < |order| :: r[i] == ds[order[i]]
  {
    seq(|order|, i requires 0 <= i < |order| => ds[order[i]])
  }

  predicate InRange(order: seq<nat>, n: nat) {
    forall i | 0 <= i < |order| :: order[i] < n
  }

  /** Delivering deltas in this order on top of the value of moment `v`, out of `n` deltas,
      skips no delta the value lacks, and after any delta every newer one is still to come.
      Repeats and reorderings are allowed. */
  predicate GoodOrder(order: seq<nat>, v: nat, n: nat) {
    && (forall j | v <= j < n :: j in order)
    && (forall p, j | 0 <= p < |order| && order[p] < j < n :: ComesAfter(order, p, j))
  }

  /** `j` occurs after position `p`. */
  predicate ComesAfter(order: seq<nat>, p: nat, j: nat) {
    exists q | p < q < |order| :: order[q] == j
  }

  function Shift(order: seq<nat>, off: nat): (r: seq<nat>)
    requires forall i | 0 <= i < |order| :: order[i] >= off
    ensures |r| == |order|
    ensures forall i | 0 <= i < |order| :: r[i] == order[i] - off
  {
    seq(|order|, i requires 0 <= i < |order| => order[i] - off)
  }

  lemma ShiftGood(order: seq<nat>, off: nat, v: nat, n: nat)
    requires off <= v && off <= n && GoodOrder(order, v, n) && InRange(order, n)
    requires forall i | 0 <= i < |order| :: order[i] >= off
    ensures GoodOrder(Shift(order, off), v - off, n - off) && InRange(Shift(order, off), n - off)
  {
    var r := Shift(order, off);
    forall j | v - off <= j < n - off ensures j in r {
      assert j + off in order;
      var i :| 0 <= i < |order| && order[i] == j + off;
      assert r[i] == j;
    }
    forall p, j | 0 <= p < |r| && r[p] < j < n - off ensures ComesAfter(r, p, j) {
      assert ComesAfter(order, p, j + off);
      var q :| p < q < |order| && order[q] == j + off;
      assert r[q] == j;
    }
  }

  lemma PickShift<T>(ds: seq<T>, order: seq<nat>, off: nat)
    requires InRange(order, |ds|) && off <= |ds|
    requires forall i | 0 <= i < |order| :: order[i] >= off
    ensures InRange(Shift(order, off), |ds| - off)
    ensures Pick(ds, order) == Pick(ds[off..], Shift(order, off))
  {
  }

  lemma {:induction false} LastIndex(order: seq<nat>, p: nat) returns (q: nat)
    requires p in order
    ensures q < |order| && order[q] == p && p !in order[q + 1..]
    decreases |order|
  {
    if p in order[1..] {
      var q' := LastIndex(order[1..], p);
      q := q' + 1;
      assert order[1..][q' + 1..] == order[q + 1..];
    } else {
      q := 0;
    }
  }

  /** After the last copy of delta `p`, only newer deltas arrive, and all of them do. */
  lemma GoodAfter(order: seq<nat>, v: nat, n: nat, q: nat)
    requires GoodOrder(order, v, n) && InRange(order, n) && q < |order| && order[q] !in order[q + 1..]
    ensures var rest := order[q + 1..];
      GoodOrder(rest, order[q] + 1, n) && InRange(rest, n) && forall i | 0 <= i < |rest| :: rest[i] > order[q]
  {
    var rest := order[q + 1..];
    assert forall i | q < i < |order| :: order[i] == rest[i - q - 1];
    assert forall i | 0 <= i < |rest| :: rest[i] in rest;
    assert forall i | q < i < |order| && order[i] < order[q] :: ComesAfter(order, i, order[q]);
    forall j | order[q] < j < n ensures j in rest {
      assert ComesAfter(order, q, j);
      var q' :| q < q' < |order| && order[q'] == j;
      assert rest[q' - q - 1] == j;
    }
    forall p, j | 0 <= p < |rest| && rest[p] < j < n ensures ComesAfter(rest, p, j) {
      assert ComesAfter(order, q + 1 + p, j);
      var q' :| q + 1 + p < q' < |order| && order[q'] == j;
      assert rest[q' - q - 1] == j;
    }
  }

  /** Without any copy of delta `p`, nothing older arrives either and the value is newer. */
  lemma GoodWithout(order: seq<nat>, v: nat, n: nat, p: nat)
    requires GoodOrder(order, v, n) && p < n && p !in order
    ensures v > p && forall i | 0 <= i < |order| :: order[i] > p
  {
    assert forall i | 0 <= i < |order| && order[i] < p :: ComesAfter(order, i, p);
    assert forall i | 0 <= i < |order| :: order[i] in order;
  }

  lemma ChainSuffix(hist: seq<Slot>, ds: seq<seq<POp>>, c: nat)
    requires Chain(hist, ds) && c <= |ds|
    ensures Chain(hist[c..], ds[c..])
  {
    forall i | 0 <= i < |ds| - c ensures IsStep(hist[c..][i], hist[c..][i + 1], ds[c..][i]) {
      assert IsStep(hist[c + i], hist[c + i + 1], ds[c + i]);
    }
  }

  /** A whole-slot delta makes everything before it irrelevant. */
  lemma CutAtWhole(hist: seq<Slot>, ds: seq<seq<POp>>, order: seq<nat>, v: nat, p: nat)
    returns (rest: seq<nat>, w: nat)
    requires Chain(hist, ds) && v <= |ds| && InRange(order, |ds|) && GoodOrder(order, v, |ds|)
    requires p < |ds| && IsWhole(ds[p])
    ensures w <= |ds| - p - 1 && InRange(rest, |ds| - p - 1) && GoodOrder(rest, w, |ds| - p - 1)
    ensures ApplyAll(hist[v], Flat(Pick(ds, order))) == ApplyAll(hist[p + 1..][w], Flat(Pick(ds[p + 1..], rest)))
  {
    hide IsStep, ApplyAll, Flat, GoodOrder;
    if p in order {
      var q := LastIndex(order, p);
      GoodAfter(order, v, |ds|, q);
      ShiftGood(order[q + 1..], p + 1, p + 1, |ds|);
      PickShift(ds, order[q + 1..], p + 1);
      rest, w := Shift(order[q + 1..], p + 1), 0;
      var before := Pick(ds, order[..q]);
      assert Pick(ds, order) == before + [ds[p]] + Pick(ds, order[q + 1..]);
      FlatAppend(before + [ds[p]], Pick(ds, order[q + 1..]));
      ApplyAllAppend(hist[v], Flat(before + [ds[p]]), Flat(Pick(ds, order[q + 1..])));
      EndsWhole(hist, ds, p, before, hist[v]);
    } else {
      GoodWithout(order, v, |ds|, p);
      ShiftGood(order, p + 1, v, |ds|);
      PickShift(ds, order, p + 1);
      rest, w := Shift(order, p + 1), v - p - 1;
    }
  }

  lemma EndsWhole(hist: seq<Slot>, ds: seq<seq<POp>>, p: nat, before: seq<seq<POp>>, from: Slot)
    requires Chain(hist, ds) && p < |ds| && IsWhole(ds[p])
    ensures ApplyAll(from, Flat(before + [ds[p]])) == hist[p + 1]
  {
    FlatAppend(before, [ds[p]]);
    assert Flat([ds[p]]) == ds[p] + Flat([]) == ds[p];
    ApplyAllAppend(from, Flat(before), ds[p]);
    WholeOverwrites(hist[p], hist[p + 1], ds[p], ApplyAll(from, Flat(before)));
  }

  ghost predicate AllObjects(hist: seq<Slot>) {
    forall i | 0 <= i < |hist| :: hist[i].Present? && hist[i].value.Object?
  }

  function FieldHistory(hist: seq<Slot>, k: string): (r: seq<Slot>)
    requires AllObjects(hist)
    ensures |r| == |hist|
    ensures forall i | 0 <= i < |hist| :: r[i] == Field(hist[i].value.fields, k)
  {
    seq(|hist|, i requires 0 <= i < |hist| => Field(hist[i].value.fields, k))
  }

  lemma FieldChain(hist: seq<Slot>, ds: seq<seq<POp>>, k: string)
    requires Chain(hist, ds) && AllObjects(hist) && NoWhole(ds)
    ensures Chain(FieldHistory(hist, k), Subs(ds, k))
  {
    forall i | 0 <= i < |ds|
      ensures IsStep(FieldHistory(hist, k)[i], FieldHistory(hist, k)[i + 1], Subs(ds, k)[i])
    {
      assert IsStep(hist[i], hist[i + 1], ds[i]) && !IsWhole(ds[i]);
      DiffOfField(hist[i].value.fields, hist[i + 1].value.fields, ds[i], k);
    }
  }

  lemma {:induction false} FlatDeep(ds: seq<seq<POp>>)
    requires forall i | 0 <= i < |ds| :: AllDeep(ds[i])
    ensures AllDeep(Flat(ds))
    decreases |ds|
  {
    if ds != [] {
      FlatDeep(ds[1..]);
    }
  }

  lemma {:induction false} FlatEmpty(ds: seq<seq<POp>>)
    ensures Flat(ds) == [] <==> forall i | 0 <= i < |ds| :: ds[i] == []
    decreases |ds|
  {
    if ds != [] {
      FlatEmpty(ds[1..]);
      assert forall i | 0 <= i < |ds[1..]| :: ds[1..][i] == ds[i + 1];
    }
  }

  /** Delivery: whatever the repeats and reorderings, a good order ends at the newest value. */
  lemma {:induction false} Deliver(hist: seq<Slot>, ds: seq<seq<POp>>, order: seq<nat>, v: nat)
    requires Chain(hist, ds) && v <= |ds| && InRange(order, |ds|) && GoodOrder(order, v, |ds|)
    ensures ApplyAll(hist[v], Flat(Pick(ds, order))) == hist[|ds|]
    decreases Visible(hist[|ds|]), |ds|, 1
  {
    hide IsStep, ApplyAll, Flat, GoodOrder;
    if p :| 0 <= p < |ds| && IsWhole(ds[p]) {
      var rest, w := CutAtWhole(hist, ds, order, v, p);
      ChainSuffix(hist, ds, p + 1);
      Deliver(hist[p + 1..], ds[p + 1..], rest, w);
    } else {
      NoWholeShape(hist, ds, v);
      if hist[|ds|].Present? && hist[|ds|].value.Object? {
        forall i | 0 <= i < |hist| ensures hist[i].Present? && hist[i].value.Object? {
          NoWholeShape(hist, ds, i);
        }
        DeliverObject(hist, ds, order, v);
      } else {
        DeliverNothing(ds, order, hist[v]);
      }
    }
  }

  lemma DeliverNothing(ds: seq<seq<POp>>, order: seq<nat>, s: Slot)
    requires Flat(ds) == [] && InRange(order, |ds|)
    ensures ApplyAll(s, Flat(Pick(ds, order))) == s
  {
    FlatEmpty(ds);
    FlatEmpty(Pick(ds, order));
  }

  lemma {:induction false} DeliverObject(hist: seq<Slot>, ds: seq<seq<POp>>, order: seq<nat>, v: nat)
    requires Chain(hist, ds) && v <= |ds| && InRange(order, |ds|) && GoodOrder(order, v, |ds|)
    requires AllObjects(hist) && NoWhole(ds)
    ensures ApplyAll(hist[v], Flat(Pick(ds, order))) == hist[|ds|]
    decreases Visible(hist[|ds|]), |ds|, 0
  {
    hide IsStep, ApplyAll, Flat, GoodOrder, IsDiff;
    var m, n := hist[v].value.fields, hist[|ds|].value.fields;
    var picked := Pick(ds, order);
    PickDeep(hist, ds, order);
    FieldByField(m, Flat(picked), "");
    var got := ApplyAll(Present(Object(m)), Flat(picked)).value.fields;
    forall k ensures Field(got, k) == Field(n, k) {
      FieldByField(m, Flat(picked), k);
      SubFlat(picked, k);
      assert Subs(picked, k) == Pick(Subs(ds, k), order);
      FieldChain(hist, ds, k);
      if k in n {
        assert Visible(FieldHistory(hist, k)[|ds|]) == n[k];
        Deliver(FieldHistory(hist, k), Subs(ds, k), order, v);
      } else {
        DeliverAbsent(FieldHistory(hist, k), Subs(ds, k), order, v);
      }
    }
    SameFields(got, n);
  }

  lemma PickDeep(hist: seq<Slot>, ds: seq<seq<POp>>, order: seq<nat>)
    requires Chain(hist, ds) && AllObjects(hist) && NoWhole(ds) && InRange(order, |ds|)
    ensures AllDeep(Flat(Pick(ds, order)))
  {
    var picked := Pick(ds, order);
    forall i | 0 <= i < |picked| ensures AllDeep(picked[i]) {
      assert IsStep(hist[order[i]], hist[order[i] + 1], ds[order[i]]) && !IsWhole(ds[order[i]]);
    }
    FlatDeep(picked);
  }

  lemma {:induction false} DeliverAbsent(hist: seq<Slot>, ds: seq<seq<POp>>, order: seq<nat>, v: nat)
    requires Chain(hist, ds) && v <= |ds| && InRange(order, |ds|) && GoodOrder(order, v, |ds|)
    requires hist[|ds|] == Absent
    ensures ApplyAll(hist[v], Flat(Pick(ds, order))) == Absent
    decreases |ds|
  {
    hide IsStep, ApplyAll, Flat, GoodOrder;
    if p :| 0 <= p < |ds| && IsWhole(ds[p]) {
      var rest, w := CutAtWhole(hist, ds, order, v, p);
      ChainSuffix(hist, ds, p + 1);
      DeliverAbsent(hist[p + 1..], ds[p + 1..], rest, w);
    } else {
      NoWholeShape(hist, ds, v);
      DeliverNothing(ds, order, hist[v]);
    }
  }

  /** The numbers from `c` up to `n`. */
  function Range(c: nat, n: nat): (r: seq<nat>)
    ensures |r| == if c <= n then n - c else 0
    ensures forall i | 0 <= i < |r| :: r[i] == c + i
  {
    seq(if c <= n then n - c else 0, i requires 0 <= i => c + i)
  }

  lemma RangeGood(c: nat, v: nat, n: nat)
    requires c <= v <= n
    ensures GoodOrder(Range(c, n), v, n)
  {
    var r := Range(c, n);
    forall j | v <= j < n ensures j in r {
      assert r[j - c] == j;
    }
    forall p, j | 0 <= p < |r| && r[p] < j < n ensures ComesAfter(r, p, j) {
      assert r[j - c] == j;
    }
  }

  /** Replay: fold a run of consecutive deltas onto ANY value the key had during that
      run, the newest included, and the result is the newest value. */
  lemma Replay(hist: seq<Slot>, ds: seq<seq<POp>>, j: nat)
    requires Chain(hist, ds) && j <= |ds|
    ensures ApplyAll(hist[j], Flat(ds)) == hist[|ds|]
  {
    RangeGood(0, j, |ds|);
    Deliver(hist, ds, Range(0, |ds|), j);
    assert Pick(ds, Range(0, |ds|)) == ds;
  }

  // ---------- corollaries ----------

  /** Round trip: applying a delta to the old slot gives the new one. */
  lemma RoundTrip(s: Slot, t: Slot, ops: seq<POp>)
    requires IsDelta(s, t, ops)
    ensures ApplyAll(s, ops) == t
  {
    Replay([s, t], [ops], 0);
    assert Flat([ops]) == ops + Flat([]) == ops;
  }

  /** A delta is empty exactly when nothing changed. */
  lemma EmptyIffSame(s: Slot, t: Slot, ops: seq<POp>)
    requires IsDelta(s, t, ops)
    ensures ops == [] <==> s == t
  {
    if ops == [] {
      RoundTrip(s, t, ops);
    }
    if s == t && s.Present? {
      SelfDiff(s.value, ops);
    }
  }

  lemma {:induction false} SelfDiff(v: Value, ops: seq<POp>)
    requires IsDiff(v, v, ops)
    ensures ops == []
    decreases v
  {
    if v.Object? && ops != [] {
      var k := ops[0].path[0];
      assert k in v.fields;
      SelfDiff(v.fields[k], Sub(ops, k));
      assert Sub(ops, k) == [Tail(ops[0])] + Sub(ops[1..], k);
    }
  }
}
