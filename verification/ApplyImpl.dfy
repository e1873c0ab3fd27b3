/** A replica's applier, with its descending cursor. */
module ApplyImpl {
  import opened Basics
  import opened Json
  import opened Delta
  import opened Paths
  import opened Wire

  /** An op as decoded from a frame; a missing path reads as "/" and a missing value as null. */
  datatype RawOp = RawOp(kind: string, path: string, value: Value)

  predicate Known(op: RawOp) {
    op.kind == "ADD" || op.kind == "UPDATE" || op.kind == "REMOVE"
  }

  function ToOp(op: RawOp): WOp
    requires Known(op)
  {
    if op.kind == "REMOVE" then Remove(op.path)
    else if op.kind == "ADD" then Add(op.path, op.value)
    else Update(op.path, op.value)
  }

  /** How the server writes an op: the kind by name, and a value unless it is a removal. */
  function RawOf(op: WOp): RawOp {
    match op
    case Add(path, value) => RawOp("ADD", path, value)
    case Update(path, value) => RawOp("UPDATE", path, value)
    case Remove(path) => RawOp("REMOVE", path, Null)
  }

  /** A replica reads every op as the server meant it. */
  lemma RawRoundTrip(op: WOp)
    ensures Known(RawOf(op)) && ToOp(RawOf(op)) == op
  {
  }

  function ToOps(ops: seq<RawOp>): (r: seq<WOp>)
    requires forall i | 0 <= i < |ops| :: Known(ops[i])
    ensures |r| == |ops|
    ensures forall i | 0 <= i < |ops| :: r[i] == ToOp(ops[i])
  {
    seq(|ops|, i requires 0 <= i < |ops| => ToOp(ops[i]))
  }

  function Parsed(op: RawOp): POp
    requires Known(op)
  {
    WithPath(ToOp(op), ParsePath(op.path))
  }

  /** One step the cursor has taken, and how to put a changed child back. */
  datatype Hop = FieldHop(fields: map<string, Value>, key: string) | ElementHop(elems: seq<Value>, index: nat)

  predicate ValidHop(h: Hop) {
    h.ElementHop? ==> h.index < |h.elems|
  }

  function Fill(h: Hop, child: Value): Value
    requires ValidHop(h)
  {
    match h
    case FieldHop(fields, key) => Object(fields[key := child])
    case ElementHop(elems, index) => Array(elems[index := child])
  }

  /** The whole tree, given the spine walked so far and the node the cursor is on. */
  function Rebuild(spine: seq<Hop>, node: Value): Value
    requires forall i | 0 <= i < |spine| :: ValidHop(spine[i])
    decreases |spine|
  {
    if spine == [] then node
    else Rebuild(spine[..|spine| - 1], Fill(spine[|spine| - 1], node))
  }

  /** sodp-py `_apply_one`, after the op kind has been checked. */
  method ApplyOneOp(state: Value, op: POp) returns (r: Value)
    ensures r == ApplyOne(state, op)
  {
    var parts := op.path;
    if parts == [] {
      return if op.Remove? then Null else op.value;
    }
    var node := Seed(Present(state), parts[0]);
    ghost var result := ApplyIn(node, parts, op);
    var spine: seq<Hop> := [];
    var i := 0;
    while i < |parts| - 1
      invariant 0 <= i < |parts|
      invariant node.IsContainer()
      invariant forall j | 0 <= j < |spine| :: ValidHop(spine[j])
      invariant Rebuild(spine, ApplyIn(node, parts[i..], op)) == result
    {
      var key := parts[i];
      assert parts[i..][1..] == parts[i + 1..];
      var hop: Hop;
      if node.Array? {
        if !IsDigits(key) || Decimal(key) >= |node.elems| {
          r := Reassemble(spine, node);
          return;
        }
        hop := ElementHop(node.elems, Decimal(key));
        node := Seed(Present(node.elems[Decimal(key)]), parts[i + 1]);
      } else {
        hop := FieldHop(node.fields, key);
        node := Seed(Field(node.fields, key), parts[i + 1]);
      }
      assert (spine + [hop])[..|spine|] == spine;
      spine := spine + [hop];
      i := i + 1;
    }
    assert parts[i..] == [parts[i]];
    r := Reassemble(spine, Leaf(node, parts[i], op));
  }

  method Reassemble(spine: seq<Hop>, node: Value) returns (r: Value)
    requires forall i | 0 <= i < |spine| :: ValidHop(spine[i])
    ensures r == Rebuild(spine, node)
  {
    r := node;
    var n := |spine|;
    assert spine[..n] == spine;
    while n > 0
      invariant 0 <= n <= |spine|
      invariant Rebuild(spine[..n], r) == Rebuild(spine, node)
    {
      n := n - 1;
      assert spine[..n + 1][..n] == spine[..n];
      r := Fill(spine[n], r);
    }
  }

  /** sodp-py `apply_ops`: an unknown kind raises, and the caller keeps its old value. */
  method ApplyFrame(state: Value, ops: seq<RawOp>) returns (r: Option<Value>)
    ensures r.Some? <==> forall i | 0 <= i < |ops| :: Known(ops[i])
    ensures r.Some? ==> r.value == Receive(state, ToOps(ops))
  {
    var current := state;
    ghost var done: seq<POp> := [];
    var i := 0;
    while i < |ops|
      invariant 0 <= i <= |ops| && |done| == i
      invariant forall j | 0 <= j < i :: Known(ops[j]) && done[j] == Parsed(ops[j])
      invariant current == ApplyOps(state, done)
    {
      if !Known(ops[i]) {
        return None;
      }
      ApplyOpsSnoc(state, done, Parsed(ops[i]));
      current := ApplyOneOp(current, Parsed(ops[i]));
      done := done + [Parsed(ops[i])];
      i := i + 1;
    }
    assert done == ParseAll(ToOps(ops));
    r := Some(current);
  }

  lemma {:induction false} ApplyOpsSnoc(state: Value, ops: seq<POp>, op: POp)
    ensures ApplyOps(state, ops + [op]) == ApplyOne(ApplyOps(state, ops), op)
    decreases |ops|
  {
    if ops == [] {
      assert ops + [op] == [op];
      assert [op][1..] == [];
    } else {
      assert (ops + [op])[1..] == ops[1..] + [op];
      ApplyOpsSnoc(ApplyOne(state, ops[0]), ops[1..], op);
    }
  }
}
