/** What a replica's applier does at a path, arrays included: exactly which
    writes can be read back, and what removals do. */
module Addressing {
  import opened Basics
  import opened Json
  import opened Delta

  /** Read-only navigation: a field name in objects, a decimal index in arrays. */
  function Resolve(v: Value, p: Path): Slot
    decreases |p|
  {
    if p == [] then Present(v)
    else
      match v
      case Object(m) => if p[0] in m then Resolve(m[p[0]], p[1..]) else Absent
      case Array(elems) =>
        if IsDigits(p[0]) && Decimal(p[0]) < |elems| then Resolve(elems[Decimal(p[0])], p[1..]) else Absent
      case _ => Absent
  }

  /** A write at `p` below `node` lands at `p`: every array on the way has the element,
      and a final array index is at most one past the end. */
  predicate Addressable(node: Value, p: Path)
    requires node.IsContainer() && p != []
    decreases |p|
  {
    match node
    case Object(m) => |p| == 1 || Addressable(Seed(Field(m, p[0]), p[1]), p[1..])
    case Array(elems) =>
      && IsDigits(p[0])
      && if |p| == 1 then Decimal(p[0]) <= |elems|
         else Decimal(p[0]) < |elems| && Addressable(Seed(Present(elems[Decimal(p[0])]), p[1]), p[1..])
  }

  lemma {:induction false} WriteBelow(node: Value, p: Path, op: POp)
    requires node.IsContainer() && p != [] && !op.Remove?
    ensures Resolve(ApplyIn(node, p, op), p) == Present(op.value) <==> Addressable(node, p)
    decreases |p|
  {
    if |p| == 1 {
      assert p[1..] == [];
    } else if node.Object? {
      WriteBelow(Seed(Field(node.fields, p[0]), p[1]), p[1..], op);
    } else if IsDigits(p[0]) && Decimal(p[0]) < |node.elems| {
      WriteBelow(Seed(Present(node.elems[Decimal(p[0])]), p[1]), p[1..], op);
    }
  }

  /** An ADD or UPDATE can be read back at its path exactly when the path is addressable. */
  lemma WriteReadExact(state: Value, op: POp)
    requires !op.Remove?
    ensures Resolve(ApplyOne(state, op), op.path) == Present(op.value)
       <==> op.path == [] || Addressable(Seed(Present(state), op.path[0]), op.path)
  {
    if op.path != [] {
      WriteBelow(Seed(Present(state), op.path[0]), op.path, op);
    }
  }

  /** The object field that ends a path, if the path ends in one. */
  predicate EndsInField(node: Value, p: Path)
    requires node.IsContainer() && p != []
    decreases |p|
  {
    match node
    case Object(m) => |p| == 1 || EndsInField(Seed(Field(m, p[0]), p[1]), p[1..])
    case Array(elems) =>
      && |p| > 1 && IsDigits(p[0]) && Decimal(p[0]) < |elems|
      && EndsInField(Seed(Present(elems[Decimal(p[0])]), p[1]), p[1..])
  }

  lemma {:induction false} RemoveBelow(node: Value, p: Path, op: POp)
    requires node.IsContainer() && p != [] && op.Remove? && EndsInField(node, p)
    ensures Resolve(ApplyIn(node, p, op), p) == Absent
    decreases |p|
  {
    if |p| > 1 {
      if node.Object? {
        RemoveBelow(Seed(Field(node.fields, p[0]), p[1]), p[1..], op);
      } else {
        RemoveBelow(Seed(Present(node.elems[Decimal(p[0])]), p[1]), p[1..], op);
      }
    }
  }

  /** REMOVE of an object field leaves nothing at the path. */
  lemma RemoveReads(state: Value, op: POp)
    requires op.Remove? && op.path != [] && EndsInField(Seed(Present(state), op.path[0]), op.path)
    ensures Resolve(ApplyOne(state, op), op.path) == Absent
  {
    RemoveBelow(Seed(Present(state), op.path[0]), op.path, op);
  }

  // ---------- array elements ----------

  /** How indices are written. */
  function Digits(n: nat): (s: string)
    ensures s != ""
    decreases n
  {
    var last := [('0' as int + n % 10) as char];
    if n < 10 then last else Digits(n / 10) + last
  }

  lemma {:induction false} DecimalDigits(n: nat)
    ensures IsDigits(Digits(n)) && Decimal(Digits(n)) == n
    decreases n
  {
    var s := Digits(n);
    if n < 10 {
      assert s[..0] == "";
    } else {
      DecimalDigits(n / 10);
      assert s[..|s| - 1] == Digits(n / 10);
    }
  }

  lemma ResolveElement(elems: seq<Value>, j: nat)
    ensures Resolve(Array(elems), [Digits(j)]) == if j < |elems| then Present(elems[j]) else Absent
  {
    hide Digits;
    DecimalDigits(j);
    assert [Digits(j)][1..] == [];
  }

  lemma RemoveElement(elems: seq<Value>, i: nat)
    requires i < |elems|
    ensures ApplyOne(Array(elems), Remove([Digits(i)])) == Array(elems[..i] + elems[i + 1..])
  {
    hide Digits;
    DecimalDigits(i);
  }

  /** Removing element `i` of an array closes the gap: later elements move down by one. */
  lemma ArrayRemove(elems: seq<Value>, i: nat, j: nat)
    requires i < |elems|
    ensures Resolve(ApplyOne(Array(elems), Remove([Digits(i)])), [Digits(j)])
         == Resolve(Array(elems), [Digits(if j < i then j else j + 1)])
  {
    hide Resolve, ApplyOne, Digits;
    RemoveElement(elems, i);
    ResolveElement(elems[..i] + elems[i + 1..], j);
    ResolveElement(elems, if j < i then j else j + 1);
  }

  lemma ApplyTwo(v: Value, a: POp, b: POp)
    ensures ApplyOps(v, [a, b]) == ApplyOne(ApplyOne(v, a), b)
  {
    var ops, w := [a, b], ApplyOne(v, a);
    assert ops[1..] == [b];
    assert ApplyOps(v, ops) == ApplyOps(w, [b]);
    assert [b][1..] == [];
    assert ApplyOps(w, [b]) == ApplyOps(ApplyOne(w, b), []);
  }

  /** REMOVE undoes an append, whether by "-" or by the next index. */
  lemma RemoveAppended(elems: seq<Value>, x: Value, seg: string)
    requires seg == "-" || (IsDigits(seg) && Decimal(seg) == |elems|)
    ensures ApplyOps(Array(elems), [Add([seg], x), Remove([seg])]) == Array(elems)
  {
    var ops: seq<POp> := [Add([seg], x), Remove([seg])];
    assert LeafInArray(elems, seg, ops[0]) == elems + [x];
    assert LeafInArray(elems + [x], seg, ops[1]) == elems;
    assert ApplyOne(Array(elems), ops[0]) == Array(elems + [x]);
    assert ApplyOne(Array(elems + [x]), ops[1]) == Array(elems);
    ApplyTwo(Array(elems), ops[0], ops[1]);
  }

  // ---------- what one op leaves alone ----------

  /** The array position an op with this last segment changes, if any: an existing element, or for
      a write also one past the end. */
  function Target(elems: seq<Value>, seg: string, remove: bool): Option<nat> {
    if seg == "-" then
      if !remove then Some(|elems|) else if elems == [] then None else Some(|elems| - 1)
    else if IsDigits(seg) && (Decimal(seg) < |elems| || (!remove && Decimal(seg) == |elems|)) then Some(Decimal(seg))
    else None
  }

  /** An op on an array changes its target and nothing else, element by element. */
  predicate OnlyTarget(elems: seq<Value>, r: seq<Value>, t: Option<nat>, op: POp) {
    match t
    case None => r == elems
    case Some(i) =>
      if op.Remove? then
        i < |elems| && |r| == |elems| - 1 && forall j | 0 <= j < |r| :: r[j] == elems[if j < i then j else j + 1]
      else
        && i <= |elems| && |r| == (if i < |elems| then |elems| else |elems| + 1) && r[i] == op.value
        && forall j | 0 <= j < |elems| && j != i :: r[j] == elems[j]
  }

  lemma LeafLaw(elems: seq<Value>, seg: string, op: POp)
    ensures OnlyTarget(elems, LeafInArray(elems, seg, op), Target(elems, seg, op.Remove?), op)
  {
    hide Decimal, IsDigits;
    var r, t := LeafInArray(elems, seg, op), Target(elems, seg, op.Remove?);
    if t.Some? {
      var i := t.value;
      if op.Remove? {
        assert r == elems[..i] + elems[i + 1..];
      } else if i < |elems| {
        assert r == elems[i := op.value];
      } else {
        assert r == elems + [op.value];
      }
    }
  }

  /** A path that an op at `p` below `node` does not touch: it takes another field, or another
      element than the target and those that move with it, or the op is dropped on the way. */
  predicate Apart(node: Value, p: Path, q: Path, remove: bool)
    requires node.IsContainer() && p != []
    decreases |p|
  {
    && q != []
    && match node
       case Object(m) =>
         p[0] != q[0] || (|p| > 1 && |q| > 1 && Apart(Seed(Field(m, p[0]), p[1]), p[1..], q[1..], remove))
       case Array(elems) =>
         if |p| == 1 then
           var t := Target(elems, p[0], remove);
           t.None? || !IsDigits(q[0]) || (if remove then Decimal(q[0]) < t.value else Decimal(q[0]) != t.value)
         else
           || !IsDigits(p[0]) || Decimal(p[0]) >= |elems| || !IsDigits(q[0]) || Decimal(q[0]) != Decimal(p[0])
           || (|q| > 1 && Apart(Seed(Present(elems[Decimal(p[0])]), p[1]), p[1..], q[1..], remove))
  }

  /** Replacing a scalar or nothing by an empty container shows nothing new below. */
  lemma SeedShowsNothing(s: Slot, seg: string, q: Path)
    requires q != []
    ensures Resolve(Seed(s, seg), q) == if s.Present? then Resolve(s.value, q) else Absent
  {
  }

  lemma {:induction false} FrameBelow(node: Value, p: Path, op: POp, q: Path)
    requires node.IsContainer() && p != [] && Apart(node, p, q, op.Remove?)
    ensures Resolve(ApplyIn(node, p, op), q) == Resolve(node, q)
    decreases |p|
  {
    if |p| == 1 {
      if node.Array? {
        LeafLaw(node.elems, p[0], op);
      }
    } else if node.Object? {
      if p[0] == q[0] {
        FrameBelow(Seed(Field(node.fields, p[0]), p[1]), p[1..], op, q[1..]);
        SeedShowsNothing(Field(node.fields, p[0]), p[1], q[1..]);
      }
    } else if IsDigits(p[0]) && Decimal(p[0]) < |node.elems| && IsDigits(q[0]) && Decimal(q[0]) == Decimal(p[0]) {
      var child := Present(node.elems[Decimal(p[0])]);
      FrameBelow(Seed(child, p[1]), p[1..], op, q[1..]);
      SeedShowsNothing(child, p[1], q[1..]);
    }
  }

  /** An op leaves everything alone that lies apart from its path, at any depth, through objects,
      arrays and containers made on the way. */
  lemma ApplyFrameLaw(state: Value, op: POp, q: Path)
    requires op.path != [] && Apart(Seed(Present(state), op.path[0]), op.path, q, op.Remove?)
    ensures Resolve(ApplyOne(state, op), q) == Resolve(state, q)
  {
    FrameBelow(Seed(Present(state), op.path[0]), op.path, op, q);
    SeedShowsNothing(Present(state), op.path[0], q);
  }

  /** The container whose element or field an op changes; none if it is dropped on the way. */
  function LeafParent(node: Value, p: Path): Option<Value>
    requires node.IsContainer() && p != []
    decreases |p|
  {
    if |p| == 1 then Some(node)
    else
      match node
      case Object(m) => LeafParent(Seed(Field(m, p[0]), p[1]), p[1..])
      case Array(elems) =>
        if IsDigits(p[0]) && Decimal(p[0]) < |elems| then LeafParent(Seed(Present(elems[Decimal(p[0])]), p[1]), p[1..])
        else None
  }

  lemma {:induction false} ParentBelow(node: Value, p: Path, op: POp)
    requires node.IsContainer() && p != [] && LeafParent(node, p).Some?
    ensures LeafParent(node, p).value.IsContainer()
    ensures Resolve(ApplyIn(node, p, op), p[..|p| - 1]) == Present(Leaf(LeafParent(node, p).value, p[|p| - 1], op))
    ensures var was := Resolve(node, p[..|p| - 1]); was.Present? && was.value.IsContainer() ==> was.value == LeafParent(node, p).value
    decreases |p|
  {
    hide Leaf, Decimal;
    var front := p[..|p| - 1];
    if |p| == 1 {
      assert front == [];
    } else {
      assert p[1..][..|p[1..]| - 1] == front[1..] && p[1..][|p[1..]| - 1] == p[|p| - 1];
      if node.Object? {
        var child := Field(node.fields, p[0]);
        ParentBelow(Seed(child, p[1]), p[1..], op);
        if |p| > 2 {
          SeedShowsNothing(child, p[1], front[1..]);
        }
      } else {
        var child := Present(node.elems[Decimal(p[0])]);
        ParentBelow(Seed(child, p[1]), p[1..], op);
        if |p| > 2 {
          SeedShowsNothing(child, p[1], front[1..]);
        }
      }
    }
  }

  /** Where an op is not dropped, the array it addresses, already there or just made, changes as
      `LeafLaw` says: its length stays for a write to an existing element, grows by one for an
      append and shrinks by one for a removal. */
  lemma ArrayChanges(state: Value, op: POp)
    requires op.path != [] && LeafParent(Seed(Present(state), op.path[0]), op.path).Some?
    ensures var p := op.path;
      var parent, was := LeafParent(Seed(Present(state), p[0]), p).value, Resolve(state, p[..|p| - 1]);
      && (was.Present? && was.value.IsContainer() ==> was.value == parent)
      && (parent.Array? ==>
            var now, t := Resolve(ApplyOne(state, op), p[..|p| - 1]), Target(parent.elems, p[|p| - 1], op.Remove?);
            && now.Present? && now.value.Array?
            && |now.value.elems| == |parent.elems| + (if t.None? then 0 else if op.Remove? then -1 else if t.value < |parent.elems| then 0 else 1))
  {
    var p := op.path;
    var node := Seed(Present(state), p[0]);
    ParentBelow(node, p, op);
    var parent := LeafParent(node, p).value;
    if parent.Array? {
      LeafLaw(parent.elems, p[|p| - 1], op);
    }
    if |p| > 1 {
      SeedShowsNothing(Present(state), p[0], p[..|p| - 1]);
    }
  }

  /** What a write makes of a replica that holds nothing: an array for "-" and for an index, an
      object for any other name. */
  lemma FreshContainer(state: Value, k: string, x: Value)
    requires !state.IsContainer()
    ensures k == "-" ==> ApplyOne(state, Add([k], x)) == Array([x])
    ensures IsDigits(k) ==> ApplyOne(state, Add([k], x)) == Array(if Decimal(k) == 0 then [x] else [])
    ensures k != "-" && !IsDigits(k) ==> ApplyOne(state, Add([k], x)) == Object(map[k := x])
  {
    assert map[][k := x] == map[k := x];
  }
}
