/** The server's tree edits: `state.set_in`, `state.patch` and presence removal. */
module Edits {
  import opened Basics
  import opened Json
  import opened Delta
  import opened Paths

  /** The slot at a path; nothing lies below a value that is not an object. */
  function Lookup(v: Value, p: Path): Slot
    decreases |p|
  {
    if p == [] then Present(v)
    else if v.Object? && p[0] in v.fields then Lookup(v.fields[p[0]], p[1..])
    else Absent
  }

  predicate IsPrefix(p: Path, q: Path) {
    p <= q
  }

  predicate Comparable(p: Path, q: Path) {
    IsPrefix(p, q) || IsPrefix(q, p)
  }

  lemma ComparableTail(p: Path, q: Path)
    requires p != [] && q != []
    ensures Comparable(p, q) <==> p[0] == q[0] && Comparable(p[1..], q[1..])
  {
    if p[0] == q[0] {
      assert p == [p[0]] + p[1..] && q == [q[0]] + q[1..];
    }
  }

  // ---------- set_in ----------

  function FieldsOf(v: Value): map<string, Value> {
    if v.Object? then v.fields else map[]
  }

  function FieldOrNull(m: map<string, Value>, k: string): Value {
    if k in m then m[k] else Null
  }

  /** `set_in_recursive` */
  function SetIn(node: Value, p: Path, x: Value): Value
    decreases |p|
  {
    if p == [] then x
    else
      var m := FieldsOf(node);
      Object(m[p[0] := SetIn(FieldOrNull(m, p[0]), p[1..], x)])
  }

  function TrimSlashes(s: string): string {
    if s != "" && s[0] == '/' then TrimSlashes(s[1..]) else s
  }

  /** The path a request names; nothing if it does not start with '/'. */
  function RequestPath(path: string): Option<Path> {
    if path == "/" then Some([])
    else if path == "" || path[0] != '/' then None
    else Some(Split(TrimSlashes(path)))
  }

  lemma TrimNothing(s: string)
    requires s != "" && s[0] != '/'
    ensures TrimSlashes("/" + s) == s
  {
    assert ("/" + s)[1..] == s;
  }

  lemma {:induction false} RequestNoLonger(p: Path)
    requires AllSlashFree(p)
    ensures RequestPath(PrintPath(p)).Some?
    ensures SafePath(p) ==> RequestPath(PrintPath(p)).value == p
    ensures |RequestPath(PrintPath(p)).value| <= |p|
    decreases |p|
  {
    if p != [] {
      if p[0] == "" {
        PrintDropsLeadingEmpty(p);
        assert AllSlashFree(p[1..]);
        RequestNoLonger(p[1..]);
      } else {
        PrintIsJoin(p);
        assert SlashFree(p[0]) && p[0][0] in p[0];
        assert Join(p)[0] == p[0][0];
        TrimNothing(Join(p));
        assert PrintPath(p)[0] == '/' && PrintPath(p) != "/";
        SplitJoin(p);
      }
    }
  }

  /** The server reads a printed op path back as the same path exactly when a replica does. */
  lemma RequestRoundTrip(p: Path)
    ensures RequestPath(PrintPath(p)) == Some(p) <==> SafePath(p)
  {
    if AllSlashFree(p) {
      RequestNoLonger(p);
      if p != [] && p[0] == "" {
        PrintDropsLeadingEmpty(p);
        assert AllSlashFree(p[1..]);
        RequestNoLonger(p[1..]);
      }
    } else {
      SplitIsSlashFree(TrimSlashes(PrintPath(p)));
    }
  }

  /** `json_set_in`: an error for a path that does not start with '/'. */
  function JsonSetIn(root: Value, path: string, x: Value): Option<Value> {
    match RequestPath(path)
    case None => None
    case Some(p) => Some(SetIn(root, p, x))
  }

  lemma {:induction false} SetThenLookup(v: Value, p: Path, x: Value)
    ensures Lookup(SetIn(v, p, x), p) == Present(x)
    decreases |p|
  {
    if p != [] {
      SetThenLookup(FieldOrNull(FieldsOf(v), p[0]), p[1..], x);
    }
  }

  /** Incomparable paths keep what they had, even when the write replaces a value that was not an object. */
  lemma {:induction false} SetFrame(v: Value, p: Path, x: Value, q: Path)
    requires !Comparable(p, q)
    ensures Lookup(SetIn(v, p, x), q) == Lookup(v, q)
    decreases |p|
  {
    assert p != [] && q != [];
    ComparableTail(p, q);
    if p[0] == q[0] {
      var child := FieldOrNull(FieldsOf(v), p[0]);
      SetFrame(child, p[1..], x, q[1..]);
      if !(v.Object? && p[0] in v.fields) {
        assert Lookup(child, q[1..]) == Absent;
      }
    }
  }

  /** Every op of the resulting delta lies on the written path or below it. */
  lemma {:induction false} SetInLocal(v: Value, p: Path, x: Value, ops: seq<POp>, i: nat)
    requires IsDiff(v, SetIn(v, p, x), ops) && i < |ops|
    ensures Comparable(ops[i].path, p)
    decreases |p|
  {
    if p != [] && v.Object? {
      var m := v.fields;
      var k := ops[i].path[0];
      var w := SetIn(v, p, x);
      InSub(ops, i, k);
      var j :| 0 <= j < |Sub(ops, k)| && Sub(ops, k)[j] == Tail(ops[i]);
      if k == p[0] {
        if k in m {
          SetInLocal(m[k], p[1..], x, Sub(ops, k), j);
        }
        ComparableTail(ops[i].path, p);
      } else {
        SelfDiff(m[k], Sub(ops, k));
        assert false;
      }
    }
  }

  // ---------- what the ops of a diff say ----------

  /** Every op of a diff names a real change at its own path: ADD where nothing was, REMOVE where
      nothing is left, UPDATE otherwise, with the new value, and never one object for another. */
  lemma {:induction false} DiffOpMeaning(v: Value, w: Value, ops: seq<POp>, i: nat)
    requires IsDiff(v, w, ops) && i < |ops|
    ensures var was, now := Lookup(v, ops[i].path), Lookup(w, ops[i].path);
      && was != now
      && (ops[i].Add? <==> was.Absent?) && (ops[i].Remove? <==> now.Absent?)
      && (now.Present? ==> !ops[i].Remove? && ops[i].value == now.value)
      && !(was.Present? && was.value.Object? && now.Present? && now.value.Object?)
    decreases v
  {
    if v.Object? && w.Object? {
      var k := ops[i].path[0];
      var sub := Sub(ops, k);
      InSub(ops, i, k);
      var j :| 0 <= j < |sub| && sub[j] == Tail(ops[i]);
      if k in v.fields && k in w.fields {
        DiffOpMeaning(v.fields[k], w.fields[k], sub, j);
      }
    }
  }

  lemma {:induction false} TwoInSub(ops: seq<POp>, i: nat, j: nat, k: string) returns (i': nat, j': nat)
    requires i < j < |ops| && Under(ops[i], k) && Under(ops[j], k)
    ensures i' < j' < |Sub(ops, k)| && Sub(ops, k)[i'] == Tail(ops[i]) && Sub(ops, k)[j'] == Tail(ops[j])
    decreases |ops|
  {
    if i == 0 {
      InSub(ops[1..], j - 1, k);
      var t :| 0 <= t < |Sub(ops[1..], k)| && Sub(ops[1..], k)[t] == Tail(ops[j]);
      i', j' := 0, t + 1;
    } else {
      i', j' := TwoInSub(ops[1..], i - 1, j - 1, k);
      if Under(ops[0], k) {
        i', j' := i' + 1, j' + 1;
      }
    }
  }

  /** No two ops of a diff lie on or below one another, so each part of the value is sent once. */
  lemma {:induction false} DiffOpsApart(v: Value, w: Value, ops: seq<POp>, i: nat, j: nat)
    requires IsDiff(v, w, ops) && i < j < |ops|
    ensures !Comparable(ops[i].path, ops[j].path)
    decreases v
  {
    var p, q := ops[i].path, ops[j].path;
    if p[0] == q[0] {
      var k := p[0];
      var i', j' := TwoInSub(ops, i, j, k);
      DiffOpsApart(v.fields[k], w.fields[k], Sub(ops, k), i', j');
    }
    ComparableTail(p, q);
  }

  // ---------- presence removal ----------

  /** `remove_in_recursive` */
  function RemoveIn(node: Value, p: Path): Value
    requires p != []
    decreases |p|
  {
    if !node.Object? then node
    else if |p| == 1 then Object(node.fields - {p[0]})
    else if p[0] in node.fields then Object(node.fields[p[0] := RemoveIn(node.fields[p[0]], p[1..])])
    else node
  }

  /** `json_remove_in`: the root becomes null, an invalid path changes nothing. */
  function JsonRemoveIn(root: Value, path: string): Value {
    if path == "" then Null
    else
      match RequestPath(path)
      case None => root
      case Some(p) => if p == [] then Null else RemoveIn(root, p)
  }

  lemma {:induction false} RemoveGone(v: Value, p: Path)
    requires p != []
    ensures Lookup(RemoveIn(v, p), p) == Absent
    decreases |p|
  {
    if v.Object? && |p| > 1 && p[0] in v.fields {
      RemoveGone(v.fields[p[0]], p[1..]);
    }
  }

  lemma {:induction false} RemoveFrame(v: Value, p: Path, q: Path)
    requires p != [] && !Comparable(p, q)
    ensures Lookup(RemoveIn(v, p), q) == Lookup(v, q)
    decreases |p|
  {
    ComparableTail(p, q);
    if v.Object? && p[0] == q[0] && |p| > 1 && p[0] in v.fields {
      RemoveFrame(v.fields[p[0]], p[1..], q[1..]);
    }
  }

  /** Removal never brings anything into being. */
  lemma {:induction false} RemoveCreatesNothing(v: Value, p: Path, q: Path)
    requires p != [] && Lookup(v, q) == Absent
    ensures Lookup(RemoveIn(v, p), q) == Absent
    decreases |p|
  {
    if v.Object? && q != [] && p[0] == q[0] && |p| > 1 && p[0] in v.fields {
      RemoveCreatesNothing(v.fields[p[0]], p[1..], q[1..]);
    }
  }

  /** A removal changes nothing exactly when there is nothing at the path, and objects on the way
      to it stay objects. */
  lemma {:induction false} RemoveExact(v: Value, p: Path)
    requires p != []
    ensures RemoveIn(v, p) == v <==> Lookup(v, p) == Absent
    ensures forall n | 0 <= n < |p| && Lookup(v, p[..n]).Present? ::
      var was, now := Lookup(v, p[..n]).value, Lookup(RemoveIn(v, p), p[..n]);
      now.Present? && if was.Object? then now.value.Object? else now.value == was
    decreases |p|
  {
    if v.Object? && p[0] in v.fields {
      if |p| == 1 {
        assert p[1..] == [];
        assert p[0] !in (v.fields - {p[0]});
      } else {
        RemoveExact(v.fields[p[0]], p[1..]);
        var child := RemoveIn(v.fields[p[0]], p[1..]);
        assert RemoveIn(v, p).fields[p[0]] == child;
        assert RemoveIn(v, p) == v <==> child == v.fields[p[0]] by {
          assert child == v.fields[p[0]] ==> v.fields[p[0] := child] == v.fields;
        }
      }
    } else if v.Object? && |p| == 1 {
      assert v.fields - {p[0]} == v.fields;
    }
    forall n | 0 <= n < |p| && Lookup(v, p[..n]).Present?
      ensures var was, now := Lookup(v, p[..n]).value, Lookup(RemoveIn(v, p), p[..n]);
        now.Present? && if was.Object? then now.value.Object? else now.value == was
    {
      if n > 0 {
        assert p[..n][0] == p[0] && p[..n][1..] == p[1..][..n - 1];
      }
    }
  }

  /** Which request paths are understood: those that start with a slash. An empty path is the root
      for a removal and an error for a write. */
  lemma RequestExact(path: string, v: Value, x: Value)
    ensures RequestPath(path).Some? <==> path != "" && path[0] == '/'
    ensures JsonSetIn(v, path, x).Some? <==> path != "" && path[0] == '/'
    ensures path != "" && path[0] != '/' ==> JsonRemoveIn(v, path) == v
    ensures JsonRemoveIn(v, "") == Null && JsonRemoveIn(v, "/") == Null && JsonSetIn(v, "/", x) == Some(x)
  {
  }

  // ---------- patch ----------

  /** `json_merge`: objects merge field by field, anything else is overwritten. */
  function Merge(base: Value, patch: Value): Value
    decreases patch
  {
    if base.Object? && patch.Object? then
      Object(map k | k in base.fields.Keys + patch.fields.Keys ::
               if k in patch.fields then Merge(FieldOrNull(base.fields, k), patch.fields[k]) else base.fields[k])
    else patch
  }

  /** `json_merge` with its loop over the patch. */
  method JsonMerge(base: Value, patch: Value) returns (r: Value)
    ensures r == Merge(base, patch)
    decreases patch
  {
    if base.Object? && patch.Object? {
      var m := base.fields;
      var todo := patch.fields.Keys;
      while todo != {}
        invariant todo <= patch.fields.Keys
        invariant m.Keys == base.fields.Keys + (patch.fields.Keys - todo)
        invariant forall k | k in m ::
          m[k] == if k in patch.fields && k !in todo
                  then Merge(FieldOrNull(base.fields, k), patch.fields[k]) else base.fields[k]
        decreases todo
      {
        var k :| k in todo;
        var merged := JsonMerge(FieldOrNull(m, k), patch.fields[k]);
        m := m[k := merged];
        todo := todo - {k};
      }
      r := Object(m);
    } else {
      r := patch;
    }
  }

  lemma {:induction false} MergeSelf(p: Value)
    ensures Merge(p, p) == p
    decreases p
  {
    if p.Object? {
      forall k | k in p.fields ensures Merge(p, p).fields[k] == p.fields[k] {
        MergeSelf(p.fields[k]);
      }
    }
  }

  /** Applying the same patch again changes nothing. */
  lemma {:induction false} MergeIdempotent(base: Value, p: Value)
    ensures Merge(Merge(base, p), p) == Merge(base, p)
    decreases p
  {
    if base.Object? && p.Object? {
      var once := Merge(base, p);
      var twice := Merge(once, p);
      forall k | k in once.fields ensures twice.fields[k] == once.fields[k] {
        if k in p.fields {
          MergeIdempotent(FieldOrNull(base.fields, k), p.fields[k]);
        }
      }
      assert twice.fields.Keys == once.fields.Keys;
    } else {
      MergeSelf(p);
    }
  }

  /** Where the patch holds something other than an object, the merge holds exactly that; where it
      holds an object, the merge holds an object. */
  lemma {:induction false} MergeWins(base: Value, p: Value, q: Path)
    requires Lookup(p, q).Present?
    ensures var x, r := Lookup(p, q).value, Lookup(Merge(base, p), q);
      r.Present? && if x.Object? then r.value.Object? else r.value == x
    decreases |q|
  {
    if q != [] && base.Object? {
      MergeWins(FieldOrNull(base.fields, q[0]), p.fields[q[0]], q[1..]);
    }
  }

  /** The patch says nothing about this path: its objects lead that way and stop short. */
  predicate Silent(p: Value, q: Path)
    decreases |q|
  {
    p.Object? && q != [] && (q[0] !in p.fields || Silent(p.fields[q[0]], q[1..]))
  }

  /** Where the patch is silent, the merge keeps what was there. */
  lemma {:induction false} MergeKeeps(base: Value, p: Value, q: Path)
    requires Silent(p, q)
    ensures Lookup(Merge(base, p), q) == Lookup(base, q)
    decreases |q|
  {
    if q[0] in p.fields {
      if base.Object? {
        MergeKeeps(FieldOrNull(base.fields, q[0]), p.fields[q[0]], q[1..]);
        if q[0] !in base.fields {
          assert q[1..] != [];
        }
      } else {
        SilentIsAbsent(p, q);
      }
    }
  }

  lemma {:induction false} SilentIsAbsent(p: Value, q: Path)
    requires Silent(p, q)
    ensures Lookup(p, q) == Absent
    decreases |q|
  {
    if q[0] in p.fields {
      SilentIsAbsent(p.fields[q[0]], q[1..]);
    }
  }

  /** A patch removes nothing and touches only paths that occur in it. */
  lemma {:induction false} MergeLocal(base: Value, p: Value, ops: seq<POp>, i: nat)
    requires IsDiff(base, Merge(base, p), ops) && i < |ops|
    ensures !ops[i].Remove? && Lookup(p, ops[i].path).Present?
    decreases p
  {
    if base.Object? && p.Object? {
      var m, n := base.fields, Merge(base, p).fields;
      var k := ops[i].path[0];
      InSub(ops, i, k);
      var sub := Sub(ops, k);
      var j :| 0 <= j < |sub| && sub[j] == Tail(ops[i]);
      if k in p.fields {
        if k in m {
          MergeLocal(m[k], p.fields[k], sub, j);
        }
      } else {
        SelfDiff(m[k], sub);
        assert false;
      }
    } else if base.Object? && Merge(base, p).Object? {
      assert false;
    }
  }
}
