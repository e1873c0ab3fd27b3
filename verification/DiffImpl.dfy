/** The server's differ, with its loops over map entries. */
module DiffImpl {
  import opened Json
  import opened Delta
  import opened Paths
  import opened Wire

  /** `ops` covers exactly the fields in `done`. */
  ghost predicate Covers(m: map<string, Value>, n: map<string, Value>, done: set<string>, ops: seq<POp>) {
    && done <= m.Keys + n.Keys
    && (forall i | 0 <= i < |ops| :: ops[i].path != [] && ops[i].path[0] in done)
    && (forall k | k in done :: IsDelta(Field(m, k), Field(n, k), Sub(ops, k)))
  }

  ghost function Lift(k: string, ops: seq<POp>): (r: seq<POp>)
    ensures |r| == |ops|
    ensures forall i | 0 <= i < |ops| :: r[i] == WithPath(ops[i], [k] + ops[i].path)
  {
    seq(|ops|, i requires 0 <= i < |ops| => WithPath(ops[i], [k] + ops[i].path))
  }

  lemma {:induction false} SubLift(k: string, ops: seq<POp>, k': string)
    ensures Sub(Lift(k, ops), k') == if k' == k then ops else []
    decreases |ops|
  {
    if ops != [] {
      assert Lift(k, ops)[1..] == Lift(k, ops[1..]);
      SubLift(k, ops[1..], k');
      assert ([k] + ops[0].path)[1..] == ops[0].path;
    }
  }

  lemma CoverOne(m: map<string, Value>, n: map<string, Value>, done: set<string>, ops: seq<POp>, k: string, sub: seq<POp>, at: Path)
    requires Covers(m, n, done, ops)
    requires k in m.Keys + n.Keys && k !in done && IsDelta(Field(m, k), Field(n, k), sub)
    ensures Covers(m, n, done + {k}, ops + Lift(k, sub))
    ensures PrintAll(ops + Lift(k, sub), at) == PrintAll(ops, at) + PrintAll(sub, at + [k])
  {
    hide IsDiff, IsDelta;
    forall k' | k' in done + {k} ensures IsDelta(Field(m, k'), Field(n, k'), Sub(ops + Lift(k, sub), k')) {
      SubAppend(ops, Lift(k, sub), k');
      SubLift(k, sub, k');
      if k' == k {
        SubForeign(ops, k);
        assert Sub(ops + Lift(k, sub), k') == sub;
      } else {
        assert Sub(ops + Lift(k, sub), k') == Sub(ops, k');
      }
    }
    PrintLift(k, sub, at);
    assert PrintAll(ops + Lift(k, sub), at) == PrintAll(ops, at) + PrintAll(Lift(k, sub), at);
  }

  lemma PrintLift(k: string, ops: seq<POp>, at: Path)
    ensures PrintAll(Lift(k, ops), at) == PrintAll(ops, at + [k])
  {
    forall i | 0 <= i < |ops| ensures PrintAll(Lift(k, ops), at)[i] == PrintAll(ops, at + [k])[i] {
      assert at + ([k] + ops[i].path) == at + [k] + ops[i].path;
    }
  }

  lemma JoinIsPrint(at: Path, k: string)
    ensures JoinPath(PrintPath(at), k) == PrintPath(at + [k])
  {
    assert (at + [k])[..|at|] == at;
  }

  lemma PrintRoot(op: POp, at: Path)
    requires op.path == []
    ensures PrintAll([op], at) == [WithPath(op, PrintPath(at))]
  {
    assert at + [] == at;
  }

  /** src/delta.rs `diff_at`: pushes onto `ops` the changes below `at`. Fields are visited in any order. */
  method DiffAt(path: string, ghost at: Path, old_: Value, new_: Value, ops: seq<WOp>)
    returns (out: seq<WOp>, ghost diff: seq<POp>)
    requires path == PrintPath(at)
    ensures IsDiff(old_, new_, diff)
    ensures out == ops + PrintAll(diff, at)
    decreases old_, 3
  {
    if old_.Object? && new_.Object? {
      out, diff := Upserts(path, at, old_, new_, ops);
      out, diff := Removals(path, at, old_.fields, new_.fields, ops, out, diff);
    } else if old_ != new_ {
      out := ops + [Update(path, new_)];
      diff := [Update([], new_)];
      PrintRoot(diff[0], at);
    } else {
      out, diff := ops, [];
    }
  }

  /** First loop of `diff_at`: keys of the new object. */
  method Upserts(path: string, ghost at: Path, old_: Value, new_: Value, ops: seq<WOp>)
    returns (out: seq<WOp>, ghost diff: seq<POp>)
    requires path == PrintPath(at) && old_.Object? && new_.Object?
    ensures Covers(old_.fields, new_.fields, new_.fields.Keys, diff)
    ensures out == ops + PrintAll(diff, at)
    decreases old_, 2
  {
    out, diff := ops, [];
    var todo := new_.fields.Keys;
    ghost var done: set<string> := {};
    while todo != {}
      invariant todo !! done && todo + done == new_.fields.Keys
      invariant Covers(old_.fields, new_.fields, done, diff)
      invariant out == ops + PrintAll(diff, at)
      decreases todo
    {
      var k :| k in todo;
      todo := todo - {k};
      out, diff := UpsertInto(path, at, old_, new_, k, ops, out, done, diff);
      done := done + {k};
    }
    assert done == new_.fields.Keys;
  }

  /** Body of the first loop, on top of what earlier rounds pushed. */
  method UpsertInto(path: string, ghost at: Path, old_: Value, new_: Value, k: string,
                    ghost start: seq<WOp>, ops: seq<WOp>, ghost done: set<string>, ghost diff0: seq<POp>)
    returns (out: seq<WOp>, ghost diff: seq<POp>)
    requires path == PrintPath(at) && old_.Object? && new_.Object? && k in new_.fields && k !in done
    requires Covers(old_.fields, new_.fields, done, diff0) && ops == start + PrintAll(diff0, at)
    ensures Covers(old_.fields, new_.fields, done + {k}, diff)
    ensures out == start + PrintAll(diff, at)
    decreases old_, 1
  {
    hide Covers, IsDelta, IsDiff;
    ghost var sub: seq<POp>;
    out, sub := Upsert(path, at, old_, new_, k, ops);
    CoverOne(old_.fields, new_.fields, done, diff0, k, sub, at);
    diff := diff0 + Lift(k, sub);
  }

  /** Body of the first loop: one key of the new object. */
  method Upsert(path: string, ghost at: Path, old_: Value, new_: Value, k: string, ops: seq<WOp>)
    returns (out: seq<WOp>, ghost sub: seq<POp>)
    requires path == PrintPath(at) && old_.Object? && new_.Object? && k in new_.fields
    ensures IsDelta(Field(old_.fields, k), Field(new_.fields, k), sub)
    ensures out == ops + PrintAll(sub, at + [k])
    decreases old_, 0
  {
    var m, n := old_.fields, new_.fields;
    var child := JoinPath(path, k);
    JoinIsPrint(at, k);
    if k !in m {
      out := ops + [Add(child, n[k])];
      sub := [Add([], n[k])];
      PrintRoot(sub[0], at + [k]);
    } else if m[k] != n[k] {
      if m[k].Object? && n[k].Object? {
        out, sub := DiffAt(child, at + [k], m[k], n[k], ops);
      } else {
        out := ops + [Update(child, n[k])];
        sub := [Update([], n[k])];
        PrintRoot(sub[0], at + [k]);
      }
    } else {
      out, sub := ops, [];
      SelfDiffEmpty(n[k]);
    }
  }

  /** Second loop of `diff_at`: keys of the old object that are gone. */
  method Removals(path: string, ghost at: Path, m: map<string, Value>, n: map<string, Value>,
                  ghost start: seq<WOp>, ops: seq<WOp>, ghost diff0: seq<POp>)
    returns (out: seq<WOp>, ghost diff: seq<POp>)
    requires path == PrintPath(at)
    requires Covers(m, n, n.Keys, diff0) && ops == start + PrintAll(diff0, at)
    ensures IsDiff(Object(m), Object(n), diff)
    ensures out == start + PrintAll(diff, at)
  {
    hide Sub;
    out, diff := ops, diff0;
    var todo := m.Keys;
    ghost var done := n.Keys;
    while todo != {}
      invariant todo <= m.Keys && done == n.Keys + (m.Keys - todo)
      invariant Covers(m, n, done, diff)
      invariant out == start + PrintAll(diff, at)
      decreases todo
    {
      var k :| k in todo;
      todo := todo - {k};
      if k !in n {
        out := out + [Remove(JoinPath(path, k))];
        JoinIsPrint(at, k);
        PrintRoot(Remove([]), at + [k]);
        CoverOne(m, n, done, diff, k, [Remove([])], at);
        diff, done := diff + Lift(k, [Remove([])]), done + {k};
      }
    }
    assert done == m.Keys + n.Keys;
  }

  lemma {:induction false} SelfDiffEmpty(v: Value)
    ensures IsDiff(v, v, [])
    decreases v
  {
    if v.Object? {
      forall k | k in v.fields ensures IsDiff(v.fields[k], v.fields[k], Sub([], k)) {
        SelfDiffEmpty(v.fields[k]);
      }
    }
  }

  /** src/delta.rs `diff`: the wire delta from one present value to another. */
  method Diff(old_: Value, new_: Value) returns (ops: seq<WOp>)
    ensures IsWireDelta(Present(old_), Present(new_), ops)
    ensures ops == [] <==> old_ == new_
    ensures SafeValue(old_) && SafeValue(new_) ==> Receive(old_, ops) == new_
  {
    ghost var parsed: seq<POp>;
    ops, parsed := DiffAt("/", [], old_, new_, []);
    assert ops == PrintAll(parsed, []);
    WireRoundTrip(Present(old_), Present(new_), ops);
  }
}
