/** The TypeScript server's RFC 6901 pointers and its one-level differ. */
module JsonPointer {
  import opened Basics
  import opened Json
  import opened Delta
  import opened Paths

  // ---------- escaping (sections 3 and 4 of RFC 6901) ----------

  /** `replace(/~/g, '~0')` */
  function EscapeTilde(s: string): string {
    if s == "" then "" else (if s[0] == '~' then "~0" else [s[0]]) + EscapeTilde(s[1..])
  }

  /** `replace(/\//g, '~1')` */
  function EscapeSlash(s: string): string {
    if s == "" then "" else (if s[0] == '/' then "~1" else [s[0]]) + EscapeSlash(s[1..])
  }

  function Escape(s: string): string {
    EscapeSlash(EscapeTilde(s))
  }

  /** A global `replace` of the pair '~', `digit` by `c`, left to right. */
  function ReplacePair(s: string, digit: char, c: char): string
    decreases |s|
  {
    if s == "" then ""
    else if |s| > 1 && s[0] == '~' && s[1] == digit then [c] + ReplacePair(s[2..], digit, c)
    else [s[0]] + ReplacePair(s[1..], digit, c)
  }

  /** `replace(/~1/g, '/').replace(/~0/g, '~')` */
  function Unescape(s: string): string {
    ReplacePair(ReplacePair(s, '1', '/'), '0', '~')
  }

  lemma EscapeCons(s: string)
    requires s != ""
    ensures Escape(s) == (if s[0] == '~' then "~0" else if s[0] == '/' then "~1" else [s[0]]) + Escape(s[1..])
  {
    var rest := EscapeTilde(s[1..]);
    if s[0] == '~' {
      var e := "~0" + rest;
      assert e[1..] == "0" + rest && ("0" + rest)[1..] == rest;
      assert EscapeSlash(e) == "~" + EscapeSlash(e[1..]);
      assert EscapeSlash("0" + rest) == "0" + EscapeSlash(rest);
      assert "~" + ("0" + EscapeSlash(rest)) == "~0" + EscapeSlash(rest);
    } else {
      var e := [s[0]] + rest;
      assert e[1..] == rest;
    }
  }

  lemma ReplaceCons(x: char, rest: string, digit: char, c: char)
    ensures x != '~' || rest == "" || rest[0] != digit ==> ReplacePair([x] + rest, digit, c) == [x] + ReplacePair(rest, digit, c)
    ensures ReplacePair(['~', digit] + rest, digit, c) == [c] + ReplacePair(rest, digit, c)
  {
    assert ([x] + rest)[1..] == rest;
    assert (['~', digit] + rest)[2..] == rest;
  }

  lemma TildeStays(rest: string)
    ensures ReplacePair("~0" + rest, '1', '/') == "~0" + ReplacePair(rest, '1', '/')
  {
    hide ReplacePair;
    assert "~0" + rest == "~" + ("0" + rest);
    ReplaceCons('~', "0" + rest, '1', '/');
    ReplaceCons('0', rest, '1', '/');
    assert "~" + ("0" + ReplacePair(rest, '1', '/')) == "~0" + ReplacePair(rest, '1', '/');
  }

  /** Undoing the slashes leaves the tilde escapes in place. */
  lemma {:induction false} UndoSlash(s: string)
    ensures ReplacePair(Escape(s), '1', '/') == EscapeTilde(s)
    decreases |s|
  {
    if s != "" {
      hide Escape, ReplacePair;
      EscapeCons(s);
      UndoSlash(s[1..]);
      TildeStays(Escape(s[1..]));
      ReplaceCons(s[0], Escape(s[1..]), '1', '/');
    }
  }

  lemma {:induction false} UndoTilde(s: string)
    ensures ReplacePair(EscapeTilde(s), '0', '~') == s
    decreases |s|
  {
    if s != "" {
      hide ReplacePair;
      UndoTilde(s[1..]);
      ReplaceCons(s[0], EscapeTilde(s[1..]), '0', '~');
      assert [s[0]] + s[1..] == s;
    }
  }

  /** The two-pass unescape inverts the two-pass escape, for every string. */
  lemma EscapeRoundTrip(s: string)
    ensures Unescape(Escape(s)) == s
  {
    UndoSlash(s);
    UndoTilde(s);
  }

  lemma {:induction false} EscapeSlashFree(s: string)
    ensures SlashFree(Escape(s))
    decreases |s|
  {
    if s != "" {
      EscapeCons(s);
      EscapeSlashFree(s[1..]);
    }
  }

  // ---------- pointers ----------

  function UnescapeAll(parts: Path): (r: Path)
    ensures |r| == |parts|
    ensures forall i | 0 <= i < |parts| :: r[i] == Unescape(parts[i])
  {
    seq(|parts|, i requires 0 <= i < |parts| => Unescape(parts[i]))
  }

  function EscapeAll(p: Path): (r: Path)
    ensures |r| == |p|
    ensures forall i | 0 <= i < |p| :: r[i] == Escape(p[i])
  {
    seq(|p|, i requires 0 <= i < |p| => Escape(p[i]))
  }

  /** `parsePath`; None is the thrown error. */
  function ParsePointer(s: string): Option<Path> {
    if s == "" || s == "/" then Some([])
    else if s[0] != '/' then None
    else Some(UnescapeAll(Split(s[1..])))
  }

  function PrintPointer(p: Path): string {
    if p == [] then "" else "/" + Join(EscapeAll(p))
  }

  lemma {:induction false} EscapeEmpty(s: string)
    ensures Escape(s) == "" <==> s == ""
  {
    if s != "" {
      EscapeCons(s);
    }
  }

  /** Parsing inverts printing for every path except the lone empty key, whose pointer "/" names the root. */
  lemma PointerRoundTrip(p: Path)
    ensures ParsePointer(PrintPointer(p)) == Some(p) <==> p != [""]
  {
    if p != [] {
      var e := EscapeAll(p);
      forall i | 0 <= i < |p| ensures SlashFree(e[i]) && Unescape(e[i]) == p[i] {
        EscapeSlashFree(p[i]);
        EscapeRoundTrip(p[i]);
      }
      SplitJoin(e);
      assert UnescapeAll(e) == p;
      var s := PrintPointer(p);
      assert s[1..] == Join(e);
      EscapeEmpty(p[0]);
      if |p| == 1 {
        assert p == [p[0]] && Join(e) == e[0];
      } else {
        assert Join(e) == e[0] + "/" + Join(e[1..]);
      }
    }
  }

  lemma KeyPointer(k: string)
    requires k != ""
    ensures ParsePointer("/" + Escape(k)) == Some([k])
  {
    PointerRoundTrip([k]);
    assert [k][..] == [k] && Join(EscapeAll([k])) == Escape(k);
  }

  // ---------- one-level diff ----------

  type WirePointerOp = Op<string>

  /** `applyOne` for a root pointer and for a pointer with one segment on an object
      root, which are all that the one-level differ produces for objects; None otherwise. */
  function ApplyPointer(v: Value, op: WirePointerOp): Option<Value> {
    match ParsePointer(op.path)
    case None => None
    case Some(p) =>
      if p == [] then Some(if op.Remove? then Null else op.value)
      else if |p| == 1 && v.Object? then
        Some(Object(if op.Remove? then v.fields - {p[0]} else v.fields[p[0] := op.value]))
      else None
  }

  function ApplyPointers(v: Value, ops: seq<WirePointerOp>): Option<Value>
    decreases |ops|
  {
    if ops == [] then Some(v)
    else
      match ApplyPointers(v, ops[..|ops| - 1])
      case None => None
      case Some(w) => ApplyPointer(w, ops[|ops| - 1])
  }

  function KeyPath(k: string): string {
    "/" + Escape(k)
  }

  /** `diffShallow`. `===` on values is reference identity, so which equal fields are seen
      as equal is given by `identical`, and `same` says whether the roots are one object. */
  method DiffShallow(a: Value, b: Value, same: bool, identical: set<string>) returns (ops: seq<WirePointerOp>)
    requires same ==> a == b
    requires forall k | k in identical && a.Object? && b.Object? :: Field(a.fields, k) == Field(b.fields, k)
    ensures (a.Object? && "" in a.fields) || (b.Object? && "" in b.fields) || ApplyPointers(a, ops) == Some(b)
    ensures same ==> ops == []
    ensures !same && !(a.Object? && b.Object?) ==> ops == [Update("/", b)]
    ensures !same && a.Object? && b.Object? ==> OnePerChange(a.fields, b.fields, identical, a.fields.Keys + b.fields.Keys, ops)
  {
    if same {
      return [];
    }
    if !(a.Object? && b.Object?) {
      ops := [Update("/", b)];
      assert ops[..0] == [];
      return;
    }
    ops := ShallowOps(a.fields, b.fields, identical);
  }

  /** Those of the given keys that differ as far as the differ can see. */
  function Changed(a: map<string, Value>, b: map<string, Value>, identical: set<string>, keys: set<string>): set<string> {
    set k | k in keys && (k in a || k in b) && !(k in a && k in b && k in identical)
  }

  /** The right op for a changed key: an ADD if new, a REMOVE if gone, otherwise an UPDATE. */
  predicate IsOpFor(a: map<string, Value>, b: map<string, Value>, k: string, op: WirePointerOp) {
    && op.path == KeyPath(k)
    && (op.Add? <==> k !in a) && (op.Remove? <==> k !in b)
    && (!op.Remove? ==> k in b && op.value == b[k])
  }

  /** An op for every changed key among `keys`, and as many ops as changed keys. */
  ghost predicate OnePerChange(a: map<string, Value>, b: map<string, Value>, identical: set<string>, keys: set<string>,
                               ops: seq<WirePointerOp>)
  {
    var changed := Changed(a, b, identical, keys);
    && |ops| == |changed|
    && forall k | k in changed :: exists op :: op in ops && IsOpFor(a, b, k, op)
  }

  /** The op for one key, if any. */
  function KeyOps(a: map<string, Value>, b: map<string, Value>, identical: set<string>, k: string): seq<WirePointerOp> {
    if k !in a && k in b then [Add(KeyPath(k), b[k])]
    else if k in a && k !in b then [Remove(KeyPath(k))]
    else if k in a && k in b && k !in identical then [Update(KeyPath(k), b[k])]
    else []
  }

  lemma ApplySnoc(v: Value, ops: seq<WirePointerOp>, more: seq<WirePointerOp>)
    requires |more| <= 1 && ApplyPointers(v, ops).Some?
    ensures ApplyPointers(v, ops + more)
         == if more == [] then ApplyPointers(v, ops) else ApplyPointer(ApplyPointers(v, ops).value, more[0])
  {
    if more == [] {
      assert ops + more == ops;
    } else {
      assert (ops + more)[..|ops|] == ops;
    }
  }

  /** One round of the loop: afterwards key `k` stands as in `b`. */
  lemma KeyDone(a: map<string, Value>, b: map<string, Value>, identical: set<string>, k: string,
                ops: seq<WirePointerOp>, m: map<string, Value>)
    requires k != "" && (k in a || k in b) && (k in identical ==> Field(a, k) == Field(b, k))
    requires ApplyPointers(Object(a), ops) == Some(Object(m)) && Field(m, k) == Field(a, k)
    ensures ApplyPointers(Object(a), ops + KeyOps(a, b, identical, k)) == Some(Object(SetField(m, k, Field(b, k))))
  {
    KeyPointer(k);
    ApplySnoc(Object(a), ops, KeyOps(a, b, identical, k));
    if KeyOps(a, b, identical, k) == [] {
      assert SetField(m, k, Field(b, k)) == m;
    }
  }

  /** The differ's loop over the keys of both objects. */
  method ShallowOps(a: map<string, Value>, b: map<string, Value>, identical: set<string>) returns (ops: seq<WirePointerOp>)
    requires forall k | k in identical :: Field(a, k) == Field(b, k)
    ensures "" in a || "" in b || ApplyPointers(Object(a), ops) == Some(Object(b))
    ensures OnePerChange(a, b, identical, a.Keys + b.Keys, ops)
  {
    hide ApplyPointers, KeyOps, SetField, OnePerChange;
    ops := [];
    var todo := a.Keys + b.Keys;
    ghost var done: set<string> := {};
    ghost var m, safe := a, "" !in a && "" !in b;
    ApplyNone(Object(a));
    assert OnePerChange(a, b, identical, done, ops) by { NoneYet(a, b, identical); }
    while todo != {}
      invariant todo !! done && todo + done == a.Keys + b.Keys
      invariant OnePerChange(a, b, identical, done, ops)
      invariant safe ==> ApplyPointers(Object(a), ops) == Some(Object(m))
      invariant forall k :: Field(m, k) == if k in todo then Field(a, k) else Field(b, k)
      decreases todo
    {
      var k :| k in todo;
      todo := todo - {k};
      if safe {
        KeyDone(a, b, identical, k, ops, m);
      }
      OneMore(a, b, identical, done, k, ops);
      ops := ops + KeyOps(a, b, identical, k);
      done := done + {k};
      forall k' ensures Field(SetField(m, k, Field(b, k)), k') == if k' == k then Field(b, k) else Field(m, k') {
        SetFieldLookup(m, k, Field(b, k), k');
      }
      m := SetField(m, k, Field(b, k));
    }
    SameFields(m, b);
    assert done == a.Keys + b.Keys;
  }

  lemma NoneYet(a: map<string, Value>, b: map<string, Value>, identical: set<string>)
    ensures OnePerChange(a, b, identical, {}, [])
  {
    assert Changed(a, b, identical, {}) == {};
  }

  lemma OpForKey(a: map<string, Value>, b: map<string, Value>, identical: set<string>, k: string)
    requires k in a || k in b
    ensures var ops := KeyOps(a, b, identical, k);
      if k in a && k in b && k in identical then ops == [] else |ops| == 1 && IsOpFor(a, b, k, ops[0])
  {
  }

  lemma OneMore(a: map<string, Value>, b: map<string, Value>, identical: set<string>, done: set<string>, k: string, ops: seq<WirePointerOp>)
    requires k in a.Keys + b.Keys && k !in done && OnePerChange(a, b, identical, done, ops)
    ensures OnePerChange(a, b, identical, done + {k}, ops + KeyOps(a, b, identical, k))
  {
    hide KeyOps, IsOpFor;
    var was, now := Changed(a, b, identical, done), Changed(a, b, identical, done + {k});
    OpForKey(a, b, identical, k);
    if k in a && k in b && k in identical {
      assert now == was && ops + [] == ops;
    } else {
      var op := KeyOps(a, b, identical, k)[0];
      assert KeyOps(a, b, identical, k) == [op];
      assert now == was + {k};
      forall j | j in now ensures exists o :: o in ops + [op] && IsOpFor(a, b, j, o) {
        var o :| (if j == k then o == op else o in ops) && IsOpFor(a, b, j, o);
        assert o in ops + [op];
      }
    }
  }

  lemma ApplyNone(v: Value)
    ensures ApplyPointers(v, []) == Some(v)
  {
  }

  /** Adding one key to any object round-trips exactly when the key is not empty. */
  lemma InsertExact(a: map<string, Value>, k: string, x: Value)
    requires k !in a
    ensures ApplyPointers(Object(a), KeyOps(a, a[k := x], a.Keys, k)) == Some(Object(a[k := x])) <==> k != ""
  {
    var ops := KeyOps(a, a[k := x], a.Keys, k);
    assert ops == [Add(KeyPath(k), x)] && ops[..0] == [];
    if k != "" {
      KeyPointer(k);
    } else {
      assert KeyPath(k) == "/" by { assert Escape("") == ""; }
      assert ApplyPointer(Object(a), ops[0]) == Some(x);
      assert Object(a[k := x]).fields[k] == x;
    }
  }
}
