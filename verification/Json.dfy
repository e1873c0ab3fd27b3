/** JSON values as the server and its clients hold them. */
module Json {

  /** Numbers are kept by representation, the way serde_json compares them. */
  datatype Value =
    | Null
    | Bool(b: bool)
    | Number(lexeme: string)
    | Text(t: string)
    | Array(elems: seq<Value>)
    | Object(fields: map<string, Value>)
  {
    predicate IsContainer() {
      Array? || Object?
    }
  }

  /** What sits at a state key, or under a field name: nothing, or a value. */
  datatype Slot = Absent | Present(value: Value)

  /** A replica shows an absent key as `Null`. */
  function Visible(s: Slot): Value {
    if s.Present? then s.value else Null
  }

  function Field(m: map<string, Value>, k: string): Slot {
    if k in m then Present(m[k]) else Absent
  }

  function SetField(m: map<string, Value>, k: string, s: Slot): map<string, Value> {
    if s.Present? then m[k := s.value] else m - {k}
  }

  lemma SetFieldLookup(m: map<string, Value>, k: string, s: Slot, k': string)
    ensures Field(SetField(m, k, s), k') == if k' == k then s else Field(m, k')
  {
  }

  lemma SameFields(m: map<string, Value>, n: map<string, Value>)
    requires forall k :: Field(m, k) == Field(n, k)
    ensures m == n
  {
    assert forall k :: k in m <==> Field(m, k).Present?;
    assert forall k :: k in n <==> Field(n, k).Present?;
    assert m.Keys == n.Keys;
    forall k | k in m ensures m[k] == n[k] {
      assert Field(m, k) == Field(n, k);
    }
  }
}
