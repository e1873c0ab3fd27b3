/** Which deliveries converge: a replica that holds the value of moment `v` and then receives
    deltas in some order, with repeats, reorderings and gaps. */
module Schedule {
  import opened Json
  import opened Delta
  import opened Paths
  import opened Wire

  /** A replica's slot after one frame. */
  function ReceiveFrame(s: Slot, ops: seq<WOp>): Slot {
    ApplyAll(s, ParseAll(ops))
  }

  function ReceiveAll(s: Slot, frames: seq<seq<WOp>>): Slot
    decreases |frames|
  {
    if frames == [] then s else ReceiveAll(ReceiveFrame(s, frames[0]), frames[1..])
  }

  /** One key's values over time and the deltas the server produced between them. */
  ghost predicate History(hist: seq<Slot>, ds: seq<seq<WOp>>) {
    && |hist| == |ds| + 1
    && (forall i | 0 <= i < |hist| :: SafeSlot(hist[i]))
    && (forall i | 0 <= i < |ds| :: IsWireDelta(hist[i], hist[i + 1], ds[i]))
  }

  function ParseFrames(ds: seq<seq<WOp>>): (r: seq<seq<POp>>)
    ensures |r| == |ds|
    ensures forall i | 0 <= i < |ds| :: r[i] == ParseAll(ds[i])
  {
    seq(|ds|, i requires 0 <= i < |ds| => ParseAll(ds[i]))
  }

  lemma {:induction false} ReceiveAllIsFlat(s: Slot, ds: seq<seq<WOp>>)
    ensures ReceiveAll(s, ds) == ApplyAll(s, Flat(ParseFrames(ds)))
    decreases |ds|
  {
    if ds != [] {
      ReceiveAllIsFlat(ReceiveFrame(s, ds[0]), ds[1..]);
      assert ParseFrames(ds)[1..] == ParseFrames(ds[1..]);
      ApplyAllAppend(s, ParseAll(ds[0]), Flat(ParseFrames(ds[1..])));
    }
  }

  lemma HistoryChain(hist: seq<Slot>, ds: seq<seq<WOp>>)
    requires History(hist, ds)
    ensures Chain(hist, ParseFrames(ds))
  {
    forall i | 0 <= i < |ds| ensures IsStep(hist[i], hist[i + 1], ParseFrames(ds)[i]) {
      WireDeltaParses(hist[i], hist[i + 1], ds[i]);
    }
  }

  /** Whatever the repeats and reorderings, a good order ends at the newest value. */
  lemma GoodDelivery(hist: seq<Slot>, ds: seq<seq<WOp>>, order: seq<nat>, v: nat)
    requires History(hist, ds) && v <= |ds| && InRange(order, |ds|) && GoodOrder(order, v, |ds|)
    ensures ReceiveAll(hist[v], Pick(ds, order)) == hist[|ds|]
  {
    hide GoodOrder;
    HistoryChain(hist, ds);
    ReceiveAllIsFlat(hist[v], Pick(ds, order));
    assert ParseFrames(Pick(ds, order)) == Pick(ParseFrames(ds), order);
    Deliver(hist, ParseFrames(ds), order, v);
  }

  /** Late deltas are harmless: every delta after moment `c`, received on top of a value
      taken at or after `c`, ends at the newest value. */
  lemma LateDeltas(hist: seq<Slot>, ds: seq<seq<WOp>>, c: nat, v: nat)
    requires History(hist, ds) && c <= v <= |ds|
    ensures ReceiveAll(hist[v], ds[c..]) == hist[|ds|]
  {
    RangeGood(c, v, |ds|);
    GoodDelivery(hist, ds, Range(c, |ds|), v);
    assert Pick(ds, Range(c, |ds|)) == ds[c..];
  }

  // ---------- the exact condition ----------

  /** For every history with `n` deltas, delivering them in this order on top of the value of
      moment `v` ends at the newest value. */
  ghost predicate OrderConverges(order: seq<nat>, v: nat, n: nat)
    requires v <= n && InRange(order, n)
  {
    forall hist: seq<Slot>, ds: seq<seq<WOp>> :: History(hist, ds) && |ds| == n
      ==> ReceiveAll(hist[v], Pick(ds, order)) == hist[n]
  }

  function Tally(i: nat): Value {
    Array(seq(i, _ => Null))
  }

  function Mark(t: nat, i: nat, j: nat): Value {
    Text(if t > j then "2" else if t > i then "1" else "0")
  }

  /** Every write counts up "b"; write `i` also sets "a" to "1" and write `j` sets it to "2". */
  function Marked(t: nat, i: nat, j: nat): Slot {
    Present(Object(map["a" := Mark(t, i, j), "b" := Tally(t)]))
  }

  function MarkedOps(t: nat, i: nat, j: nat): seq<POp> {
    var b := [Update(["b"], Tally(t + 1))];
    if t == i || t == j then [Update(["a"], Mark(t + 1, i, j))] + b else b
  }

  function MarkedDelta(t: nat, i: nat, j: nat): (r: seq<WOp>)
    ensures r != []
  {
    var b := [Update("/b", Tally(t + 1))];
    if t == i || t == j then [Update("/a", Mark(t + 1, i, j))] + b else b
  }

  lemma SubOfOne(k: string, x: Value, k': string)
    ensures Sub([Update([k], x)], k') == if k' == k then [Update([], x)] else []
  {
    var ops: seq<POp> := [Update([k], x)];
    assert ops[1..] == [] && [k][1..] == [];
  }

  lemma MarkedSub(t: nat, i: nat, j: nat, k: string)
    ensures Sub(MarkedOps(t, i, j), k)
         == if k == "b" then [Update([], Tally(t + 1))]
            else if k == "a" && (t == i || t == j) then [Update([], Mark(t + 1, i, j))]
            else []
  {
    var a: seq<POp> := [Update(["a"], Mark(t + 1, i, j))];
    var b: seq<POp> := [Update(["b"], Tally(t + 1))];
    SubOfOne("a", Mark(t + 1, i, j), k);
    SubOfOne("b", Tally(t + 1), k);
    SubAppend(a, b, k);
  }

  lemma MarkedIsDiff(t: nat, i: nat, j: nat)
    requires i <= j
    ensures IsDelta(Marked(t, i, j), Marked(t + 1, i, j), MarkedOps(t, i, j))
  {
    var m, n := Marked(t, i, j).value.fields, Marked(t + 1, i, j).value.fields;
    var ops := MarkedOps(t, i, j);
    assert |Tally(t).elems| == t && |Tally(t + 1).elems| == t + 1;
    forall k | k in m.Keys + n.Keys ensures IsDiff(m[k], n[k], Sub(ops, k)) {
      MarkedSub(t, i, j, k);
      assert "0" != "1" && "1" != "2" && "0" != "2";
    }
  }

  lemma PrintOne(k: string)
    ensures PrintPath([k]) == "/" + k
  {
    assert [k][..0] == [];
    assert PrintPath([]) == "/";
  }

  lemma PrintMarked(t: nat, i: nat, j: nat)
    ensures PrintAll(MarkedOps(t, i, j), []) == MarkedDelta(t, i, j)
  {
    hide Tally, Mark, PrintPath;
    PrintOne("a");
    PrintOne("b");
    assert "/" + "a" == "/a" && "/" + "b" == "/b";
    var ops := MarkedOps(t, i, j);
    forall q | 0 <= q < |ops| ensures PrintAll(ops, [])[q] == MarkedDelta(t, i, j)[q] {
      assert [] + ops[q].path == ops[q].path;
    }
  }

  lemma MarkedIsWire(t: nat, i: nat, j: nat)
    requires i <= j
    ensures IsWireDelta(Marked(t, i, j), Marked(t + 1, i, j), MarkedDelta(t, i, j))
  {
    hide IsDelta, Marked, MarkedOps, MarkedDelta;
    MarkedIsDiff(t, i, j);
    PrintMarked(t, i, j);
  }

  function MarkedSlots(i: nat, j: nat, n: nat): seq<Slot> {
    seq(n + 1, t requires 0 <= t => Marked(t, i, j))
  }

  function MarkedDeltas(i: nat, j: nat, n: nat): seq<seq<WOp>> {
    seq(n, t requires 0 <= t => MarkedDelta(t, i, j))
  }

  lemma MarkedSafe(t: nat, i: nat, j: nat)
    ensures SafeSlot(Marked(t, i, j))
  {
    var m := Marked(t, i, j).value.fields;
    assert NestedSafe(m["a"]) && NestedSafe(m["b"]);
    assert SlashFree("a") && SlashFree("b");
  }

  lemma MarkedHistory(i: nat, j: nat, n: nat)
    requires i <= j
    ensures History(MarkedSlots(i, j, n), MarkedDeltas(i, j, n))
  {
    hide IsWireDelta;
    forall t | 0 <= t <= n ensures SafeSlot(MarkedSlots(i, j, n)[t]) {
      MarkedSafe(t, i, j);
    }
    forall t | 0 <= t < n ensures IsWireDelta(MarkedSlots(i, j, n)[t], MarkedSlots(i, j, n)[t + 1], MarkedDeltas(i, j, n)[t]) {
      MarkedIsWire(t, i, j);
    }
  }

  /** What one of these deltas does to "a" of any object. */
  lemma MarkedReceived(m: map<string, Value>, t: nat, i: nat, j: nat)
    ensures var r := ReceiveFrame(Present(Object(m)), MarkedDelta(t, i, j));
      && r.Present? && r.value.Object?
      && Field(r.value.fields, "a") == if t == i || t == j then Present(Mark(t + 1, i, j)) else Field(m, "a")
  {
    var ops := MarkedOps(t, i, j);
    SplitSegment("a", "");
    SplitSegment("b", "");
    assert "/a"[1..] == "a" && "/b"[1..] == "b";
    assert ParseAll(MarkedDelta(t, i, j)) == ops;
    FieldByField(m, ops, "a");
    MarkedSub(t, i, j, "a");
    var one: seq<POp> := [Update([], Mark(t + 1, i, j))];
    assert one[1..] == [];
    assert ApplyAll(Field(m, "a"), one) == ApplySlot(Field(m, "a"), one[0]);
  }

  /** Without delta `j`, "a" never becomes "2". */
  lemma {:induction false} NeverMarked(m: map<string, Value>, i: nat, j: nat, n: nat, order: seq<nat>)
    requires InRange(order, n) && i <= j && j !in order && Field(m, "a") != Present(Text("2"))
    ensures var r := ReceiveAll(Present(Object(m)), Pick(MarkedDeltas(i, j, n), order));
      r.Present? && r.value.Object? && Field(r.value.fields, "a") != Present(Text("2"))
    decreases |order|
  {
    if order != [] {
      var ds := MarkedDeltas(i, j, n);
      MarkedReceived(m, order[0], i, j);
      var r := ReceiveFrame(Present(Object(m)), ds[order[0]]);
      assert "1" != "2";
      NeverMarked(r.value.fields, i, j, n, order[1..]);
      assert Pick(ds, order)[1..] == Pick(ds, order[1..]);
    }
  }

  lemma {:induction false} StaysObject(m: map<string, Value>, i: nat, j: nat, n: nat, order: seq<nat>)
    requires InRange(order, n)
    ensures var r := ReceiveAll(Present(Object(m)), Pick(MarkedDeltas(i, j, n), order)); r.Present? && r.value.Object?
    decreases |order|
  {
    if order != [] {
      var ds := MarkedDeltas(i, j, n);
      MarkedReceived(m, order[0], i, j);
      StaysObject(ReceiveFrame(Present(Object(m)), ds[order[0]]).value.fields, i, j, n, order[1..]);
      assert Pick(ds, order)[1..] == Pick(ds, order[1..]);
    }
  }

  lemma {:induction false} ReceiveAllAppend(s: Slot, a: seq<seq<WOp>>, b: seq<seq<WOp>>)
    ensures ReceiveAll(s, a + b) == ReceiveAll(ReceiveAll(s, a), b)
    decreases |a|
  {
    if a == [] {
      assert a + b == b;
    } else {
      assert (a + b)[1..] == a[1..] + b;
      ReceiveAllAppend(ReceiveFrame(s, a[0]), a[1..], b);
    }
  }

  lemma NewestMark(i: nat, j: nat, n: nat)
    requires i <= j < n
    ensures MarkedSlots(i, j, n)[n].value.fields["a"] == Text("2")
  {
  }

  /** A delta that the value lacks and that never arrives is lost. */
  lemma MissingDiverges(order: seq<nat>, v: nat, n: nat, j: nat)
    requires v <= j < n && InRange(order, n) && j !in order
    ensures ReceiveAll(MarkedSlots(j, j, n)[v], Pick(MarkedDeltas(j, j, n), order)) != MarkedSlots(j, j, n)[n]
  {
    assert "0" != "2";
    NeverMarked(MarkedSlots(j, j, n)[v].value.fields, j, j, n, order);
    NewestMark(j, j, n);
  }

  /** An older delta that arrives after the last copy of a newer one undoes it. */
  lemma LateOldDiverges(order: seq<nat>, v: nat, n: nat, p: nat, j: nat)
    requires v <= n && InRange(order, n) && p < |order| && order[p] < j < n && !ComesAfter(order, p, j)
    ensures var i := order[p];
      ReceiveAll(MarkedSlots(i, j, n)[v], Pick(MarkedDeltas(i, j, n), order)) != MarkedSlots(i, j, n)[n]
  {
    hide ReceiveFrame, MarkedDelta, Tally;
    var i := order[p];
    var ds, start := MarkedDeltas(i, j, n), MarkedSlots(i, j, n)[v];
    var before, after := order[..p + 1], order[p + 1..];
    assert Pick(ds, order) == Pick(ds, before) + Pick(ds, after);
    ReceiveAllAppend(start, Pick(ds, before), Pick(ds, after));
    assert Pick(ds, before) == Pick(ds, order[..p]) + [ds[i]];
    ReceiveAllAppend(start, Pick(ds, order[..p]), [ds[i]]);
    StaysObject(start.value.fields, i, j, n, order[..p]);
    var mid := ReceiveAll(start, Pick(ds, order[..p]));
    MarkedReceived(mid.value.fields, i, i, j);
    assert [ds[i]][1..] == [];
    var at := ReceiveFrame(mid, ds[i]);
    assert ReceiveAll(mid, [ds[i]]) == ReceiveAll(at, []) == at;
    assert "1" != "2";
    assert forall q | 0 <= q < |after| :: after[q] == order[p + 1 + q];
    NeverMarked(at.value.fields, i, j, n, after);
    NewestMark(i, j, n);
  }

  /** A delivery order converges for every history exactly when it skips no delta the value
      lacks and every delta is followed by all newer ones. */
  lemma DeliveryExact(order: seq<nat>, v: nat, n: nat)
    requires v <= n && InRange(order, n)
    ensures OrderConverges(order, v, n) <==> GoodOrder(order, v, n)
  {
    if GoodOrder(order, v, n) {
      forall hist: seq<Slot>, ds: seq<seq<WOp>> | History(hist, ds) && |ds| == n
        ensures ReceiveAll(hist[v], Pick(ds, order)) == hist[n]
      {
        GoodDelivery(hist, ds, order, v);
      }
    } else if j :| v <= j < n && j !in order {
      MarkedHistory(j, j, n);
      MissingDiverges(order, v, n, j);
    } else {
      var p, j :| 0 <= p < |order| && order[p] < j < n && !ComesAfter(order, p, j);
      MarkedHistory(order[p], j, n);
      LateOldDiverges(order, v, n, p, j);
    }
  }

  // ---------- orders without repeats ----------

  predicate NoRepeats(order: seq<nat>) {
    forall p, q | 0 <= p < q < |order| :: order[p] != order[q]
  }

  lemma {:induction false} SuffixIsRange(order: seq<nat>, v: nat, n: nat, p: nat)
    requires NoRepeats(order) && InRange(order, n) && GoodOrder(order, v, n) && p < |order|
    ensures order[p] + (|order| - p) == n
    ensures forall q | p <= q < |order| :: order[q] == order[p] + (q - p)
    decreases |order| - p
  {
    assert order[p] + 1 < n ==> ComesAfter(order, p, order[p] + 1);
    if p + 1 < |order| {
      SuffixIsRange(order, v, n, p + 1);
      forall x | order[p + 1] <= x < n ensures ComesAfter(order, p, x) {
        assert order[p + 1 + (x - order[p + 1])] == x;
      }
      assert !ComesAfter(order, p, order[p]);
      assert order[p] < order[p + 1];
    }
  }

  /** When each delta arrives at most once, the good orders are exactly the runs of consecutive
      deltas up to the newest that start no later than the value's moment. */
  lemma OnceEachExact(order: seq<nat>, v: nat, n: nat)
    requires v <= n && InRange(order, n) && NoRepeats(order)
    ensures GoodOrder(order, v, n) <==> exists c: nat :: c <= v && order == Range(c, n)
  {
    if GoodOrder(order, v, n) {
      if order == [] {
        assert v < n ==> v in order;
        assert order == Range(n, n);
      } else {
        SuffixIsRange(order, v, n, 0);
        assert order == Range(order[0], n);
        assert v < n ==> v in order;
      }
    }
    forall c: nat | c <= v && order == Range(c, n) ensures GoodOrder(order, v, n) {
      RangeGood(c, v, n);
    }
  }

  /** For every history with `n` deltas, snapshot `v` plus the deltas after `c` ends at the newest value. */
  ghost predicate Converges(c: nat, v: nat, n: nat)
    requires c <= n && v <= n
  {
    forall hist: seq<Slot>, ds: seq<seq<WOp>> :: History(hist, ds) && |ds| == n
      ==> ReceiveAll(hist[v], ds[c..]) == hist[n]
  }

  /** A suffix converges for every history exactly when the snapshot is no older than
      the last delta that was skipped. */
  lemma ConvergesExact(c: nat, v: nat, n: nat)
    requires c <= n && v <= n
    ensures Converges(c, v, n) <==> c <= v
  {
    hide GoodOrder, History, ReceiveAll;
    DeliveryExact(Range(c, n), v, n);
    SuffixIsPick(c, n);
    assert Converges(c, v, n) <==> OrderConverges(Range(c, n), v, n);
    SuffixGood(c, v, n);
  }

  lemma SuffixGood(c: nat, v: nat, n: nat)
    requires c <= n && v <= n
    ensures GoodOrder(Range(c, n), v, n) <==> c <= v
  {
    if c <= v {
      RangeGood(c, v, n);
    } else {
      assert v !in Range(c, n);
    }
  }

  lemma SuffixIsPick(c: nat, n: nat)
    requires c <= n
    ensures forall ds: seq<seq<WOp>> | |ds| == n :: Pick(ds, Range(c, n)) == ds[c..]
  {
  }
}
