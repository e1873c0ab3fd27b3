/** The fixed-window rate limiter over whole runs of calls. Times are nanoseconds. */
module RateLimit {

  const SECOND: nat := 1_000_000_000

  /** `allow` reads the clock once to test the window and, if it resets, once more. */
  datatype Call = Call(check: nat, reset: nat)

  datatype Limiter = Limiter(max: nat, count: nat, windowStart: nat)

  predicate Expired(l: Limiter, c: Call) {
    c.check >= l.windowStart + SECOND
  }

  /** The limiter with the window it uses for this call. */
  function Opened(l: Limiter, c: Call): Limiter {
    if Expired(l, c) then l.(count := 0, windowStart := c.reset) else l
  }

  predicate Allowed(l: Limiter, c: Call) {
    Opened(l, c).count < l.max
  }

  function Next(l: Limiter, c: Call): Limiter {
    var o := Opened(l, c);
    if Allowed(l, c) then o.(count := o.count + 1) else o
  }

  class RateLimiter {
    const max: nat
    var count: nat
    var windowStart: nat

    ghost function View(): Limiter
      reads this
    {
      Limiter(max, count, windowStart)
    }

    constructor (maxPerSec: nat, now: nat)
      ensures View() == Limiter(maxPerSec, 0, now)
    {
      max, count, windowStart := maxPerSec, 0, now;
    }

    /** `RateLimiter::allow` */
    method Allow(c: Call) returns (ok: bool)
      modifies this
      ensures ok == Allowed(old(View()), c) && View() == Next(old(View()), c)
      ensures ok <==> (if c.check >= old(windowStart) + SECOND then 0 else old(count)) < max
      ensures windowStart == if c.check >= old(windowStart) + SECOND then c.reset else old(windowStart)
      ensures !ok && windowStart == old(windowStart) && c.check < old(windowStart) + SECOND ==> count == old(count)
    {
      if c.check >= windowStart + SECOND {
        count := 0;
        windowStart := c.reset;
      }
      if count < max {
        count := count + 1;
        ok := true;
      } else {
        ok := false;
      }
    }
  }

  // ---------- runs ----------

  /** The clock never goes back. */
  predicate Ordered(calls: seq<Call>, now: nat)
    decreases |calls|
  {
    calls == [] || (now <= calls[0].check <= calls[0].reset && Ordered(calls[1..], calls[0].reset))
  }

  predicate Within(c: Call, from: nat) {
    from <= c.check < from + SECOND
  }

  /** How many calls made in the second that starts at `from` are allowed. */
  function AllowedIn(l: Limiter, calls: seq<Call>, from: nat): nat
    decreases |calls|
  {
    if calls == [] then 0
    else
      (if Within(calls[0], from) && Allowed(l, calls[0]) then 1 else 0) + AllowedIn(Next(l, calls[0]), calls[1..], from)
  }

  /** No call of the run opens a new window. */
  predicate OneWindow(l: Limiter, calls: seq<Call>)
    decreases |calls|
  {
    calls == [] || (!Expired(l, calls[0]) && OneWindow(Next(l, calls[0]), calls[1..]))
  }

  function AllowedTotal(l: Limiter, calls: seq<Call>): nat
    decreases |calls|
  {
    if calls == [] then 0
    else (if Allowed(l, calls[0]) then 1 else 0) + AllowedTotal(Next(l, calls[0]), calls[1..])
  }

  /** At most `max` calls per window: once opened with `count` used, at most the rest. */
  lemma {:induction false} WindowBound(l: Limiter, calls: seq<Call>)
    requires l.count <= l.max && OneWindow(l, calls)
    ensures AllowedTotal(l, calls) <= l.max - l.count
    decreases |calls|
  {
    if calls != [] {
      WindowBound(Next(l, calls[0]), calls[1..]);
    }
  }

  function Min(a: nat, b: nat): nat {
    if a < b then a else b
  }

  /** The limiter after a run of calls. */
  function After(l: Limiter, calls: seq<Call>): Limiter
    decreases |calls|
  {
    if calls == [] then l else After(Next(l, calls[0]), calls[1..])
  }

  /** Within one window the first calls are allowed until the limit is used up and no others, and
      the window stays where it is, refused calls or not. */
  lemma {:induction false} WindowExact(l: Limiter, calls: seq<Call>)
    requires l.count <= l.max && OneWindow(l, calls)
    ensures AllowedTotal(l, calls) == Min(|calls|, l.max - l.count)
    ensures After(l, calls) == l.(count := l.count + Min(|calls|, l.max - l.count))
    decreases |calls|
  {
    if calls != [] {
      WindowExact(Next(l, calls[0]), calls[1..]);
    }
  }

  /** A call at or past the end of the window opens a new one at its own time with nothing used
      but itself, whatever happened before. */
  lemma Reopens(l: Limiter, c: Call)
    requires c.check >= l.windowStart + SECOND && 0 < l.max
    ensures Allowed(l, c) && Next(l, c) == Limiter(l.max, 1, c.reset)
  {
  }

  lemma {:induction false} NoneAfter(l: Limiter, calls: seq<Call>, from: nat, now: nat)
    requires Ordered(calls, now) && now >= from + SECOND
    ensures AllowedIn(l, calls, from) == 0
    decreases |calls|
  {
    if calls != [] {
      NoneAfter(Next(l, calls[0]), calls[1..], from, calls[0].reset);
    }
  }

  /** A window opened during the second serves the rest of it. */
  lemma {:induction false} SameWindow(l: Limiter, calls: seq<Call>, from: nat, now: nat)
    requires l.count <= l.max && from <= l.windowStart && Ordered(calls, now)
    ensures AllowedIn(l, calls, from) <= l.max - l.count
    decreases |calls|
  {
    if calls != [] {
      var c := calls[0];
      if c.check >= from + SECOND {
        NoneAfter(Next(l, c), calls[1..], from, c.reset);
      } else {
        SameWindow(Next(l, c), calls[1..], from, c.reset);
      }
    }
  }

  /** From inside the second on: the current window's rest, then one more window. */
  lemma {:induction false} TwoWindows(l: Limiter, calls: seq<Call>, from: nat, now: nat)
    requires l.count <= l.max && from <= now && Ordered(calls, now)
    ensures AllowedIn(l, calls, from) <= 2 * l.max - l.count
    decreases |calls|
  {
    if calls != [] {
      var c := calls[0];
      if Expired(l, c) {
        SameWindow(Next(l, c), calls[1..], from, c.reset);
      } else {
        TwoWindows(Next(l, c), calls[1..], from, c.reset);
      }
    }
  }

  /** In every run, any one-second interval sees at most twice the limit. */
  lemma {:induction false} TwiceTheLimit(l: Limiter, calls: seq<Call>, from: nat, now: nat)
    requires l.count <= l.max && Ordered(calls, now)
    ensures AllowedIn(l, calls, from) <= 2 * l.max
    decreases |calls|
  {
    if calls != [] {
      var c := calls[0];
      if c.check < from {
        TwiceTheLimit(Next(l, c), calls[1..], from, c.reset);
      } else {
        TwoWindows(l, calls, from, c.check);
      }
    }
  }

  // ---------- the bound is reached ----------

  function Burst(n: nat, at: nat): seq<Call> {
    seq(n, _ => Call(at, at))
  }

  lemma {:induction false} BurstOrdered(n: nat, at: nat, now: nat)
    requires now <= at
    ensures Ordered(Burst(n, at), now)
    decreases n
  {
    if n > 0 {
      assert Burst(n, at)[1..] == Burst(n - 1, at);
      BurstOrdered(n - 1, at, at);
    }
  }

  /** A burst inside an open window fills what is left of it. */
  lemma {:induction false} BurstFills(l: Limiter, n: nat, at: nat, from: nat, later: seq<Call>)
    requires l.count + n == l.max && at < l.windowStart + SECOND && from <= at < from + SECOND
    ensures AllowedIn(l, Burst(n, at) + later, from) == n + AllowedIn(l.(count := l.max), later, from)
    decreases n
  {
    var all := Burst(n, at) + later;
    if n == 0 {
      assert all == later;
    } else {
      assert all[1..] == Burst(n - 1, at) + later;
      BurstFills(Next(l, Call(at, at)), n - 1, at, from, later);
    }
  }

  lemma {:induction false} OrderedAppend(a: seq<Call>, b: seq<Call>, now: nat, mid: nat)
    requires Ordered(a, now) && now <= mid && (forall i | 0 <= i < |a| :: a[i].reset <= mid) && Ordered(b, mid)
    ensures Ordered(a + b, now)
    decreases |a|
  {
    if a == [] {
      assert a + b == b;
      if b != [] {
        assert now <= b[0].check;
      }
    } else {
      assert (a + b)[1..] == a[1..] + b;
      OrderedAppend(a[1..], b, a[0].reset, mid);
    }
  }

  /** A burst at the end of one window and another at the start of the next reach it. */
  lemma TwiceIsReached(max: nat)
    requires 0 < max
    ensures exists calls: seq<Call>, from: nat ::
      Ordered(calls, 0) && AllowedIn(Limiter(max, 0, 0), calls, from) == 2 * max
  {
    var end, start := SECOND - 1, SECOND;
    var late := Burst(max, start);
    var calls := Burst(max, end) + late;
    BurstOrdered(max, end, 0);
    BurstOrdered(max, start, end);
    OrderedAppend(Burst(max, end), late, 0, end);
    BurstFills(Limiter(max, 0, 0), max, end, end, late);
    var full := Limiter(max, max, 0);
    var reopened := Next(full, late[0]);
    assert reopened == Limiter(max, 1, start);
    assert late[1..] == Burst(max - 1, start) + [];
    BurstFills(reopened, max - 1, start, end, []);
    assert AllowedIn(full, late, end) == max;
  }
}
