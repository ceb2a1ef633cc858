/**
 * The pure part of a task's daily schedule (src/scheduler.py): the sorted
 * list of trigger offsets, the per-slot deltas that wrap past midnight, and
 * the cursor `(next_run_timestamp, schedule_idx)` that `Task.check` moves.
 */
module Schedule {
  import opened Results
  import opened TimeOfDay

  /** `24 * 3600`: the length of a day in seconds. */
  const Day: real := 86400.0

  predicate Sorted(s: seq<real>)
  {
    forall i, j :: 0 <= i < j < |s| ==> s[i] <= s[j]
  }

  predicate StrictlySorted(s: seq<real>)
  {
    forall i, j :: 0 <= i < j < |s| ==> s[i] < s[j]
  }

  /** Every offset is a time of day, in `[0, 86400)`. */
  predicate WithinDay(s: seq<real>)
  {
    forall i :: 0 <= i < |s| ==> 0.0 <= s[i] < Day
  }

  // ---------------------------------------------------------------------
  // Sorting (`sorted(...)` in `Task.__init__`)
  // ---------------------------------------------------------------------

  lemma PrependSorted(y: real, r: seq<real>)
    requires Sorted(r)
    requires r == [] || y <= r[0]
    ensures Sorted([y] + r)
  {
  }

  function Insert(x: real, s: seq<real>): (r: seq<real>)
    requires Sorted(s)
    ensures Sorted(r)
    ensures multiset(r) == multiset(s) + multiset{x}
    ensures |r| == |s| + 1
    ensures r[0] == if s == [] || x <= s[0] then x else s[0]
  {
    if s == [] then [x]
    else if x <= s[0] then
      PrependSorted(x, s);
      [x] + s
    else
      assert s == [s[0]] + s[1..];
      var rest := Insert(x, s[1..]);
      PrependSorted(s[0], rest);
      [s[0]] + rest
  }

  /** `sorted(values)`: an ascending permutation of `values`. */
  function Sort(values: seq<real>): (r: seq<real>)
    ensures Sorted(r)
    ensures multiset(r) == multiset(values)
    ensures |r| == |values|
  {
    if values == [] then []
    else
      assert values == [values[0]] + values[1..];
      Insert(values[0], Sort(values[1..]))
  }

  /** A sorted list is determined by its elements: `Sort` of a sorted list gives it back. */
  lemma {:induction false} SortedUnique(a: seq<real>, b: seq<real>)
    requires Sorted(a) && Sorted(b)
    requires multiset(a) == multiset(b)
    ensures a == b
  {
    if a != [] {
      assert a[0] in multiset(b);
      assert b[0] in multiset(a);
      MinOfSorted(a, b[0]);
      MinOfSorted(b, a[0]);
      assert a[0] == b[0];
      assert a == [a[0]] + a[1..];
      assert b == [b[0]] + b[1..];
      assert multiset(a) == multiset{a[0]} + multiset(a[1..]);
      assert multiset(b) == multiset{b[0]} + multiset(b[1..]);
      assert multiset(a[1..]) == multiset(a) - multiset{a[0]};
      assert multiset(b[1..]) == multiset(b) - multiset{b[0]};
      SortedUnique(a[1..], b[1..]);
    } else {
      assert |multiset(b)| == 0;
    }
  }

  lemma MinOfSorted(s: seq<real>, x: real)
    requires Sorted(s)
    requires x in multiset(s)
    ensures s[0] <= x
  {
    assert x in s;
  }

  // ---------------------------------------------------------------------
  // Deltas (`schedule_delta`)
  // ---------------------------------------------------------------------

  function Sum(d: seq<real>): real
  {
    if d == [] then 0.0 else Sum(d[..|d| - 1]) + d[|d| - 1]
  }

  /**
   * `schedule_delta`: `s[i+1] - s[i]` for each slot but the last, and for
   * the last slot the distance to the next day's first trigger.
   */
  function Deltas(s: seq<real>): (d: seq<real>)
    requires |s| > 0
    ensures |d| == |s|
  {
    seq(|s| - 1, i requires 0 <= i < |s| - 1 => s[i + 1] - s[i]) + [Day + s[0] - s[|s| - 1]]
  }

  /** In a sorted schedule no delta but the wrap-around one is negative. */
  lemma DeltasNonNegative(s: seq<real>)
    requires |s| > 0 && Sorted(s)
    ensures forall i :: 0 <= i < |s| - 1 ==> Deltas(s)[i] >= 0.0
  {
  }

  /**
   * For distinct times of day in ascending order every delta, the wrap-around
   * one included, is positive.
   */
  lemma DeltasPositive(s: seq<real>)
    requires |s| > 0 && StrictlySorted(s) && WithinDay(s)
    ensures forall i :: 0 <= i < |s| ==> Deltas(s)[i] > 0.0
  {
  }

  /** The first `k` deltas add up to the distance from the first slot to slot `k`. */
  lemma {:induction false} PrefixSum(s: seq<real>, k: nat)
    requires k < |s|
    ensures Sum(Deltas(s)[..k]) == s[k] - s[0]
  {
    if k > 0 {
      PrefixSum(s, k - 1);
      assert Deltas(s)[..k][..k - 1] == Deltas(s)[..k - 1];
    }
  }

  /** The deltas telescope: one pass over the schedule is exactly one day. */
  lemma DeltasSum(s: seq<real>)
    requires |s| > 0
    ensures Sum(Deltas(s)) == Day
  {
    var n := |s|;
    PrefixSum(s, n - 1);
    assert Deltas(s)[..n] == Deltas(s);
    assert Deltas(s)[..n][..n - 1] == Deltas(s)[..n - 1];
  }

  // ---------------------------------------------------------------------
  // The cursor moved by `Task.check`
  // ---------------------------------------------------------------------

  /** `(next_run_timestamp, schedule_idx)`. */
  datatype Cursor = Cursor(next: real, idx: nat)

  /** The true branch of `check`: advance by the current slot's delta and move to the next slot. */
  function Fire(d: seq<real>, c: Cursor): (r: Cursor)
    requires c.idx < |d|
    ensures r.idx < |d|
    ensures r.idx == if c.idx + 1 == |d| then 0 else c.idx + 1
    ensures r.next - c.next == d[c.idx]
  {
    Cursor(c.next + d[c.idx], (c.idx + 1) % |d|)
  }

  /**
   * `check(now)` on a cursor: fire when due, otherwise leave it alone. With
   * positive deltas the cursor moves forward exactly when the check is due.
   */
  function Step(d: seq<real>, c: Cursor, now: real): (r: Cursor)
    requires c.idx < |d|
    ensures r.idx < |d|
    ensures now < c.next ==> r == c
    ensures (forall i :: 0 <= i < |d| ==> 0.0 < d[i]) ==> (c.next <= now <==> c.next < r.next)
  {
    if c.next <= now then Fire(d, c) else c
  }

  /** `k` true checks in a row. */
  function FireN(d: seq<real>, c: Cursor, k: nat): (r: Cursor)
    requires c.idx < |d|
    ensures r.idx < |d|
    decreases k
  {
    if k == 0 then c else FireN(d, Fire(d, c), k - 1)
  }

  lemma {:induction false} FireNCompose(d: seq<real>, c: Cursor, a: nat, b: nat)
    requires c.idx < |d|
    ensures FireN(d, c, a + b) == FireN(d, FireN(d, c, a), b)
    decreases a
  {
    if a > 0 {
      FireNCompose(d, Fire(d, c), a - 1, b);
    }
  }

  /** One more true check after `k` of them. */
  lemma FireNSucc(d: seq<real>, c: Cursor, k: nat)
    requires c.idx < |d|
    ensures FireN(d, c, k + 1) == Fire(d, FireN(d, c, k))
  {
    FireNCompose(d, c, k, 1);
    assert FireN(d, FireN(d, c, k), 1) == Fire(d, FireN(d, c, k));
  }

  /** Without wrapping, `k` fires move the cursor `k` slots and to slot `idx + k`'s offset. */
  lemma {:induction false} FireNWithinDay(s: seq<real>, c: Cursor, k: nat)
    requires c.idx + k < |s|
    ensures FireN(Deltas(s), c, k) == Cursor(c.next + s[c.idx + k] - s[c.idx], c.idx + k)
    decreases k
  {
    if k > 0 {
      FireNWithinDay(s, Fire(Deltas(s), c), k - 1);
    }
  }

  /** The last slot's delta wraps to the next day's first trigger. */
  lemma WrapFire(s: seq<real>, c: Cursor)
    requires c.idx == |s| - 1
    ensures Fire(Deltas(s), c) == Cursor(c.next + Day + s[0] - s[|s| - 1], 0)
  {
  }

  /** From any slot, the checks up to and including the wrap land on the next day's first trigger. */
  lemma FireToWrap(s: seq<real>, c: Cursor)
    requires c.idx < |s|
    ensures FireN(Deltas(s), c, |s| - c.idx) == Cursor(c.next - s[c.idx] + Day + s[0], 0)
  {
    var d, toLast := Deltas(s), |s| - 1 - c.idx;
    FireNWithinDay(s, c, toLast);
    FireNSucc(d, c, toLast);
    WrapFire(s, FireN(d, c, toLast));
  }

  /**
   * After `|s|` true checks the cursor is back at the same slot, exactly one
   * day later, whatever slot it started from.
   */
  lemma FullCycle(s: seq<real>, c: Cursor)
    requires c.idx < |s|
    ensures FireN(Deltas(s), c, |s|) == Cursor(c.next + Day, c.idx)
  {
    var d := Deltas(s);
    var wrapped := Cursor(c.next - s[c.idx] + Day + s[0], 0);
    FireToWrap(s, c);
    FireNWithinDay(s, wrapped, c.idx);
    FireNCompose(d, c, |s| - c.idx, c.idx);
  }

  /** Shifting a cursor by a day shifts every later cursor by that day. */
  lemma {:induction false} FireNShift(d: seq<real>, c: Cursor, k: nat, t: real)
    requires c.idx < |d|
    ensures FireN(d, Cursor(c.next + t, c.idx), k) ==
      Cursor(FireN(d, c, k).next + t, FireN(d, c, k).idx)
    decreases k
  {
    if k > 0 {
      FireNShift(d, Fire(d, c), k - 1, t);
    }
  }

  /** The schedule is periodic: `k + |s|` checks land one day after `k` checks. */
  lemma Periodic(s: seq<real>, c: Cursor, k: nat)
    requires c.idx < |s|
    ensures FireN(Deltas(s), c, k + |s|) ==
      Cursor(FireN(Deltas(s), c, k).next + Day, FireN(Deltas(s), c, k).idx)
  {
    FireNCompose(Deltas(s), c, |s|, k);
    FullCycle(s, c);
    FireNShift(Deltas(s), c, k, Day);
  }

  /** The first `k` cursors reached from `start` were all due at `now`. */
  predicate AllDue(d: seq<real>, start: Cursor, k: nat, now: real)
    requires start.idx < |d|
  {
    forall j :: 0 <= j < k ==> FireN(d, start, j).next <= now
  }

  lemma AllDueExtend(d: seq<real>, start: Cursor, k: nat, now: real)
    requires start.idx < |d|
    requires AllDue(d, start, k, now) && FireN(d, start, k).next <= now
    ensures AllDue(d, start, k + 1, now)
  {
  }

  /**
   * `k` is where `while check(now): pass` stops from `start`: the first `k`
   * checks answer true and the next one false.
   */
  predicate CaughtUp(d: seq<real>, start: Cursor, k: nat, now: real)
    requires start.idx < |d|
  {
    AllDue(d, start, k, now) && now < FireN(d, start, k).next
  }

  /** The catch-up loop has one possible outcome. */
  lemma CaughtUpUnique(d: seq<real>, start: Cursor, k1: nat, k2: nat, now: real)
    requires start.idx < |d|
    requires CaughtUp(d, start, k1, now) && CaughtUp(d, start, k2, now)
    ensures k1 == k2
  {
  }

  /** A cursor sitting on slot `idx` of day number `lap` counted from `origin`. */
  predicate Aligned(s: seq<real>, c: Cursor, origin: real, lap: int)
  {
    c.idx < |s| && c.next == origin + s[c.idx] + Day * lap as real
  }

  /** Every trigger instant is one of the schedule's times on some day. */
  lemma FireKeepsAligned(s: seq<real>, c: Cursor, origin: real, lap: int)
    requires Aligned(s, c, origin, lap)
    ensures Aligned(s, Fire(Deltas(s), c), origin, if c.idx + 1 == |s| then lap + 1 else lap)
  {
  }

  /** For a schedule of strictly increasing times of day, every fire moves strictly forward. */
  lemma FireAdvances(s: seq<real>, c: Cursor)
    requires StrictlySorted(s) && WithinDay(s)
    requires c.idx < |s|
    ensures Fire(Deltas(s), c).next > c.next
  {
  }

  // ---------------------------------------------------------------------
  // Building the schedule from strings (`sorted(map(str2seconds, schedule))`)
  // ---------------------------------------------------------------------

  datatype ScheduleError =
    | BadTime(time: string, error: TimeError)  // `str2seconds` raised
    | EmptySchedule                            // `self.schedule[0]` on an empty list raised

  /** `map(str2seconds, times)`, consumed in order: the first bad string raises. */
  function ParseTimes(times: seq<string>, parse: string -> Option<real>): (r: Result<seq<real>, ScheduleError>)
    ensures r.Ok? <==> forall i :: 0 <= i < |times| ==> Str2Seconds(times[i], parse).Ok?
    ensures r.Ok? ==> |r.value| == |times|
    ensures r.Ok? ==> forall i :: 0 <= i < |times| ==> Str2Seconds(times[i], parse) == Ok(r.value[i])
    ensures r.Err? ==> exists i :: 0 <= i < |times| && FirstBadTime(times, parse, i, r.error)
  {
    if times == [] then Ok([])
    else match Str2Seconds(times[0], parse)
      case Err(e) =>
        assert FirstBadTime(times, parse, 0, BadTime(times[0], e));
        Err(BadTime(times[0], e))
      case Ok(x) =>
        match ParseTimes(times[1..], parse)
        case Err(e) =>
          assert forall i :: 0 <= i < |times| - 1 && FirstBadTime(times[1..], parse, i, e) ==>
            FirstBadTime(times, parse, i + 1, e);
          Err(e)
        case Ok(xs) => Ok([x] + xs)
  }

  /** `times[i]` is the first string `str2seconds` refuses, and `e` reports it. */
  predicate FirstBadTime(times: seq<string>, parse: string -> Option<real>, i: nat, e: ScheduleError)
    requires i < |times|
  {
    && Str2Seconds(times[i], parse).Err?
    && e == BadTime(times[i], Str2Seconds(times[i], parse).error)
    && forall j :: 0 <= j < i ==> Str2Seconds(times[j], parse).Ok?
  }

  /**
   * What `Task.__init__` computes before it may raise: the offsets of all
   * strings, or the first error (`str2seconds`, then the empty list).
   */
  function ParseSchedule(times: seq<string>, parse: string -> Option<real>): (r: Result<seq<real>, ScheduleError>)
    ensures r.Ok? ==> |r.value| == |times| > 0
    ensures r == Err(EmptySchedule) <==> times == []
    ensures r.Ok? ==> forall i :: 0 <= i < |times| ==> Str2Seconds(times[i], parse) == Ok(r.value[i])
    ensures r.Err? && r != Err(EmptySchedule) ==>
      exists i :: 0 <= i < |times| && FirstBadTime(times, parse, i, r.error)
  {
    match ParseTimes(times, parse)
    case Err(e) => Err(e)
    case Ok(xs) => if xs == [] then Err(EmptySchedule) else Ok(xs)
  }
}
