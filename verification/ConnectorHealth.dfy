/** The registry row of a connector: counters, health and average latency (app/interop/connector_registry.py). */
module ConnectorHealth {
  import opened Wrappers
  import opened Arithmetic

  datatype Health = Healthy | Degraded | Unavailable

  datatype Row = Row(totalCalls: nat, totalFailures: nat, average: Option<real>, health: Health)

  function Abs(x: real): real { if x < 0.0 then 0.0 - x else x }

  lemma RoundingError(x: real)
    ensures Abs(Round2(x) - x) <= 0.005
  {
    assert Abs(RoundHalfEven(x * 100.0) as real - x * 100.0) <= 0.5;
  }

  function NextAverage(previous: Option<real>, calls: nat, duration: real): real
    requires calls > 0
  {
    if previous.None? then duration else Round2((Times(previous.value, (calls - 1) as real) + duration) / calls as real)
  }

  ghost function Sum(durations: seq<real>): real {
    if durations == [] then 0.0 else Sum(durations[..|durations| - 1]) + durations[|durations| - 1]
  }

  /** How far rounding can have carried `n` times the average away from the sum. */
  ghost function Drift(n: nat): real {
    if n <= 1 then 0.0 else Drift(n - 1) + 0.005 * n as real
  }

  lemma {:induction false} DriftIs(n: nat)
    requires n >= 1
    ensures Drift(n) == 0.0025 * (n * (n + 1) - 2) as real
  {
    if n > 1 {
      DriftIs(n - 1);
      assert n * (n + 1) - 2 == ((n - 1) * n - 2) + 2 * n;
    }
  }

  /** The row agrees with the calls it has seen; the average is off by no more than the rounding can explain. */
  ghost predicate RowOk(r: Row, durations: seq<real>, failures: nat) {
    && r.totalCalls == |durations| && r.totalFailures == failures <= |durations|
    && (r.average.None? <==> durations == [])
    && (r.average.Some? ==> Abs(Times(r.average.value, r.totalCalls as real) - Sum(durations)) <= Drift(r.totalCalls))
  }

  lemma Scaled(n: real, rounded: real, exact: real)
    requires n > 0.0 && Abs(rounded - exact) <= 0.005
    ensures Abs(Times(rounded, n) - Times(n, exact)) <= 0.005 * n
  {
    var e := rounded - exact;
    TimesSign(n, 0.005 - e);
    TimesSign(n, 0.005 + e);
    assert Times(rounded, n) - Times(n, exact) == Times(n, e);
    assert Times(n, 0.005 - e) == 0.005 * n - Times(n, e) && Times(n, 0.005 + e) == 0.005 * n + Times(n, e);
  }

  lemma OneMoreCall(durations: seq<real>, average: real, d: real)
    requires durations != [] && Abs(Times(average, |durations| as real) - Sum(durations)) <= Drift(|durations|)
    ensures var n := |durations| + 1;
            Abs(Times(NextAverage(Some(average), n, d), n as real) - Sum(durations + [d])) <= Drift(n)
  {
    hide Times, Round2;
    var n := (|durations| + 1) as real;
    var exact := (Times(average, |durations| as real) + d) / n;
    RoundingError(exact);
    assert (durations + [d])[..|durations|] == durations;
    Scaled(n, Round2(exact), exact);
    DivideBack(Times(average, |durations| as real) + d, n);
  }

  /** Within half a hundredth per call made, or just at it when the hundredths are even. */
  predicate TooClose(hundredths: int, calls: nat, d: real) {
    var gap, reach := Abs(d - hundredths as real / 100.0), 0.005 * calls as real;
    gap < reach || (gap == reach && hundredths % 2 == 0)
  }

  lemma ShiftedMean(a: real, n: real, d: real, exact: real)
    requires Times(n, exact) == Times(a, n - 1.0) + d
    ensures Times(n, exact - a) == d - a
  {
    assert a * (n - 1.0) == a * n - a;
    assert n * (exact - a) == n * exact - a * n;
  }

  lemma ScaledStep(n: real, x: real, y: real)
    requires Times(n, x) == y
    ensures Times(n, 0.005 - x) == 0.005 * n - y && Times(n, 0.005 + x) == 0.005 * n + y
    ensures Times(n, x - 0.005) == y - 0.005 * n && Times(n, 0.0 - 0.005 - x) == 0.0 - 0.005 * n - y
  {}

  lemma WithinStep(n: real, x: real, y: real)
    requires n > 0.0 && Times(n, x) == y
    ensures Abs(x) < 0.005 <==> Abs(y) < 0.005 * n
    ensures Abs(x) == 0.005 <==> Abs(y) == 0.005 * n
  {
    hide Times;
    ScaledStep(n, x, y);
    TimesSign(n, 0.005 - x);
    TimesSign(n, 0.005 + x);
    TimesSign(n, x - 0.005);
    TimesSign(n, 0.0 - 0.005 - x);
  }

  lemma NearestInteger(y: real, k: int)
    ensures RoundHalfEven(y) == k <==> Abs(y - k as real) < 0.5 || (Abs(y - k as real) == 0.5 && k % 2 == 0)
  {}

  lemma NearestHundredth(x: real, hundredths: int)
    ensures Round2(x) == hundredths as real / 100.0
       <==> var gap := Abs(x - hundredths as real / 100.0); gap < 0.005 || (gap == 0.005 && hundredths % 2 == 0)
  {
    var y := x * 100.0;
    var gap := Abs(y - hundredths as real);
    assert Round2(x) == hundredths as real / 100.0 <==> RoundHalfEven(y) == hundredths;
    assert gap == 100.0 * Abs(x - hundredths as real / 100.0);
    NearestInteger(y, hundredths);
  }

  /**
   The average can stop following: where it is a whole number of hundredths, a call leaves it as it is exactly when
   its duration is too close.
   */
  lemma SmallChangesAreLost(hundredths: int, calls: nat, d: real)
    requires calls > 0
    ensures NextAverage(Some(hundredths as real / 100.0), calls, d) == hundredths as real / 100.0
       <==> TooClose(hundredths, calls, d)
  {
    hide Times, Round2;
    var a, n := hundredths as real / 100.0, calls as real;
    var exact := (Times(a, (calls - 1) as real) + d) / n;
    DivideBack(Times(a, n - 1.0) + d, n);
    ShiftedMean(a, n, d, exact);
    WithinStep(n, exact - a, d - a);
    NearestHundredth(exact, hundredths);
  }

  // ---- A run that leaves the mean behind ----

  ghost function AverageAfter(durations: seq<real>): Option<real> {
    if durations == [] then None
    else
      var n := |durations| - 1;
      Some(NextAverage(AverageAfter(durations[..n]), n + 1, durations[n]))
  }

  /** Calls each half a hundredth longer than the one before, after a first one that took no time. */
  ghost function Climbing(n: nat): (durations: seq<real>)
    ensures |durations| == n
  {
    if n == 0 then [] else Climbing(n - 1) + [if n == 1 then 0.0 else 0.005 * n as real]
  }

  lemma FirstAverage(d: real)
    ensures NextAverage(None, 1, d) == d
  {}

  lemma QuotientIs(a: real, x: real, q: real)
    requires x > 0.0 && q * x == a
    ensures a / x == q
  {}

  lemma PerCall(x: real, y: real)
    requires x > 0.0
    ensures 0.0025 * (x * y - 2.0) / x == 0.0025 * y - 0.005 / x
  {
    var q := 0.0025 * y - 0.005 / x;
    DivideBack(0.005, x);
    assert Times(x, 0.005 / x) == 0.005;
    assert q * x == 0.0025 * (x * y - 2.0);
    QuotientIs(0.0025 * (x * y - 2.0), x, q);
  }

  /** The drift per call, in closed form. */
  lemma DriftPerCall(n: nat)
    requires n >= 1
    ensures Drift(n) / n as real == 0.0025 * (n + 1) as real - 0.005 / n as real
  {
    hide Drift;
    DriftIs(n);
    var x := n as real;
    assert (n * (n + 1) - 2) as real == x * (n + 1) as real - 2.0;
    PerCall(x, (n + 1) as real);
  }

  lemma NotNegative(a: real, x: real)
    requires a >= 0.0 && x > 0.0
    ensures a / x >= 0.0
  {}

  lemma {:induction false} DriftIsNotNegative(n: nat)
    requires n >= 1
    ensures Drift(n) / n as real >= 0.0
  {
    DriftIs(n);
    assert n * (n + 1) >= 2;
    NotNegative(Drift(n), n as real);
  }

  /** None of them moves the average, and the drift from the sum is all that it can ever be. */
  lemma {:induction false} DriftIsReached(n: nat)
    requires n >= 1
    ensures AverageAfter(Climbing(n)) == Some(0.0) && Sum(Climbing(n)) == Drift(n)
    ensures Abs(AverageAfter(Climbing(n)).value - Sum(Climbing(n)) / n as real) == Drift(n) / n as real
  {
    hide NextAverage;
    var durations := Climbing(n);
    assert durations[..n - 1] == Climbing(n - 1);
    if n == 1 {
      FirstAverage(0.0);
    } else {
      DriftIsReached(n - 1);
      SmallChangesAreLost(0, n, 0.005 * n as real);
    }
    DriftIs(n);
    DriftPerCall(n);
    DriftIsNotNegative(n);
  }

  class Registration {
    var row: Row
    ghost var durations: seq<real>
    ghost var failures: nat

    ghost predicate Valid()
      reads this
    {
      RowOk(row, durations, failures)
    }

    constructor ()
      ensures Valid() && durations == [] && failures == 0
    {
      row, durations, failures := Row(0, 0, None, Healthy), [], 0;
    }

    lemma FirstCall(durations: seq<real>, d: real)
      requires durations == []
      ensures Abs(Times(NextAverage(None, 1, d), 1.0) - Sum(durations + [d])) <= Drift(1)
    {
      assert (durations + [d])[..0] == [];
    }

    lemma BelowHalf(failed: nat, calls: nat)
      requires calls > 0
      ensures failed as real / calls as real < 0.5 <==> 2 * failed < calls
    {
      var q, n := failed as real / calls as real, calls as real;
      DivideBack(failed as real, n);
      TimesSign(n, 0.5 - q);
      assert Times(n, 0.5 - q) == 0.5 * n - failed as real;
    }

    /** The counters are exact, and the average stays within the drift that rounding can explain. */
    method RecordCall(success: bool, duration: real)
      requires Valid()
      modifies this
      ensures Valid() && durations == old(durations) + [duration] && failures == old(failures) + if success then 0
        else 1
      ensures row.average == Some(NextAverage(old(row).average, old(row).totalCalls + 1, duration))
      ensures row.health.Healthy? <==> success
      ensures row.health.Degraded? <==> !success && 2 * failures < |durations|
    {
      hide Times, NextAverage, Sum, Drift;
      var calls := row.totalCalls + 1;
      var failed: nat := row.totalFailures + if success then 0 else 1;
      var health := if success then Healthy else if failed as real / calls as real < 0.5 then Degraded else Unavailable;
      BelowHalf(failed, calls);
      if row.average.Some? {
        OneMoreCall(durations, row.average.value, duration);
      } else {
        FirstCall(durations, duration);
      }
      row := Row(calls, failed, Some(NextAverage(row.average, calls, duration)), health);
      durations, failures := durations + [duration], failed;
    }
  }

  lemma TimesMinus(n: real, x: real, y: real)
    ensures Times(n, x - y) == Times(n, x) - Times(n, y) && Times(n, x) == Times(x, n)
  {}

  /** The average itself is off by no more than the drift per call, which DriftIsReached shows to be exact. */
  lemma AverageWithin(r: Row, durations: seq<real>, failures: nat)
    requires RowOk(r, durations, failures) && durations != []
    ensures Abs(r.average.value - Sum(durations) / |durations| as real) <= Drift(|durations|) / |durations| as real
  {
    hide Times, Sum, Drift;
    var n := |durations| as real;
    var mean, bound := Sum(durations) / n, Drift(|durations|) / n;
    var e := r.average.value - mean;
    DivideBack(Sum(durations), n);
    DivideBack(Drift(|durations|), n);
    TimesMinus(n, r.average.value, mean);
    TimesMinus(n, bound, e);
    TimesSum(n, bound, e);
    TimesSign(n, bound - e);
    TimesSign(n, bound + e);
  }
}
