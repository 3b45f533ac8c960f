/** The statistics computed over one burst of round-trip times, in integer nanoseconds. */
module BurstStatistics {
  import opened Options

  // ---- What the loops accumulate ----

  function Sum(s: seq<int>): int {
    if s == [] then 0 else Sum(s[..|s| - 1]) + s[|s| - 1]
  }

  function Abs(x: int): nat {
    if x < 0 then -x else x
  }

  function Square(x: int): nat
  {
    SquareNonNegative(x);
    x * x
  }

  lemma SquareNonNegative(x: int)
    ensures x * x >= 0
  {}

  /** The sum of squared distances to a: the variance before it is divided by the count. */
  function Deviations(s: seq<int>, a: int): nat {
    if s == [] then 0 else Deviations(s[..|s| - 1], a) + Square(s[|s| - 1] - a)
  }

  /** The sum of the distances between neighbours. */
  function JitterSum(s: seq<int>): nat {
    if |s| < 2 then 0 else JitterSum(s[..|s| - 1]) + Abs(s[|s| - 1] - s[|s| - 2])
  }

  /** Go's integer division, which truncates toward zero. */
  function Quotient(a: int, n: nat): int
    requires n > 0
  {
    if a >= 0 then a / n else -((-a) / n)
  }

  ghost predicate IsLeast(s: seq<int>, m: int) {
    m in s && forall i :: 0 <= i < |s| ==> m <= s[i]
  }

  ghost predicate IsGreatest(s: seq<int>, m: int) {
    m in s && forall i :: 0 <= i < |s| ==> s[i] <= m
  }

  datatype Stats = Stats(least: int, avg: int, greatest: int, deviations: nat, jitterSum: nat, jitter: int)

  /** The statistics of a non-empty burst. */
  ghost predicate IsSummary(s: seq<int>, st: Stats)
    requires s != []
  {
    && IsLeast(s, st.least) && IsGreatest(s, st.greatest)
    && st.avg == Quotient(Sum(s), |s|)
    && st.deviations == Deviations(s, st.avg)
    && st.jitterSum == JitterSum(s)
    && st.jitter == if |s| > 1 then Quotient(st.jitterSum, |s| - 1) else 0
  }

  lemma {:induction false} SummaryUnique(s: seq<int>, st: Stats, st': Stats)
    requires s != [] && IsSummary(s, st) && IsSummary(s, st')
    ensures st == st'
  {
    var i :| 0 <= i < |s| && s[i] == st.least;
    var i' :| 0 <= i' < |s| && s[i'] == st'.least;
    var j :| 0 <= j < |s| && s[j] == st.greatest;
    var j' :| 0 <= j' < |s| && s[j'] == st'.greatest;
  }

  // ---- What the accumulated values are, whatever way a list is cut ----

  lemma {:induction false} SumIsAdditive(s: seq<int>, t: seq<int>, x: int)
    ensures Sum(s + t) == Sum(s) + Sum(t) && Sum([x]) == x
  {
    assert [x][..0] == [];
    if t == [] {
      assert s + t == s;
    } else {
      var n := |t| - 1;
      SumIsAdditive(s, t[..n], x);
      assert (s + t)[..|s + t| - 1] == s + t[..n];
    }
  }

  lemma {:induction false} DeviationsAreAdditive(s: seq<int>, t: seq<int>, a: int, x: int)
    ensures Deviations(s + t, a) == Deviations(s, a) + Deviations(t, a) && Deviations([x], a) == (x - a) * (x - a)
  {
    assert [x][..0] == [];
    if t == [] {
      assert s + t == s;
    } else {
      var n := |t| - 1;
      DeviationsAreAdditive(s, t[..n], a, x);
      assert (s + t)[..|s + t| - 1] == s + t[..n];
      hide Square;
    }
  }

  /** Two pieces of a list contribute their own jitter and the distance between their neighbouring ends. */
  lemma {:induction false} JitterOfPieces(s: seq<int>, t: seq<int>)
    requires s != [] && t != []
    ensures var d := t[0] - s[|s| - 1];
            JitterSum(s + t) == JitterSum(s) + (if d < 0 then -d else d) + JitterSum(t)
    ensures |s| == 1 ==> JitterSum(s) == 0
  {
    var n := |t| - 1;
    assert (s + t)[..|s + t| - 1] == s + t[..n];
    if n == 0 {
      assert s + t[..n] == s;
    } else {
      JitterOfPieces(s, t[..n]);
    }
  }

  /** The summary in numbers: extremes that occur, and both means without their fractions, the jitter over one gap
      less than there are round-trip times. */
  lemma {:induction false} SummaryInNumbers(s: seq<int>, st: Stats)
    requires s != [] && IsSummary(s, st)
    ensures st.least in s && st.greatest in s && forall i :: 0 <= i < |s| ==> st.least <= s[i] <= st.greatest
    ensures -|s| < Sum(s) - |s| * st.avg < |s| && (Sum(s) >= 0 ==> Sum(s) >= |s| * st.avg)
    ensures st.deviations == Deviations(s, st.avg) && st.jitterSum == JitterSum(s)
    ensures if |s| == 1 then st.jitter == 0 else 0 <= st.jitterSum - (|s| - 1) * st.jitter < |s| - 1
  {
    QuotientRemainder(Sum(s), |s|);
    if |s| > 1 {
      QuotientRemainder(st.jitterSum, |s| - 1);
    }
    hide Quotient;
  }

  // ---- Bounds that hold for every burst ----

  ghost predicate Within(s: seq<int>, low: int, high: int) {
    forall i :: 0 <= i < |s| ==> low <= s[i] <= high
  }

  lemma {:induction false} SumWithin(s: seq<int>, low: int, high: int)
    requires Within(s, low, high)
    ensures |s| * low <= Sum(s) <= |s| * high
  {
    if s != [] {
      SumWithin(s[..|s| - 1], low, high);
      assert |s| * low == (|s| - 1) * low + low && |s| * high == (|s| - 1) * high + high;
    }
  }

  /** Division drops the fraction: the remainder is smaller than the divisor and has the sign of the dividend. */
  lemma QuotientRemainder(a: int, n: int)
    requires n > 0
    ensures -n < a - n * Quotient(a, n) < n
    ensures if a >= 0 then a - n * Quotient(a, n) >= 0 else a - n * Quotient(a, n) <= 0
  {
    if a >= 0 {
      assert a == n * (a / n) + a % n;
    } else {
      assert -a == n * ((-a) / n) + (-a) % n;
      assert n * -((-a) / n) == -(n * ((-a) / n));
    }
  }

  lemma QuotientWithin(a: int, n: nat, low: int, high: int)
    requires n > 0 && n * low <= a <= n * high
    ensures low <= Quotient(a, n) <= high
  {
    QuotientRemainder(a, n);
    hide Quotient;
    var q := Quotient(a, n);
    if q < low {
      ProductStep(n, q, low);
    }
    if q > high {
      ProductStep(n, high, q);
    }
  }

  lemma ProductStep(n: nat, a: int, b: int)
    requires a < b
    ensures n * a + n <= n * b
  {
    ProductNonNegative(n, b - a - 1);
    assert n * b == n * a + n + n * (b - a - 1);
  }

  /** min <= avg <= max, truncation included. */
  lemma {:induction false} AverageIsBetween(s: seq<int>, st: Stats)
    requires s != [] && IsSummary(s, st)
    ensures st.least <= st.avg <= st.greatest
  {
    SumWithin(s, st.least, st.greatest);
    QuotientWithin(Sum(s), |s|, st.least, st.greatest);
  }

  lemma {:induction false} JitterAtMost(s: seq<int>, low: int, high: int)
    requires s != [] && Within(s, low, high)
    ensures JitterSum(s) <= (|s| - 1) * (high - low)
  {
    if |s| > 1 {
      JitterAtMost(s[..|s| - 1], low, high);
      assert (|s| - 1) * (high - low) == (|s| - 2) * (high - low) + (high - low);
    }
  }

  lemma {:induction false} JitterAtLeast(s: seq<int>, i: nat, j: nat)
    requires i < |s| && j < |s|
    ensures s[i] - s[j] <= JitterSum(s)
  {
    if |s| > 1 {
      var n := |s| - 1;
      JitterAtLeast(s[..n], if i < n then i else n - 1, if j < n then j else n - 1);
    }
  }

  /** The jitter sum lies between the spread of the burst and n - 1 times the spread; the mean jitter within the spread. */
  lemma {:induction false} JitterAgainstSpread(s: seq<int>, st: Stats)
    requires s != [] && IsSummary(s, st)
    ensures st.greatest - st.least <= st.jitterSum <= (|s| - 1) * (st.greatest - st.least)
    ensures 0 <= st.jitter <= st.greatest - st.least
  {
    var i :| 0 <= i < |s| && s[i] == st.greatest;
    var j :| 0 <= j < |s| && s[j] == st.least;
    JitterAtLeast(s, i, j);
    JitterAtMost(s, st.least, st.greatest);
    if |s| > 1 {
      QuotientWithin(st.jitterSum, |s| - 1, 0, st.greatest - st.least);
    }
  }

  lemma SquareAtMost(r: int, a: int, low: int, high: int)
    requires low <= r <= high
    ensures Square(r - a) <= (high - a) * (a - low) + (high + low - 2 * a) * (r - a)
  {
    assert (high - a) * (a - low) + (high + low - 2 * a) * (r - a) - (r - a) * (r - a) == (high - r) * (r - low);
    ProductNonNegative(high - r, r - low);
  }

  lemma ProductNonNegative(x: nat, y: nat)
    ensures x * y >= 0
  {}

  lemma {:induction false} DeviationsAtMost(s: seq<int>, a: int, low: int, high: int)
    requires Within(s, low, high)
    ensures Deviations(s, a) <= |s| * ((high - a) * (a - low)) + (high + low - 2 * a) * (Sum(s) - |s| * a)
  {
    if s != [] {
      var n := |s| - 1;
      DeviationsAtMost(s[..n], a, low, high);
      SquareAtMost(s[n], a, low, high);
      DistributeBound(n, (high - a) * (a - low), high + low - 2 * a, Sum(s[..n]), s[n], a);
    }
  }

  lemma DistributeBound(n: nat, p: int, c: int, sum: int, r: int, a: int)
    ensures (n + 1) * p + c * (sum + r - (n + 1) * a) == (n * p + c * (sum - n * a)) + (p + c * (r - a))
  {
    assert (n + 1) * p == n * p + p;
    assert sum + r - (n + 1) * a == (sum - n * a) + (r - a);
    assert c * ((sum - n * a) + (r - a)) == c * (sum - n * a) + c * (r - a);
  }

  /** The squared deviations are at most n (max - avg)(avg - min), up to the remainder of the division that gave avg. */
  lemma {:induction false} VarianceBound(s: seq<int>, st: Stats)
    requires s != [] && IsSummary(s, st)
    ensures var remainder := Sum(s) - |s| * st.avg;
            && -|s| < remainder < |s|
            && st.deviations <= |s| * ((st.greatest - st.avg) * (st.avg - st.least))
                                + (st.greatest + st.least - 2 * st.avg) * remainder
  {
    hide Quotient;
    QuotientRemainder(Sum(s), |s|);
    DeviationsAtMost(s, st.avg, st.least, st.greatest);
  }

  // ---- Loss ----

  /** The share of sent packets that brought no round-trip time, in percent. */
  function LossPercent(sent: int, recv: nat): real {
    if sent > 0 then (sent - recv) as real / sent as real * 100.0 else 100.0
  }

  /** The loss is the missing answers' share of a hundred: each further answer lowers it by 100 / sent. */
  lemma LossInNumbers(sent: int, recv: nat)
    ensures if sent > 0 then LossPercent(sent, recv) * sent as real == 100.0 * (sent - recv) as real
            else LossPercent(sent, recv) == 100.0
  {
    if sent > 0 {
      var share := (sent - recv) as real / sent as real;
      assert share * sent as real == (sent - recv) as real;
      assert LossPercent(sent, recv) == share * 100.0;
      Swap(share, sent as real);
    }
  }

  lemma Swap(x: real, y: real)
    ensures x * 100.0 * y == 100.0 * (x * y)
  {}

  lemma LossInRange(sent: int, recv: nat)
    requires recv <= sent || (sent <= 0 && recv == 0)
    ensures 0.0 <= LossPercent(sent, recv) <= 100.0
    ensures LossPercent(sent, recv) == 100.0 <==> recv == 0
    ensures LossPercent(sent, recv) == 0.0 <==> recv == sent && sent > 0
  {
    if sent > 0 {
      var x := (sent - recv) as real / sent as real;
      assert x * sent as real == (sent - recv) as real;
      assert x < 0.0 ==> x * sent as real < 0.0;
      assert x > 1.0 ==> x * sent as real > sent as real;
      assert 0.0 <= x <= 1.0;
      assert LossPercent(sent, recv) == x * 100.0;
    }
  }

  // ---- The standard deviation ----

  ghost predicate IsRoot(y: real, x: real) {
    y >= 0.0 && y * y == x
  }

  /** What math.Sqrt stands for: the exact root of every number that has one. */
  ghost predicate SquareRoot(sqrt: real -> real) {
    forall x :: x >= 0.0 ==> IsRoot(sqrt(x), x)
  }

  function Variance(deviations: nat, n: nat): (v: real)
    requires n > 0
    ensures v >= 0.0
  {
    deviations as real / n as real
  }

  /** The deviation in nanoseconds, before any truncation. */
  function Deviation(sqrt: real -> real, st: Stats, n: nat): real
    requires n > 0
  {
    sqrt(Variance(st.deviations, n))
  }

  /** The deviation is the root of the mean squared distance. */
  lemma DeviationSquared(sqrt: real -> real, st: Stats, n: nat)
    requires n > 0 && SquareRoot(sqrt)
    ensures var y := Deviation(sqrt, st, n);
            y >= 0.0 && y * y == st.deviations as real / n as real
  {
    assert IsRoot(sqrt(Variance(st.deviations, n)), Variance(st.deviations, n));
  }

  lemma SquareWithin(x: int, bound: int)
    requires -bound <= x <= bound
    ensures Square(x) <= bound * bound
  {
    assert bound * bound - x * x == (bound - x) * (bound + x);
    ProductNonNegative(bound - x, bound + x);
  }

  lemma {:induction false} DeviationsWithin(s: seq<int>, a: int, low: int, high: int)
    requires Within(s, low, high) && low <= a <= high
    ensures Deviations(s, a) <= |s| * ((high - low) * (high - low))
  {
    if s != [] {
      var n := |s| - 1;
      DeviationsWithin(s[..n], a, low, high);
      SquareWithin(s[n] - a, high - low);
      assert |s| * ((high - low) * (high - low)) == n * ((high - low) * (high - low)) + (high - low) * (high - low);
    }
  }

  lemma QuotientAtMost(a: nat, n: nat, b: nat)
    requires n > 0 && a <= n * b
    ensures a as real / n as real <= b as real
  {
    var q := a as real / n as real;
    assert q * n as real == a as real;
    assert (n * b) as real == n as real * b as real;
    if q > b as real {
      assert q * n as real > b as real * n as real;
    }
  }

  lemma PositiveProduct(x: real, y: real)
    requires x > 0.0 && y > 0.0
    ensures x * y > 0.0
  {}

  lemma RootAtMost(y: real, b: nat)
    requires y >= 0.0 && y * y <= (b * b) as real
    ensures y <= b as real
  {
    var bound := b as real;
    assert (b * b) as real == bound * bound;
    if y > bound {
      assert (y - bound) * (y + bound) == y * y - bound * bound;
      PositiveProduct(y - bound, y + bound);
    }
  }

  lemma RootWithin(deviations: nat, n: nat, spread: nat, sqrt: real -> real)
    requires n > 0 && SquareRoot(sqrt) && deviations <= n * (spread * spread)
    ensures 0.0 <= sqrt(Variance(deviations, n)) <= spread as real
  {
    QuotientAtMost(deviations, n, spread * spread);
    assert IsRoot(sqrt(Variance(deviations, n)), Variance(deviations, n));
    RootAtMost(sqrt(Variance(deviations, n)), spread);
  }

  /** The deviation is at most the spread of the burst. */
  lemma {:induction false} DeviationWithinSpread(s: seq<int>, st: Stats, sqrt: real -> real)
    requires s != [] && IsSummary(s, st) && SquareRoot(sqrt)
    ensures 0.0 <= Deviation(sqrt, st, |s|) <= (st.greatest - st.least) as real
  {
    AverageIsBetween(s, st);
    DeviationsWithin(s, st.avg, st.least, st.greatest);
    hide Deviations, Within, SquareRoot, Variance;
    RootWithin(st.deviations, |s|, st.greatest - st.least, sqrt);
  }

  // ---- The three copies ----

  /** Milliseconds, from whole microseconds. */
  function Ms(d: int): real {
    Quotient(d, 1000) as real / 1000.0
  }

  /** A time that is not negative loses less than a microsecond, and what is left is whole microseconds. */
  lemma MsDropsNanoseconds(d: nat)
    ensures 0.0 <= d as real / 1_000_000.0 - Ms(d) < 0.001 && Whole(Ms(d) * 1000.0)
  {
    var micros := d / 1000;
    assert Ms(d) == micros as real / 1000.0;
    WholeMicroseconds(d, micros);
    hide Ms;
  }

  lemma WholeMicroseconds(d: nat, micros: nat)
    requires 1000 * micros <= d < 1000 * micros + 1000
    ensures 0.0 <= d as real / 1_000_000.0 - micros as real / 1000.0 < 0.001 && Whole(micros as real / 1000.0 * 1000.0)
  {
    assert micros as real / 1000.0 * 1000.0 == micros as real;
  }

  lemma SumStep(s: seq<int>, i: nat)
    requires i < |s|
    ensures Sum(s[..i + 1]) == Sum(s[..i]) + s[i]
  {
    assert s[..i + 1][..i] == s[..i];
  }

  function RealSquare(d: real): real {
    d * d
  }

  lemma SquareAsReal(d: int)
    ensures RealSquare(d as real) == Square(d) as real
  {}

  lemma DeviationStep(s: seq<int>, i: nat, a: int)
    requires i < |s|
    ensures var d := s[i] as real - a as real;
            Deviations(s[..i + 1], a) as real == Deviations(s[..i], a) as real + RealSquare(d)
  {
    assert s[..i + 1][..i] == s[..i];
    SquareAsReal(s[i] - a);
    hide RealSquare, Square;
  }

  lemma JitterStep(s: seq<int>, i: nat)
    requires 0 < i < |s|
    ensures JitterSum(s[..i + 1]) == JitterSum(s[..i]) + (if s[i] - s[i - 1] < 0 then -(s[i] - s[i - 1]) else s[i] - s[i - 1])
  {
    assert s[..i + 1][..i] == s[..i];
  }

  predicate Whole(x: real) {
    x == x.Floor as real
  }

  lemma EmptyPrefixes(s: seq<int>)
    requires s != []
    ensures s[..|s|] == s
    ensures Sum(s[..0]) == Deviations(s[..0], 0) == JitterSum(s[..1]) == 0
    ensures forall a :: Deviations(s[..0], a) == 0
  {}

  /** What printStats prints about a non-empty burst, in milliseconds. */
  datatype Lines = Lines(least: real, avg: real, greatest: real, stddev: real, jitter: real)

  datatype Report = Report(sent: int, received: nat, loss: Option<real>, lines: Option<Lines>)

  /** agent.go's result; times are nanoseconds. */
  datatype ProbeResult = ProbeResult(
    sent: int, recv: int, rttMin: int, rttAvg: int, rttMax: int, rttStddev: int, jitter: int, lossPct: real)

  /** Times in whole microseconds, the deviation truncated to nanoseconds first. */
  predicate PrintedFrom(lines: Lines, st: Stats, deviation: real) {
    lines == Lines(Ms(st.least), Ms(st.avg), Ms(st.greatest), Ms(deviation.Floor), Ms(st.jitter))
  }

  /** Whole nanoseconds, the deviation truncated. */
  predicate CarriedFrom(r: ProbeResult, st: Stats, deviation: real) {
    && r.rttMin == st.least && r.rttAvg == st.avg && r.rttMax == st.greatest && r.jitter == st.jitter
    && r.rttStddev == deviation.Floor
  }

  /** Times in whole microseconds, but the deviation as it is. */
  predicate PublishedFrom(fields: map<string, real>, st: Stats, deviation: real) {
    && fields.Keys == {"packets_sent", "packets_recv", "loss_pct", "rtt_min_ms", "rtt_avg_ms", "rtt_max_ms",
                       "rtt_stddev_ms", "jitter_ms"}
    && fields["rtt_min_ms"] == Ms(st.least) && fields["rtt_avg_ms"] == Ms(st.avg)
    && fields["rtt_max_ms"] == Ms(st.greatest) && fields["jitter_ms"] == Ms(st.jitter)
    && fields["rtt_stddev_ms"] == deviation / 1_000_000.0
  }

  ghost predicate Prints(lines: Lines, rtts: seq<int>, sqrt: real -> real)
    requires rtts != []
  {
    exists st :: IsSummary(rtts, st) && PrintedFrom(lines, st, Deviation(sqrt, st, |rtts|))
  }

  ghost predicate Carries(r: ProbeResult, rtts: seq<int>, sqrt: real -> real)
    requires rtts != []
  {
    exists st :: IsSummary(rtts, st) && CarriedFrom(r, st, Deviation(sqrt, st, |rtts|))
  }

  ghost predicate Publishes(fields: map<string, real>, rtts: seq<int>, sqrt: real -> real)
    requires rtts != []
  {
    exists st :: IsSummary(rtts, st) && PublishedFrom(fields, st, Deviation(sqrt, st, |rtts|))
  }

  /** printStats of main.go. */
  method PrintStats(rtts: seq<int>, sent: int, sqrt: real -> real) returns (report: Report)
    requires SquareRoot(sqrt)
    ensures report.sent == sent && report.received == |rtts|
    ensures report.loss == if sent > 0 then Some(LossPercent(sent, |rtts|)) else None
    ensures sent > 0 ==> report.loss.value * sent as real == 100.0 * (sent - |rtts|) as real
    ensures report.lines.Some? <==> rtts != []
    ensures rtts != [] ==> Prints(report.lines.value, rtts, sqrt)
  {
    hide Quotient, Square, RealSquare, Abs, Sum, Deviations, JitterSum, SquareRoot, Ms;
    var received := |rtts|;
    report := Report(sent, received, None, None);
    if sent > 0 {
      report := report.(loss := Some((sent - received) as real / sent as real * 100.0));
    }
    assert report.loss == if sent > 0 then Some(LossPercent(sent, received)) else None;
    LossInNumbers(sent, received);
    hide LossPercent;
    if received == 0 {
      return;
    }
    EmptyPrefixes(rtts);

    var sum, minRTT, maxRTT := 0, rtts[0], rtts[0];
    var i := 0;
    while i < received
      invariant 0 <= i <= received
      invariant sum == Sum(rtts[..i])
      invariant minRTT in rtts && maxRTT in rtts && forall k :: 0 <= k < i ==> minRTT <= rtts[k] <= maxRTT
    {
      var r := rtts[i];
      SumStep(rtts, i);
      sum := sum + r;
      if r < minRTT {
        minRTT := r;
      }
      if r > maxRTT {
        maxRTT := r;
      }
      i := i + 1;
    }
    var avg := Quotient(sum, received);

    var variance := 0.0;
    i := 0;
    while i < received
      invariant 0 <= i <= received
      invariant variance == Deviations(rtts[..i], avg) as real
    {
      var d := rtts[i] as real - avg as real;
      DeviationStep(rtts, i, avg);
      variance := variance + RealSquare(d);
      i := i + 1;
    }
    var stddev := sqrt(variance / received as real).Floor;

    var jitterSum := 0;
    i := 1;
    while i < received
      invariant 1 <= i <= received
      invariant jitterSum == JitterSum(rtts[..i])
    {
      var d := rtts[i] - rtts[i - 1];
      JitterStep(rtts, i);
      if d < 0 {
        d := -d;
      }
      jitterSum := jitterSum + d;
      i := i + 1;
    }
    var jitter := 0;
    if received > 1 {
      jitter := Quotient(jitterSum, received - 1);
    }
    ghost var st := Stats(minRTT, avg, maxRTT, Deviations(rtts, avg), JitterSum(rtts), jitter);
    assert IsSummary(rtts, st);
    assert stddev == Deviation(sqrt, st, received).Floor;
    hide IsSummary, Deviation;
    report := report.(lines := Some(Lines(Ms(minRTT), Ms(avg), Ms(maxRTT), Ms(stddev), Ms(jitter))));
    assert PrintedFrom(report.lines.value, st, Deviation(sqrt, st, received));
  }

  /** runBurst of agent.go, once the client returned these round-trip times. */
  method AgentBurst(rtts: seq<int>, burstSize: int, sqrt: real -> real) returns (result: ProbeResult)
    requires SquareRoot(sqrt)
    requires |rtts| <= burstSize || (burstSize <= 0 && rtts == [])
    ensures result.sent == burstSize && result.recv == |rtts| && result.lossPct == LossPercent(burstSize, |rtts|)
    ensures if burstSize > 0 then result.lossPct * burstSize as real == 100.0 * (burstSize - |rtts|) as real
            else result.lossPct == 100.0
    ensures rtts == [] ==>
      result.rttMin == result.rttAvg == result.rttMax == result.rttStddev == result.jitter == 0
    ensures rtts != [] ==> Carries(result, rtts, sqrt)
  {
    hide Quotient, Square, RealSquare, Abs, Sum, Deviations, JitterSum, SquareRoot, Ms;
    var recv := |rtts|;
    result := ProbeResult(burstSize, recv, 0, 0, 0, 0, 0, 0.0);
    if recv == 0 {
      LossInRange(burstSize, 0);
      LossInNumbers(burstSize, 0);
      return result.(lossPct := 100.0);
    }
    var lossPct := (burstSize - recv) as real / burstSize as real * 100.0;
    assert lossPct == LossPercent(burstSize, recv);
    LossInNumbers(burstSize, recv);
    hide LossPercent;
    EmptyPrefixes(rtts);

    var sum, minR, maxR := 0, rtts[0], rtts[0];
    var i := 0;
    while i < recv
      invariant 0 <= i <= recv
      invariant sum == Sum(rtts[..i])
      invariant minR in rtts && maxR in rtts && forall k :: 0 <= k < i ==> minR <= rtts[k] <= maxR
    {
      var r := rtts[i];
      SumStep(rtts, i);
      sum := sum + r;
      if r < minR {
        minR := r;
      }
      if r > maxR {
        maxR := r;
      }
      i := i + 1;
    }
    var avg := Quotient(sum, recv);

    var variance := 0.0;
    var avgF := avg as real;
    i := 0;
    while i < recv
      invariant 0 <= i <= recv
      invariant variance == Deviations(rtts[..i], avg) as real
    {
      var d := rtts[i] as real - avgF;
      DeviationStep(rtts, i, avg);
      variance := variance + RealSquare(d);
      i := i + 1;
    }
    var stddev := sqrt(variance / recv as real).Floor;

    var jitterSum := 0;
    i := 1;
    while i < recv
      invariant 1 <= i <= recv
      invariant jitterSum == JitterSum(rtts[..i])
    {
      var d := rtts[i] - rtts[i - 1];
      JitterStep(rtts, i);
      if d < 0 {
        d := -d;
      }
      jitterSum := jitterSum + d;
      i := i + 1;
    }
    var jitter := 0;
    if recv > 1 {
      jitter := Quotient(jitterSum, recv - 1);
    }

    ghost var st := Stats(minR, avg, maxR, Deviations(rtts, avg), JitterSum(rtts), jitter);
    assert IsSummary(rtts, st);
    result := result.(rttMin := minR, rttAvg := avg, rttMax := maxR, rttStddev := stddev, jitter := jitter,
                      lossPct := lossPct);
  }

  /** The loops of TwampMeasurer.Run. */
  method TwampStatistics(rtts: seq<int>, sqrt: real -> real)
      returns (minR: int, avg: int, maxR: int, stddevNs: real, jitter: int)
    requires rtts != [] && SquareRoot(sqrt)
    ensures exists st :: IsSummary(rtts, st) && stddevNs == Deviation(sqrt, st, |rtts|)
                      && minR == st.least && avg == st.avg && maxR == st.greatest && jitter == st.jitter
  {
    hide Quotient, Square, RealSquare, Abs, Sum, Deviations, JitterSum, SquareRoot;
    var recv := |rtts|;
    EmptyPrefixes(rtts);
    var sum := 0;
    minR, maxR := rtts[0], rtts[0];
    var i := 0;
    while i < recv
      invariant 0 <= i <= recv
      invariant sum == Sum(rtts[..i])
      invariant minR in rtts && maxR in rtts && forall k :: 0 <= k < i ==> minR <= rtts[k] <= maxR
    {
      var r := rtts[i];
      SumStep(rtts, i);
      sum := sum + r;
      if r < minR {
        minR := r;
      }
      if r > maxR {
        maxR := r;
      }
      i := i + 1;
    }
    avg := Quotient(sum, recv);

    var variance := 0.0;
    i := 0;
    while i < recv
      invariant 0 <= i <= recv
      invariant variance == Deviations(rtts[..i], avg) as real
    {
      var d := rtts[i] as real - avg as real;
      DeviationStep(rtts, i, avg);
      variance := variance + RealSquare(d);
      i := i + 1;
    }
    stddevNs := sqrt(variance / recv as real);

    var jitterSum := 0;
    i := 1;
    while i < recv
      invariant 1 <= i <= recv
      invariant jitterSum == JitterSum(rtts[..i])
    {
      var d := rtts[i] - rtts[i - 1];
      JitterStep(rtts, i);
      if d < 0 {
        d := -d;
      }
      jitterSum := jitterSum + d;
      i := i + 1;
    }
    jitter := 0;
    if recv > 1 {
      jitter := Quotient(jitterSum, recv - 1);
    }

    ghost var st := Stats(minR, avg, maxR, Deviations(rtts, avg), JitterSum(rtts), jitter);
    assert IsSummary(rtts, st) && stddevNs == Deviation(sqrt, st, |rtts|);
  }

  /** The fields TwampMeasurer.Run fills. */
  method TwampFields(rtts: seq<int>, burstSize: int, sqrt: real -> real) returns (fields: map<string, real>)
    requires SquareRoot(sqrt)
    ensures "packets_sent" in fields && fields["packets_sent"] == burstSize as real
    ensures "packets_recv" in fields && fields["packets_recv"] == |rtts| as real
    ensures "loss_pct" in fields && fields["loss_pct"] == LossPercent(burstSize, |rtts|)
    ensures if burstSize > 0 then fields["loss_pct"] * burstSize as real == 100.0 * (burstSize - |rtts|) as real
            else fields["loss_pct"] == 100.0
    ensures rtts == [] ==> fields.Keys == {"packets_sent", "packets_recv", "loss_pct"}
    ensures rtts != [] ==> Publishes(fields, rtts, sqrt)
  {
    var recv := |rtts|;
    fields := map["packets_sent" := burstSize as real, "packets_recv" := recv as real];
    if burstSize > 0 {
      fields := fields["loss_pct" := (burstSize - recv) as real / burstSize as real * 100.0];
    } else {
      fields := fields["loss_pct" := 100.0];
    }
    assert fields["loss_pct"] == LossPercent(burstSize, recv);
    LossInNumbers(burstSize, recv);
    hide LossPercent, IsSummary, Deviation, Ms;
    if recv > 0 {
      var minR, avg, maxR, stddevNs, jitter;
      minR, avg, maxR, stddevNs, jitter := TwampStatistics(rtts, sqrt);
      ghost var st :| IsSummary(rtts, st) && stddevNs == Deviation(sqrt, st, |rtts|)
                      && minR == st.least && avg == st.avg && maxR == st.greatest && jitter == st.jitter;
      fields := fields["rtt_min_ms" := Ms(minR)]["rtt_avg_ms" := Ms(avg)]["rtt_max_ms" := Ms(maxR)];
      fields := fields["rtt_stddev_ms" := stddevNs / 1_000_000.0]["jitter_ms" := Ms(jitter)];
      assert PublishedFrom(fields, st, Deviation(sqrt, st, recv));
    }
  }

  lemma MsMonotone(a: int, b: int)
    requires a <= b
    ensures Ms(a) <= Ms(b)
  {
    var x, y := Quotient(a, 1000), Quotient(b, 1000);
    assert x <= y;
    hide Quotient;
    assert x as real <= y as real;
  }

  lemma OneSummary(rtts: seq<int>, sqrt: real -> real, lines: Lines, r: ProbeResult, fields: map<string, real>)
      returns (st: Stats)
    requires rtts != [] && Prints(lines, rtts, sqrt) && Carries(r, rtts, sqrt) && Publishes(fields, rtts, sqrt)
    ensures var deviation := Deviation(sqrt, st, |rtts|);
            && IsSummary(rtts, st)
            && PrintedFrom(lines, st, deviation) && CarriedFrom(r, st, deviation) && PublishedFrom(fields, st, deviation)
  {
    hide IsSummary, PrintedFrom, CarriedFrom, PublishedFrom, Deviation;
    st :| IsSummary(rtts, st) && PrintedFrom(lines, st, Deviation(sqrt, st, |rtts|));
    var carried :| IsSummary(rtts, carried) && CarriedFrom(r, carried, Deviation(sqrt, carried, |rtts|));
    var published :| IsSummary(rtts, published) && PublishedFrom(fields, published, Deviation(sqrt, published, |rtts|));
    SummaryUnique(rtts, st, carried);
    SummaryUnique(rtts, st, published);
  }

  /** The three copies agree on everything but the deviation: what printStats prints and what TwampMeasurer publishes
      are the milliseconds of what the agent carries, and the average stays within the range. */
  lemma {:induction false} CopiesAgree(
      rtts: seq<int>, sqrt: real -> real, lines: Lines, r: ProbeResult, fields: map<string, real>)
    requires rtts != [] && Prints(lines, rtts, sqrt) && Carries(r, rtts, sqrt) && Publishes(fields, rtts, sqrt)
    ensures lines.least == Ms(r.rttMin) == fields["rtt_min_ms"]
    ensures lines.avg == Ms(r.rttAvg) == fields["rtt_avg_ms"]
    ensures lines.greatest == Ms(r.rttMax) == fields["rtt_max_ms"]
    ensures lines.jitter == Ms(r.jitter) == fields["jitter_ms"]
    ensures lines.least <= lines.avg <= lines.greatest
    ensures lines.stddev == Ms(r.rttStddev)
  {
    var st := OneSummary(rtts, sqrt, lines, r, fields);
    AverageIsBetween(rtts, st);
    MsMonotone(st.least, st.avg);
    MsMonotone(st.avg, st.greatest);
  }

  /** What agent.go carries, in numbers. */
  lemma {:induction false} CarriedInNumbers(rtts: seq<int>, sqrt: real -> real, r: ProbeResult)
    requires rtts != [] && SquareRoot(sqrt) && Carries(r, rtts, sqrt)
    ensures r.rttMin in rtts && r.rttMax in rtts && forall i :: 0 <= i < |rtts| ==> r.rttMin <= rtts[i] <= r.rttMax
    ensures -|rtts| < Sum(rtts) - |rtts| * r.rttAvg < |rtts|
    ensures if |rtts| == 1 then r.jitter == 0 else 0 <= JitterSum(rtts) - (|rtts| - 1) * r.jitter < |rtts| - 1
    ensures exists y ::
              y >= 0.0 && y * y == Deviations(rtts, r.rttAvg) as real / |rtts| as real && r.rttStddev == y.Floor
  {
    hide IsSummary, Deviation, Sum, Deviations, JitterSum, SquareRoot;
    var st :| IsSummary(rtts, st) && CarriedFrom(r, st, Deviation(sqrt, st, |rtts|));
    SummaryInNumbers(rtts, st);
    DeviationSquared(sqrt, st, |rtts|);
    var y := Deviation(sqrt, st, |rtts|);
    assert y >= 0.0 && y * y == Deviations(rtts, r.rttAvg) as real / |rtts| as real && r.rttStddev == y.Floor;
  }

  /** How far the copies differ in the deviation: main.go and agent.go drop the fraction of a nanosecond and, in
      milliseconds, of a microsecond; TwampMeasurer drops nothing. They agree exactly when there is nothing to drop. */
  lemma {:induction false} DeviationsDiffer(
      rtts: seq<int>, sqrt: real -> real, lines: Lines, r: ProbeResult, fields: map<string, real>)
    requires rtts != [] && SquareRoot(sqrt)
    requires Prints(lines, rtts, sqrt) && Carries(r, rtts, sqrt) && Publishes(fields, rtts, sqrt)
    ensures var exact := fields["rtt_stddev_ms"] * 1_000_000.0;
            && r.rttStddev as real <= exact < r.rttStddev as real + 1.0
            && (exact == r.rttStddev as real <==> Whole(exact))
    ensures 0.0 <= fields["rtt_stddev_ms"] - lines.stddev < 0.001
    ensures fields["rtt_stddev_ms"] == lines.stddev <==> Whole(fields["rtt_stddev_ms"] * 1000.0)
  {
    var st := OneSummary(rtts, sqrt, lines, r, fields);
    var exact := Deviation(sqrt, st, |rtts|);
    assert exact >= 0.0 by {
      assert IsRoot(sqrt(Variance(st.deviations, |rtts|)), Variance(st.deviations, |rtts|));
    }
    hide IsSummary, Deviation, SquareRoot;
    Dropped(exact);
  }

  lemma Dropped(exact: real)
    requires exact >= 0.0
    ensures var dropped := exact / 1_000_000.0 - Ms(exact.Floor);
            0.0 <= dropped < 0.001 && (dropped == 0.0 <==> Whole(exact / 1_000_000.0 * 1000.0))
  {
    var nanos, micros := exact.Floor, exact.Floor / 1000;
    assert nanos as real <= exact < nanos as real + 1.0;
    assert 1000 * micros <= nanos <= 1000 * micros + 999;
    assert Ms(nanos) == micros as real / 1000.0;
    var scaled := exact / 1_000_000.0 * 1000.0;
    assert micros as real <= scaled < micros as real + 1.0;
    assert scaled.Floor == micros;
  }
}
