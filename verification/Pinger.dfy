/** Round-trip statistics of the ping tool (`extras/ping/ping.go`): Welford's online method on
    64-bit integers with truncating division. */
module Pinger {
  import opened Arithmetic

  /** A `time.Duration` that is not negative. */
  type Rtt = x: int | 0 <= x < TWO_63 witness 0

  datatype Stats = Stats(received: nat, min: int, max: int, avg: int, m2: int)

  const NO_STATS: Stats := Stats(0, 0, 0, 0, 0)

  /** Division of Go integers: towards zero. */
  function TruncDiv(a: int, b: int): int
    requires b > 0
  {
    if a >= 0 then a / b else -((-a) / b)
  }

  /** One reply, with 64-bit arithmetic. */
  function Update(s: Stats, x: Rtt): Stats {
    var n := s.received + 1;
    var delta := Wrap64(x - s.avg);
    var avg := Wrap64(s.avg + TruncDiv(delta, n));
    var delta2 := Wrap64(x - avg);
    Stats(n, if n == 1 || x < s.min then x else s.min, if x > s.max then x else s.max, avg,
          Wrap64(s.m2 + Wrap64(delta * delta2)))
  }

  /** The same with unbounded integers. */
  function Ideal(s: Stats, x: Rtt): Stats {
    var n := s.received + 1;
    var delta := x - s.avg;
    var avg := s.avg + TruncDiv(delta, n);
    Stats(n, if n == 1 || x < s.min then x else s.min, if x > s.max then x else s.max, avg, s.m2 + delta * (x - avg))
  }

  function UpdateAll(xs: seq<Rtt>): Stats {
    if xs == [] then NO_STATS else Update(UpdateAll(xs[..|xs| - 1]), xs[|xs| - 1])
  }

  function IdealAll(xs: seq<Rtt>): Stats {
    if xs == [] then NO_STATS else Ideal(IdealAll(xs[..|xs| - 1]), xs[|xs| - 1])
  }

  function Sum(xs: seq<Rtt>): nat {
    if xs == [] then 0 else Sum(xs[..|xs| - 1]) + xs[|xs| - 1]
  }

  datatype Reply = Reply(number: nat, ttl: int, rtt: Rtt)

  class Pinger {
    const recordReplies: bool
    const squareRoot: int -> int      // the root of a duration, through floating point
    var packetsRecv: nat
    var minRtt: int
    var maxRtt: int
    var avgRtt: int
    var stddevm2: int
    var stdDevRtt: int
    var replies: seq<Reply>

    ghost function View(): Stats
      reads this
    {
      Stats(packetsRecv, minRtt, maxRtt, avgRtt, stddevm2)
    }

    constructor (recordReplies: bool, squareRoot: int -> int)
      ensures View() == NO_STATS && stdDevRtt == 0 && replies == []
      ensures this.recordReplies == recordReplies && this.squareRoot == squareRoot
    {
      this.recordReplies, this.squareRoot := recordReplies, squareRoot;
      packetsRecv, minRtt, maxRtt, avgRtt, stddevm2, stdDevRtt, replies := 0, 0, 0, 0, 0, 0, [];
    }

    method UpdateStatistics(number: nat, ttl: int, rtt: Rtt)
      modifies this
      ensures View() == Update(old(View()), rtt)
      ensures stdDevRtt == squareRoot(TruncDiv(stddevm2, packetsRecv))
      ensures replies == if recordReplies then old(replies) + [Reply(number + 1, ttl, rtt)] else old(replies)
    {
      hide Wrap64, TruncDiv;
      packetsRecv := packetsRecv + 1;
      if recordReplies {
        replies := replies + [Reply(number + 1, ttl, rtt)];
      }
      if packetsRecv == 1 || rtt < minRtt {
        minRtt := rtt;
      }
      if rtt > maxRtt {
        maxRtt := rtt;
      }
      var delta := Wrap64(rtt - avgRtt);
      avgRtt := Wrap64(avgRtt + TruncDiv(delta, packetsRecv));
      var delta2 := Wrap64(rtt - avgRtt);
      stddevm2 := Wrap64(stddevm2 + Wrap64(delta * delta2));
      stdDevRtt := squareRoot(TruncDiv(stddevm2, packetsRecv));
    }
  }

  // --------------------------------------------------------- one step

  lemma TruncDivBounds(a: int, b: int)
    requires b > 0
    ensures a >= 0 ==> 0 <= TruncDiv(a, b) <= a && 0 <= a - b * TruncDiv(a, b) < b
    ensures a <= 0 ==> a <= TruncDiv(a, b) <= 0 && -b < a - b * TruncDiv(a, b) <= 0
  {
    QuotientBounds(a, b);
    QuotientBounds(-a, b);
    assert b * -((-a) / b) == -(b * ((-a) / b));
  }

  lemma QuotientBounds(a: int, b: int)
    requires b > 0
    ensures a >= 0 ==> 0 <= a / b <= a && 0 <= a - b * (a / b) < b
  {
    var q, r := a / b, a % b;
    assert a - b * q == r;
    ProductBounds(b, q);
  }

  lemma ProductBounds(b: int, q: int)
    requires b > 0
    ensures q >= 0 ==> b * q >= q
    ensures q < 0 ==> b * q <= -b
  {
    if q >= 0 {
      Grows(q, 1, b);
    } else {
      Grows(b, 1, -q);
      assert b * -q == -(b * q);
    }
  }

  /** The new average lies between the old one and the new value, so both deltas point the same way. */
  lemma AverageMovesTowards(s: Stats, x: Rtt)
    ensures var avg := Ideal(s, x).avg;
            (s.avg <= avg <= x || x <= avg <= s.avg) && 0 <= (x - s.avg) * (x - avg) <= (x - s.avg) * (x - s.avg)
  {
    var delta, n := x - s.avg, s.received + 1;
    TruncDivBounds(delta, n);
    var delta2 := delta - TruncDiv(delta, n);
    SameSign(delta, delta2);
  }

  lemma SameSign(d: int, e: int)
    requires 0 <= e <= d || d <= e <= 0
    ensures 0 <= d * e <= d * d
  {
    if d >= 0 {
      Grows(d, e, d);
    } else {
      Grows(-d, -e, -d);
      assert (-d) * (-e) == d * e && (-d) * (-d) == d * d;
    }
  }

  lemma Grows(f: nat, e: nat, d: nat)
    requires e <= d
    ensures 0 <= f * e <= f * d
  {
    assert f * d == f * e + f * (d - e);
  }

  // --------------------------------------------------------- whole sequences

  /** Minimum and maximum are those of the sequence and enclose the average. */
  ghost predicate Enclosed(xs: seq<Rtt>, s: Stats) {
    && s.received == |xs|
    && (xs == [] ==> s == NO_STATS)
    && (xs != [] ==> s.min in xs && s.max in xs && s.min <= s.avg <= s.max)
    && (forall i :: 0 <= i < |xs| ==> s.min <= xs[i] <= s.max)
  }

  lemma {:induction false} AverageEnclosed(xs: seq<Rtt>)
    ensures Enclosed(xs, IdealAll(xs))
  {
    if xs != [] {
      var ys, x := xs[..|xs| - 1], xs[|xs| - 1];
      AverageEnclosed(ys);
      EnclosedStep(ys, IdealAll(ys), x);
      assert xs == ys + [x];
    }
  }

  lemma EnclosedStep(ys: seq<Rtt>, s: Stats, x: Rtt)
    requires Enclosed(ys, s)
    ensures Enclosed(ys + [x], Ideal(s, x))
  {
    hide Ideal;
    var xs := ys + [x];
    IdealExtremes(s, x);
    if ys == [] {
      FirstAverage(x);
    } else {
      AverageBetween(s, x);
    }
    assert xs[|ys|] == x;
    assert forall y :: y in ys ==> y in xs;
    assert forall i :: 0 <= i < |ys| ==> xs[i] == ys[i];
  }

  lemma IdealExtremes(s: Stats, x: Rtt)
    ensures var t := Ideal(s, x);
            && t.received == s.received + 1
            && t.min == (if s.received == 0 || x < s.min then x else s.min)
            && t.max == (if x > s.max then x else s.max)
  {}

  lemma AverageBetween(s: Stats, x: Rtt)
    ensures s.avg <= Ideal(s, x).avg <= x || x <= Ideal(s, x).avg <= s.avg
  {
    hide Ideal;
    AverageMovesTowards(s, x);
  }

  lemma FirstAverage(x: Rtt)
    ensures Ideal(NO_STATS, x).avg == x
  {}

  /** The truncated divisions drift by at most (n - 1) / 2 from the true mean. */
  lemma {:induction false} AverageDrift(xs: seq<Rtt>)
    ensures var n, e := |xs|, |xs| * IdealAll(xs).avg - Sum(xs);
            -(n * (n - 1)) <= 2 * e <= n * (n - 1)
    ensures IdealAll(xs).received == |xs|
  {
    if xs != [] {
      var ys, x := xs[..|xs| - 1], xs[|xs| - 1];
      AverageDrift(ys);
      var s, n := IdealAll(ys), |xs|;
      TruncDivBounds(x - s.avg, n);
      DriftStep(n, s.avg, Sum(ys), x, TruncDiv(x - s.avg, n));
    }
  }

  /** A remainder of less than n is lost at the n-th reply. */
  lemma DriftStep(n: int, avg: int, sum: int, x: int, q: int)
    requires -n < (x - avg) - n * q < n
    requires -((n - 1) * (n - 2)) <= 2 * ((n - 1) * avg - sum) <= (n - 1) * (n - 2)
    ensures -(n * (n - 1)) <= 2 * (n * (avg + q) - (sum + x)) <= n * (n - 1)
  {
    assert n * (avg + q) == (n - 1) * avg + avg + n * q by { Distribute(n, avg, q); }
    assert n * (n - 1) == (n - 1) * (n - 2) + 2 * (n - 1) by { Distribute(n, n - 2, 1); Distribute(n - 1, n - 2, 2); }
  }

  lemma Distribute(n: int, a: int, q: int)
    ensures n * (a + q) == (n - 1) * a + a + n * q
  {}

  /** The second moment starts at zero and never decreases; it is at most n times the squared range. */
  lemma {:induction false} SecondMomentGrows(xs: seq<Rtt>, bound: nat)
    requires forall i :: 0 <= i < |xs| ==> xs[i] <= bound
    ensures 0 <= IdealAll(xs).m2 <= |xs| * (bound * bound)
    ensures xs != [] ==> IdealAll(xs[..|xs| - 1]).m2 <= IdealAll(xs).m2
  {
    if xs != [] {
      var ys, x := xs[..|xs| - 1], xs[|xs| - 1];
      SecondMomentGrows(ys, bound);
      AverageEnclosed(ys);
      MomentStep(IdealAll(ys), x, bound);
      Multiples(|xs|, bound * bound);
    }
  }

  lemma MomentStep(s: Stats, x: Rtt, bound: nat)
    requires 0 <= s.avg <= bound && x <= bound
    ensures 0 <= Ideal(s, x).m2 - s.m2 <= bound * bound
  {
    AverageMovesTowards(s, x);
    var e := x - s.avg;
    var d := if e >= 0 then e else -e;
    assert e * e == d * d;
    Grows(d, d, bound);
    Grows(bound, d, bound);
  }

  lemma Multiples(n: int, b: int)
    ensures n * b == (n - 1) * b + b
  {}

  /** The sum of the squared deviations from `a`. */
  ghost function Squares(xs: seq<Rtt>, a: int): int {
    if xs == [] then 0
    else
      var d := xs[|xs| - 1] - a;
      Squares(xs[..|xs| - 1], a) + d * d
  }

  lemma {:induction false} SquaresShift(xs: seq<Rtt>, a: int, q: int)
    ensures Squares(xs, a + q) == Squares(xs, a) - 2 * (q * (Sum(xs) - |xs| * a)) + |xs| * (q * q)
  {
    if xs != [] {
      var ys, x := xs[..|xs| - 1], xs[|xs| - 1];
      SquaresShift(ys, a, q);
      ShiftStep(x - a, q, Sum(ys) - |ys| * a);
      assert Sum(xs) - |xs| * a == (Sum(ys) - |ys| * a) + (x - a) by { Multiples(|xs|, a); }
      Multiples(|xs|, q * q);
      assert x - (a + q) == x - a - q;
    }
  }

  lemma ShiftStep(d: int, q: int, e: int)
    ensures (d - q) * (d - q) == d * d - 2 * (q * d) + q * q
    ensures q * (e + d) == q * e + q * d
  {}

  /** No division of the run leaves a remainder. */
  ghost predicate DividesEvenly(xs: seq<Rtt>) {
    xs != [] ==>
      var ys := xs[..|xs| - 1];
      DividesEvenly(ys) && (xs[|xs| - 1] - IdealAll(ys).avg) % |xs| == 0
  }

  /** As long as no division leaves a remainder the running values are exact: the average is the mean,
      and the second moment the sum of the squared deviations from it. */
  lemma {:induction false} WelfordExact(xs: seq<Rtt>)
    requires DividesEvenly(xs)
    ensures var s := IdealAll(xs);
            s.received == |xs| && |xs| * s.avg == Sum(xs) && s.m2 == Squares(xs, s.avg)
  {
    if xs != [] {
      var ys, x, n := xs[..|xs| - 1], xs[|xs| - 1], |xs|;
      WelfordExact(ys);
      var s := IdealAll(ys);
      var q, delta := TruncDiv(x - s.avg, n), x - s.avg;
      EvenQuotient(delta, n);
      SquaresShift(ys, s.avg, q);
      assert q * (Sum(ys) - |ys| * s.avg) == 0;
      EvenStep(n, s.avg, q, delta);
      hide Squares;
    }
  }

  lemma EvenQuotient(a: int, n: int)
    requires n > 0 && a % n == 0
    ensures n * TruncDiv(a, n) == a
  {
    TruncDivBounds(a, n);
    var q := TruncDiv(a, n);
    assert a == n * (a / n);
    Apart(n, a / n, q);
  }

  lemma EvenStep(n: int, a: int, q: int, delta: int)
    requires delta == n * q
    ensures n * (a + q) == (n - 1) * a + a + delta
    ensures (n - 1) * (q * q) + (delta - q) * (delta - q) == delta * (delta - q)
  {
    Distribute(n, a, q);
    var p := (n - 1) * q;
    Multiples(n, q);
    assert delta == p + q;
    assert (n - 1) * (q * q) == p * q;
    assert p * q + p * p == (p + q) * p;
  }

  // --------------------------------------------------------- 64-bit arithmetic

  lemma WrapAdds(a: int, b: int)
    ensures Wrap64(Wrap64(a) + Wrap64(b)) == Wrap64(a + b)
  {
    var k, l := (a + TWO_63) / TWO_64, (b + TWO_63) / TWO_64;
    assert Wrap64(a) == a - k * TWO_64;
    assert Wrap64(b) == b - l * TWO_64;
    WrapShifted(a + b, k + l);
  }

  lemma WrapShifted(a: int, k: int)
    ensures Wrap64(a - k * TWO_64) == Wrap64(a)
  {
    var x, m := a + TWO_63, TWO_64;
    assert x - k * m == m * (x / m - k) + x % m;
    Remainder(x - k * m, m, x / m - k, x % m);
  }

  /** The averages never overflow; the second moment is the ideal one modulo 2^64. */
  lemma {:induction false} WrapsOnlySecondMoment(xs: seq<Rtt>)
    ensures UpdateAll(xs) == IdealAll(xs).(m2 := Wrap64(IdealAll(xs).m2))
  {
    if xs != [] {
      var ys, x := xs[..|xs| - 1], xs[|xs| - 1];
      WrapsOnlySecondMoment(ys);
      AverageEnclosed(ys);
      StepWraps(IdealAll(ys), x);
    }
  }

  lemma StepWraps(s: Stats, x: Rtt)
    requires 0 <= s.avg < TWO_63
    ensures Update(s.(m2 := Wrap64(s.m2)), x) == Ideal(s, x).(m2 := Wrap64(Ideal(s, x).m2))
  {
    AverageMovesTowards(s, x);
    var delta, avg := x - s.avg, Ideal(s, x).avg;
    WrapAdds(s.m2, delta * (x - avg));
  }

  /** The statistics are exact if and only if the true second moment fits 63 bits. */
  lemma StatisticsExactIff(xs: seq<Rtt>)
    ensures UpdateAll(xs) == IdealAll(xs) <==> IdealAll(xs).m2 < TWO_63
  {
    WrapsOnlySecondMoment(xs);
    SecondMomentGrows(xs, TWO_63);
  }

  /** The second moment as computed is not negative if and only if the true one, modulo 2^64, fits
      63 bits. */
  lemma SecondMomentNonNegativeIff(xs: seq<Rtt>)
    ensures UpdateAll(xs).m2 >= 0 <==> IdealAll(xs).m2 % TWO_64 < TWO_63
  {
    WrapsOnlySecondMoment(xs);
    hide IdealAll, UpdateAll;
    WrapSign(IdealAll(xs).m2);
  }

  lemma WrapSign(m: int)
    ensures Wrap64(m) >= 0 <==> m % TWO_64 < TWO_63
  {
    var q, r := m / TWO_64, m % TWO_64;
    assert m + TWO_63 == TWO_64 * q + (r + TWO_63);
    if r < TWO_63 {
      Remainder(m + TWO_63, TWO_64, q, r + TWO_63);
    } else {
      Remainder(m + TWO_63, TWO_64, q + 1, r - TWO_63);
    }
  }

  /** Whatever the round-trip times, the reported average lies between minimum and maximum and
      drifts by at most (n - 1) / 2; if n * bound^2 fits 63 bits, so is the second moment right
      after every reply, and it never decreases. */
  lemma StatisticsSound(xs: seq<Rtt>, bound: nat)
    requires forall i :: 0 <= i < |xs| ==> xs[i] <= bound
    ensures var s, n := UpdateAll(xs), |xs|;
            && (xs != [] ==> s.min in xs && s.max in xs && s.min <= s.avg <= s.max)
            && (forall i :: 0 <= i < n ==> s.min <= xs[i] <= s.max)
            && -(n * (n - 1)) <= 2 * (n * s.avg - Sum(xs)) <= n * (n - 1)
    ensures |xs| * (bound * bound) < TWO_63 ==>
              UpdateAll(xs) == IdealAll(xs) && 0 <= UpdateAll(xs).m2
              && (xs != [] ==> UpdateAll(xs[..|xs| - 1]).m2 <= UpdateAll(xs).m2)
  {
    hide IdealAll, UpdateAll;
    WrapsOnlySecondMoment(xs);
    AverageEnclosed(xs);
    AverageDrift(xs);
    SecondMomentGrows(xs, bound);
    if xs != [] {
      var ys := xs[..|xs| - 1];
      WrapsOnlySecondMoment(ys);
      SecondMomentGrows(ys, bound);
    }
  }

  /** Replies after 0 s and 5 s already overflow the second moment, which turns negative. */
  lemma SecondMomentOverflows()
    ensures UpdateAll([0, 5_000_000_000]).m2 == 12_500_000_000_000_000_000 - TWO_64 < 0
  {
    hide UpdateAll, IdealAll, Wrap64;
    var xs: seq<Rtt> := [0, 5_000_000_000];
    FiveSeconds(xs);
    WrapsOnlySecondMoment(xs);
    WrapShifted(12_500_000_000_000_000_000, 1);
  }

  lemma FiveSeconds(xs: seq<Rtt>)
    requires xs == [0, 5_000_000_000]
    ensures IdealAll(xs).m2 == 12_500_000_000_000_000_000
  {
    hide IdealAll, Ideal;
    IdealPair(xs);
    FirstStats(xs[0]);
    SecondMoment(Ideal(NO_STATS, xs[0]), xs[1]);
  }

  lemma IdealPair(xs: seq<Rtt>)
    requires |xs| == 2
    ensures IdealAll(xs) == Ideal(Ideal(NO_STATS, xs[0]), xs[1])
  {
    hide Ideal;
    var ys := xs[..1];
    assert ys[..0] == [];
    assert IdealAll(ys) == Ideal(IdealAll(ys[..0]), ys[0]);
  }

  lemma FirstStats(x: Rtt)
    ensures var s := Ideal(NO_STATS, x); s.avg == x && s.m2 == 0 && s.received == 1
  {
    hide Ideal;
    FirstAverage(x);
    MomentOf(NO_STATS, x, 0);
  }

  lemma MomentOf(s: Stats, x: Rtt, delta2: int)
    requires x - Ideal(s, x).avg == delta2
    ensures Ideal(s, x).m2 == s.m2 + (x - s.avg) * delta2 && Ideal(s, x).received == s.received + 1
  {}

  lemma SecondMoment(s: Stats, x: Rtt)
    requires s.avg == 0 && s.m2 == 0 && s.received == 1
    ensures Ideal(s, x).m2 == x * (x - x / 2)
  {}
}
