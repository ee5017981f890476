/** The running mean and second moment of the benchmark results, over the reals. */
module Welford {

  datatype PhaseResult = PhaseResult(time: real, rate: real, period: real)

  datatype Result = Result(init: PhaseResult, run: PhaseResult)

  datatype Field = InitTime | InitRate | InitPeriod | RunTime | RunRate | RunPeriod

  function Get(r: Result, f: Field): real {
    match f
    case InitTime => r.init.time
    case InitRate => r.init.rate
    case InitPeriod => r.init.period
    case RunTime => r.run.time
    case RunRate => r.run.rate
    case RunPeriod => r.run.period
  }

  /** The six fields make up a result. */
  lemma FieldsOf(r: Result)
    ensures r == Result(PhaseResult(Get(r, InitTime), Get(r, InitRate), Get(r, InitPeriod)),
                        PhaseResult(Get(r, RunTime), Get(r, RunRate), Get(r, RunPeriod)))
  {
  }

  /** One field of every result. */
  function Column(rs: seq<Result>, f: Field): (c: seq<real>)
    ensures |c| == |rs| && forall i :: 0 <= i < |rs| ==> c[i] == Get(rs[i], f)
  {
    seq(|rs|, i requires 0 <= i < |rs| => Get(rs[i], f))
  }

  // ---------- the two-pass definitions ----------

  function Sum(xs: seq<real>): real {
    if xs == [] then 0.0 else Sum(xs[..|xs|-1]) + xs[|xs|-1]
  }

  function Mean(xs: seq<real>): real
    requires xs != []
  {
    Sum(xs) / |xs| as real
  }

  function Square(d: real): real {
    d * d
  }

  /** The sum of the squared distances from `c`. */
  function SquaredDeviations(xs: seq<real>, c: real): real {
    if xs == [] then 0.0
    else SquaredDeviations(xs[..|xs|-1], c) + Square(xs[|xs|-1] - c)
  }

  // ---------- moving the centre ----------

  /** What moving the centre from `d` to `c` adds for `n` samples with sum `s`. */
  function Shift(n: real, s: real, c: real, d: real): real {
    2.0 * ((d - c) * (s - n * d)) + n * Square(d - c)
  }

  lemma ShiftOne(n: real, s: real, x: real, c: real, d: real)
    ensures Shift(n + 1.0, s + x, c, d) == Shift(n, s, c, d) + Square(x - c) - Square(x - d)
  {
    var e := d - c;
    assert (s + x) - (n + 1.0) * d == (s - n * d) + (x - d);
    Distribute(e, s - n * d, x - d);
    assert (n + 1.0) * Square(e) == n * Square(e) + Square(e);
    assert Square((x - d) + e) == Square(x - d) + 2.0 * (e * (x - d)) + Square(e);
    assert x - c == (x - d) + e;
  }

  lemma Distribute(a: real, b: real, c: real)
    ensures a * (b + c) == a * b + a * c
  {
  }

  lemma {:induction false} ShiftCenter(xs: seq<real>, c: real, d: real)
    ensures SquaredDeviations(xs, c) == SquaredDeviations(xs, d) + Shift(|xs| as real, Sum(xs), c, d)
  {
    if xs == [] {
    } else {
      hide Shift, Square;
      var front, x := xs[..|xs|-1], xs[|xs|-1];
      ShiftCenter(front, c, d);
      ShiftOne(|front| as real, Sum(front), x, c, d);
    }
  }

  lemma ShiftFromMean(n: real, s: real, c: real, d: real)
    requires s == n * d
    ensures Shift(n, s, c, d) == n * Square(d - c)
  {
  }

  // ---------- one step ----------

  lemma MeanTimesCount(xs: seq<real>)
    requires xs != []
    ensures |xs| as real * Mean(xs) == Sum(xs)
  {
  }

  lemma MeanUnique(xs: seq<real>, m: real)
    requires xs != [] && |xs| as real * m == Sum(xs)
    ensures Mean(xs) == m
  {
  }

  /** The old mean, moved by its share of the difference, is the new mean. */
  lemma NewMean(xs: seq<real>, x: real, average: real, e: real)
    requires xs != [] ==> average == Mean(xs)
    requires (|xs| as real + 1.0) * e == x - average
    ensures Mean(xs + [x]) == average + e
  {
    var n := |xs| as real;
    assert (xs + [x])[..|xs|] == xs;
    assert n * average == Sum(xs) by {
      if xs != [] {
        MeanTimesCount(xs);
      }
    }
    Distribute(n + 1.0, average, e);
    assert (n + 1.0) * average == n * average + average;
    MeanUnique(xs + [x], average + e);
  }

  lemma StepAlgebra(n: real, e: real, pre: real, post: real)
    requires pre == (n + 1.0) * e && post == pre - e
    ensures n * Square(e) + Square(post) == pre * post
  {
    var p := n * e;
    assert post == p && pre == p + e;
    assert e * p == n * Square(e);
    assert (p + e) * p == p * p + e * p;
  }

  /** Welford's identity: adding one sample moves the mean and the second moment as the
      update does. */
  lemma WelfordStep(xs: seq<real>, x: real, average: real, moment2: real, e: real)
    requires xs != [] ==> average == Mean(xs) && moment2 == SquaredDeviations(xs, average)
    requires xs == [] ==> moment2 == 0.0
    requires (|xs| as real + 1.0) * e == x - average
    ensures Mean(xs + [x]) == average + e
    ensures SquaredDeviations(xs + [x], average + e) == moment2 + (x - average) * (x - (average + e))
  {
    hide Shift, Square, Mean;
    var n := |xs| as real;
    NewMean(xs, x, average, e);
    assert (xs + [x])[..|xs|] == xs;
    ShiftCenter(xs, average + e, average);
    assert Shift(n, Sum(xs), average + e, average) == n * Square(e) by {
      if xs != [] {
        MeanTimesCount(xs);
      }
      ShiftFromMean(n, Sum(xs), average + e, average);
      SquareSign(e);
    }
    StepAlgebra(n, e, x - average, x - (average + e));
  }

  /** The second moment is never negative, and zero only for constant samples. */
  lemma {:induction false} DeviationsNonNegative(xs: seq<real>, c: real)
    ensures SquaredDeviations(xs, c) >= 0.0
    ensures SquaredDeviations(xs, c) == 0.0 <==> forall i :: 0 <= i < |xs| ==> xs[i] == c
  {
    if xs != [] {
      hide Square;
      var front, x := xs[..|xs|-1], xs[|xs|-1];
      DeviationsNonNegative(front, c);
      SquareSign(x - c);
      assert forall i :: 0 <= i < |front| ==> front[i] == xs[i];
    }
  }

  lemma SquareSign(d: real)
    ensures Square(d) >= 0.0 && Square(d) == Square(-d)
    ensures Square(d) == 0.0 <==> d == 0.0
  {
    if d > 0.0 {
      ProductPositive(d, d, Square(d));
    } else if d < 0.0 {
      ProductPositive(-d, -d, Square(d));
    }
  }

  lemma ProductPositive(a: real, b: real, p: real)
    requires a > 0.0 && b > 0.0 && p == a * b
    ensures p > 0.0
  {
  }

  /** No other centre gives a smaller second moment than the mean. */
  lemma MeanMinimizes(xs: seq<real>, c: real)
    requires xs != []
    ensures SquaredDeviations(xs, Mean(xs)) <= SquaredDeviations(xs, c)
  {
    hide Shift, Square, Mean;
    MeanTimesCount(xs);
    ShiftCenter(xs, c, Mean(xs));
    ShiftFromMean(|xs| as real, Sum(xs), c, Mean(xs));
    SquareSign(Mean(xs) - c);
  }

  // ---------- the loop ----------

  /** The update of one field; `seen` are the samples processed before. */
  method Accumulate(ghost seen: seq<real>, sample: real, average: real, moment2: real, count: nat)
    returns (average': real, moment2': real)
    requires count == |seen| + 1
    requires seen != [] ==> average == Mean(seen) && moment2 == SquaredDeviations(seen, average)
    requires seen == [] ==> moment2 == 0.0
    ensures average' == Mean(seen + [sample])
    ensures moment2' == SquaredDeviations(seen + [sample], average')
  {
    hide Square, SquaredDeviations, Mean;
    var deltaPre := sample - average;
    WelfordStep(seen, sample, average, moment2, deltaPre / count as real);
    average' := average + deltaPre / count as real;
    var deltaPost := sample - average';
    moment2' := moment2 + deltaPre * deltaPost;
  }

  /** The running values agree with the two-pass definitions on the samples seen so far. */
  ghost predicate Agrees(seen: seq<Result>, average: Result, moment2: Result, f: Field) {
    if seen == [] then Get(moment2, f) == 0.0
    else
      && Get(average, f) == Mean(Column(seen, f))
      && Get(moment2, f) == SquaredDeviations(Column(seen, f), Get(average, f))
  }

  datatype Summary = TooFew | Summary(average: Result, stdev: Result)

  /** What a square root is, wherever it is taken. */
  ghost predicate IsSquareRoot(sqrt: real -> real) {
    forall v :: v >= 0.0 ==> sqrt(v) >= 0.0 && Square(sqrt(v)) == v
  }

  /** The mean of some numbers, times their count their sum, and their standard deviation. */
  ghost predicate Statistic(xs: seq<real>, average: real, stdev: real, sqrt: real -> real)
    requires xs != []
  {
    && |xs| as real * average == Sum(xs)
    && stdev == sqrt(SquaredDeviations(xs, average) / |xs| as real)
  }

  lemma StatisticOf(rs: seq<Result>, f: Field, xs: seq<real>, average: real, stdev: real, sqrt: real -> real)
    requires rs != [] && xs == Column(rs, f)
    requires average == Mean(xs) && stdev == sqrt(Variance(rs, f))
    ensures Statistic(xs, average, stdev, sqrt)
  {
    hide SquaredDeviations;
    MeanTimesCount(xs);
  }

  /** The mean squared deviation of a field. */
  function Variance(rs: seq<Result>, f: Field): real
    requires rs != []
  {
    SquaredDeviations(Column(rs, f), Mean(Column(rs, f))) / |rs| as real
  }

  lemma VarianceNonNegative(rs: seq<Result>, f: Field)
    requires rs != []
    ensures Variance(rs, f) >= 0.0
  {
    DeviationsNonNegative(Column(rs, f), Mean(Column(rs, f)));
  }

  method AccumulateField(ghost seen: seq<Result>, r: Result, average: Result, moment2: Result, count: nat, f: Field)
    returns (a: real, m: real)
    requires count == |seen| + 1 && Agrees(seen, average, moment2, f)
    ensures a == Mean(Column(seen + [r], f)) && m == SquaredDeviations(Column(seen + [r], f), a)
  {
    assert Column(seen + [r], f) == Column(seen, f) + [Get(r, f)];
    a, m := Accumulate(Column(seen, f), Get(r, f), Get(average, f), Get(moment2, f), count);
  }

  /** The statistics that are printed: the mean and the standard deviation of every field.
      The running average starts at the first sample, which is then processed again with
      weight one. No root is taken of a negative number. */
  method Log(results: seq<Result>, sqrt: real -> real) returns (s: Summary)
    ensures s.TooFew? <==> |results| < 2
    ensures s.Summary? ==> forall f ::
      && Get(s.average, f) == Mean(Column(results, f))
      && Variance(results, f) >= 0.0
      && Get(s.stdev, f) == sqrt(Variance(results, f))
    ensures s.Summary? && IsSquareRoot(sqrt) ==> forall f ::
      Get(s.stdev, f) >= 0.0 && Square(Get(s.stdev, f)) == Variance(results, f)
    ensures s.Summary? ==>
      && Statistic(seq(|results|, i requires 0 <= i < |results| => results[i].init.time),
                   s.average.init.time, s.stdev.init.time, sqrt)
      && Statistic(seq(|results|, i requires 0 <= i < |results| => results[i].init.rate),
                   s.average.init.rate, s.stdev.init.rate, sqrt)
      && Statistic(seq(|results|, i requires 0 <= i < |results| => results[i].init.period),
                   s.average.init.period, s.stdev.init.period, sqrt)
      && Statistic(seq(|results|, i requires 0 <= i < |results| => results[i].run.time),
                   s.average.run.time, s.stdev.run.time, sqrt)
      && Statistic(seq(|results|, i requires 0 <= i < |results| => results[i].run.rate),
                   s.average.run.rate, s.stdev.run.rate, sqrt)
      && Statistic(seq(|results|, i requires 0 <= i < |results| => results[i].run.period),
                   s.average.run.period, s.stdev.run.period, sqrt)
  {
    if |results| < 2 {
      return TooFew;
    }
    var n := 0;
    var average := results[0];
    var moment2 := Result(PhaseResult(0.0, 0.0, 0.0), PhaseResult(0.0, 0.0, 0.0));
    while n < |results|
      invariant n <= |results|
      invariant forall f :: Agrees(results[..n], average, moment2, f)
    {
      average, moment2 := AccumulateAll(results[..n], results[n], average, moment2, n + 1);
      assert results[..n+1] == results[..n] + [results[n]];
      n := n + 1;
    }
    assert results[..n] == results;
    var d := n as real;
    s := Summary(average, Result(
      PhaseResult(sqrt(moment2.init.time / d), sqrt(moment2.init.rate / d), sqrt(moment2.init.period / d)),
      PhaseResult(sqrt(moment2.run.time / d), sqrt(moment2.run.rate / d), sqrt(moment2.run.period / d))));
    hide Square, SquaredDeviations, Mean;
    forall f: Field
      ensures Get(s.average, f) == Mean(Column(results, f))
      ensures Variance(results, f) >= 0.0
      ensures Get(s.stdev, f) == sqrt(Variance(results, f))
    {
      assert Agrees(results, average, moment2, f);
      VarianceNonNegative(results, f);
      assert Get(s.stdev, f) == sqrt(Get(moment2, f) / d);
    }
    hide Variance;
    Statistics(results, s.average, s.stdev, sqrt);
  }

  /** The statistics of the six fields, each by its own name. */
  lemma Statistics(rs: seq<Result>, average: Result, stdev: Result, sqrt: real -> real)
    requires rs != []
    requires forall f :: Get(average, f) == Mean(Column(rs, f)) && Get(stdev, f) == sqrt(Variance(rs, f))
    ensures
      && Statistic(seq(|rs|, i requires 0 <= i < |rs| => rs[i].init.time), average.init.time, stdev.init.time, sqrt)
      && Statistic(seq(|rs|, i requires 0 <= i < |rs| => rs[i].init.rate), average.init.rate, stdev.init.rate, sqrt)
      && Statistic(seq(|rs|, i requires 0 <= i < |rs| => rs[i].init.period),
                   average.init.period, stdev.init.period, sqrt)
      && Statistic(seq(|rs|, i requires 0 <= i < |rs| => rs[i].run.time), average.run.time, stdev.run.time, sqrt)
      && Statistic(seq(|rs|, i requires 0 <= i < |rs| => rs[i].run.rate), average.run.rate, stdev.run.rate, sqrt)
      && Statistic(seq(|rs|, i requires 0 <= i < |rs| => rs[i].run.period), average.run.period, stdev.run.period, sqrt)
  {
    hide Statistic, Mean, Variance;
    var n := |rs|;
    StatisticOf(rs, InitTime, seq(n, i requires 0 <= i < n => rs[i].init.time),
                Get(average, InitTime), Get(stdev, InitTime), sqrt);
    StatisticOf(rs, InitRate, seq(n, i requires 0 <= i < n => rs[i].init.rate),
                Get(average, InitRate), Get(stdev, InitRate), sqrt);
    StatisticOf(rs, InitPeriod, seq(n, i requires 0 <= i < n => rs[i].init.period),
                Get(average, InitPeriod), Get(stdev, InitPeriod), sqrt);
    StatisticOf(rs, RunTime, seq(n, i requires 0 <= i < n => rs[i].run.time),
                Get(average, RunTime), Get(stdev, RunTime), sqrt);
    StatisticOf(rs, RunRate, seq(n, i requires 0 <= i < n => rs[i].run.rate),
                Get(average, RunRate), Get(stdev, RunRate), sqrt);
    StatisticOf(rs, RunPeriod, seq(n, i requires 0 <= i < n => rs[i].run.period),
                Get(average, RunPeriod), Get(stdev, RunPeriod), sqrt);
  }

  method AccumulateAll(ghost seen: seq<Result>, r: Result, average: Result, moment2: Result, count: nat)
    returns (average': Result, moment2': Result)
    requires count == |seen| + 1 && forall f :: Agrees(seen, average, moment2, f)
    ensures forall f :: Agrees(seen + [r], average', moment2', f)
  {
    hide Square, SquaredDeviations, Mean, Sum;
    var a1, m1 := AccumulateField(seen, r, average, moment2, count, InitTime);
    var a2, m2 := AccumulateField(seen, r, average, moment2, count, InitRate);
    var a3, m3 := AccumulateField(seen, r, average, moment2, count, InitPeriod);
    var a4, m4 := AccumulateField(seen, r, average, moment2, count, RunTime);
    var a5, m5 := AccumulateField(seen, r, average, moment2, count, RunRate);
    var a6, m6 := AccumulateField(seen, r, average, moment2, count, RunPeriod);
    average' := Result(PhaseResult(a1, a2, a3), PhaseResult(a4, a5, a6));
    moment2' := Result(PhaseResult(m1, m2, m3), PhaseResult(m4, m5, m6));
  }
}
