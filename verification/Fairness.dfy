/** Jain's fairness index as computed in 64-bit unsigned arithmetic. */
module Fairness {

  const U64: nat := 0x1_0000_0000_0000_0000

  function Sum(xs: seq<nat>): nat {
    if xs == [] then 0 else Sum(xs[..|xs|-1]) + xs[|xs|-1]
  }

  function Square(x: int): nat {
    SquareNonNegative(x);
    x * x
  }

  lemma SquareNonNegative(x: int)
    ensures x * x >= 0 && (x * x == 0 <==> x == 0)
  {
  }

  function SumSquares(xs: seq<nat>): nat {
    if xs == [] then 0 else SumSquares(xs[..|xs|-1]) + Square(xs[|xs|-1])
  }

  /** The sum of the squared distances from `x`. */
  function Spread(xs: seq<nat>, x: nat): nat {
    if xs == [] then 0 else Spread(xs[..|xs|-1], x) + Square(xs[|xs|-1] - x)
  }

  // ---------- Cauchy-Schwarz ----------

  lemma SquareOfDifference(a: int, b: int)
    ensures Square(a - b) == Square(a) - 2 * (a * b) + Square(b)
  {
  }

  lemma SquareOfSum(a: int, b: int)
    ensures Square(a + b) == Square(a) + 2 * (a * b) + Square(b)
  {
  }

  lemma Distribute(a: int, b: int, c: int)
    ensures (a + b) * c == a * c + b * c
    ensures c * (a + b) == c * a + c * b
  {
  }

  lemma {:induction false} SpreadExpanded(xs: seq<nat>, x: nat)
    ensures Spread(xs, x) == SumSquares(xs) - 2 * (Sum(xs) * x) + |xs| * Square(x)
  {
    if xs != [] {
      hide Square;
      var front, last := xs[..|xs|-1], xs[|xs|-1];
      SpreadExpanded(front, x);
      SquareOfDifference(last, x);
      Distribute(Sum(front), last, x);
      Distribute(|front|, 1, Square(x));
    }
  }

  /** How far the square of the sum stays below its bound. */
  function Gap(xs: seq<nat>): int {
    |xs| * SumSquares(xs) - Square(Sum(xs))
  }

  lemma GapStep(xs: seq<nat>, x: nat)
    ensures Gap(xs + [x]) == Gap(xs) + Spread(xs, x)
  {
    hide Square;
    var n, s, q := |xs|, Sum(xs), SumSquares(xs);
    assert (xs + [x])[..n] == xs;
    SpreadExpanded(xs, x);
    SquareOfSum(s, x);
    Distribute(n, 1, q + Square(x));
    Distribute(q, Square(x), n);
  }

  lemma {:induction false} SpreadZero(xs: seq<nat>, x: nat)
    ensures Spread(xs, x) == 0 <==> forall i :: 0 <= i < |xs| ==> xs[i] == x
  {
    if xs != [] {
      var front, last := xs[..|xs|-1], xs[|xs|-1];
      SpreadZero(front, x);
      SquareNonNegative(last - x);
      assert forall i :: 0 <= i < |front| ==> front[i] == xs[i];
    }
  }

  ghost predicate AllEqual(xs: seq<nat>) {
    forall i, j :: 0 <= i < |xs| && 0 <= j < |xs| ==> xs[i] == xs[j]
  }

  /** The square of the sum is at most the count times the sum of squares, with equality
      exactly for equal numbers. */
  lemma {:induction false} CauchySchwarz(xs: seq<nat>)
    ensures Gap(xs) >= 0
    ensures Gap(xs) == 0 <==> AllEqual(xs)
  {
    if xs == [] {
    } else {
      hide Gap, Spread;
      var front, last := xs[..|xs|-1], xs[|xs|-1];
      CauchySchwarz(front);
      GapStep(front, last);
      assert xs == front + [last];
      SpreadZero(front, last);
      AllEqualStep(front, last);
    }
  }

  lemma AllEqualStep(front: seq<nat>, last: nat)
    ensures AllEqual(front + [last]) <==> forall i :: 0 <= i < |front| ==> front[i] == last
    ensures (forall i :: 0 <= i < |front| ==> front[i] == last) ==> AllEqual(front)
  {
    var xs := front + [last];
    if AllEqual(xs) {
      forall i | 0 <= i < |front|
        ensures front[i] == last
      {
        assert xs[i] == xs[|front|];
      }
    }
  }

  /** The sum of squares is at most the square of the sum. */
  lemma {:induction false} SquaresBelow(xs: seq<nat>)
    ensures SumSquares(xs) <= Square(Sum(xs))
  {
    if xs != [] {
      hide Square;
      var front, last := xs[..|xs|-1], xs[|xs|-1];
      SquaresBelow(front);
      SquareOfSum(Sum(front), last);
    }
  }

  lemma {:induction false} SumSquaresPositive(xs: seq<nat>)
    ensures SumSquares(xs) == 0 <==> forall i :: 0 <= i < |xs| ==> xs[i] == 0
  {
    if xs != [] {
      var front, last := xs[..|xs|-1], xs[|xs|-1];
      SumSquaresPositive(front);
      SquareNonNegative(last);
      assert forall i :: 0 <= i < |front| ==> front[i] == xs[i];
    }
  }

  // ---------- the index ----------

  /** Jain's index of a group with some traffic. */
  function Jain(xs: seq<nat>): real
    requires |xs| * SumSquares(xs) > 0
  {
    Square(Sum(xs)) as real / (|xs| * SumSquares(xs)) as real
  }

  /** The index lies between 1/n and 1, and is 1 exactly for equal shares. */
  lemma JainBounds(xs: seq<nat>)
    requires exists i :: 0 <= i < |xs| && xs[i] != 0
    ensures |xs| * SumSquares(xs) > 0
    ensures 1.0 / |xs| as real <= Jain(xs) <= 1.0
    ensures Jain(xs) == 1.0 <==> AllEqual(xs)
  {
    SumSquaresPositive(xs);
    CauchySchwarz(xs);
    SquaresBelow(xs);
    hide Square;
    Positive(|xs|, SumSquares(xs));
    RatioBounds(Square(Sum(xs)), |xs|, SumSquares(xs), |xs| * SumSquares(xs));
  }

  lemma Positive(a: int, b: int)
    requires a > 0 && b > 0
    ensures a * b > 0
  {
  }

  lemma RatioBounds(s: nat, n: nat, q: nat, p: nat)
    requires n > 0 && q > 0 && p == n * q && q <= s <= p
    ensures p > 0 && 1.0 / n as real <= s as real / p as real <= 1.0
    ensures s as real / p as real == 1.0 <==> s == p
  {
    Positive(n, q);
    InverseShare(n as real, q as real, p as real);
    DivideMonotone(q as real, s as real, p as real);
    DivideMonotone(s as real, p as real, p as real);
    QuotientOne(s as real, p as real);
  }

  lemma InverseShare(n: real, q: real, p: real)
    requires n > 0.0 && q > 0.0 && p == n * q
    ensures p > 0.0 && 1.0 / n == q / p
  {
    var r := q / p;
    assert r * p == q;
    assert r * (n * q) == (r * n) * q;
    assert (r * n - 1.0) * q == 0.0;
  }

  lemma QuotientOne(a: real, b: real)
    requires b > 0.0
    ensures a / b == 1.0 <==> a == b
  {
    var r := a / b;
    assert r * b == a;
  }

  lemma DivideMonotone(a: real, b: real, c: real)
    requires a <= b && c > 0.0
    ensures a / c <= b / c
  {
  }

  // ---------- 64-bit arithmetic ----------

  lemma ModAdd(a: nat, b: nat)
    ensures (a % U64 + b) % U64 == (a + b) % U64
    ensures (a % U64 + b % U64) % U64 == (a + b) % U64
  {
    var p, q := a / U64, b / U64;
    assert a + b == a % U64 + b + U64 * p;
    assert a + b == a % U64 + b % U64 + U64 * (p + q);
  }

  lemma {:induction false} ModMul(n: nat, q: nat)
    ensures (n * (q % U64)) % U64 == (n * q) % U64
  {
    if n > 0 {
      ModMul(n - 1, q);
      Distribute(n - 1, 1, q);
      Distribute(n - 1, 1, q % U64);
      ModAdd((n - 1) * q, q);
      ModAdd((n - 1) * (q % U64), q % U64);
      ModAdd((n - 1) * (q % U64), q);
    }
  }

  lemma ModSquare(s: nat)
    ensures Square(s % U64) % U64 == Square(s) % U64
  {
    ModMul(s % U64, s);
    ModMul(s, s);
    assert (s % U64) * s == s * (s % U64);
  }

  /** Both products of the index are free of wrap-around exactly when the larger one, the
      count times the sum of squares, fits. */
  lemma WrapFreeIff(xs: seq<nat>)
    ensures Square(Sum(xs)) % U64 == Square(Sum(xs)) && (|xs| * SumSquares(xs)) % U64 == |xs| * SumSquares(xs)
       <==> |xs| * SumSquares(xs) < U64
  {
    CauchySchwarz(xs);
    hide Square;
    FitsIff(Square(Sum(xs)));
    FitsIff(|xs| * SumSquares(xs));
  }

  lemma FitsIff(x: nat)
    ensures x % U64 == x <==> x < U64
  {
  }

  /** The largest counter of a link of one gigabit per second over a second, and more. */
  const COUNTER_LIMIT := 214748364

  lemma {:induction false} SumSquaresLimit(xs: seq<nat>)
    requires forall i :: 0 <= i < |xs| ==> xs[i] <= COUNTER_LIMIT
    ensures SumSquares(xs) <= |xs| * Square(COUNTER_LIMIT)
  {
    if xs != [] {
      var front, last := xs[..|xs|-1], xs[|xs|-1];
      assert forall i :: 0 <= i < |front| ==> front[i] == xs[i];
      SumSquaresLimit(front);
      SquareMonotone(last, COUNTER_LIMIT);
      hide Square;
      Distribute(|front|, 1, Square(COUNTER_LIMIT));
    }
  }

  lemma SquareMonotone(a: nat, b: nat)
    requires a <= b
    ensures Square(a) <= Square(b)
  {
    Distribute(a, b - a, a);
    Distribute(a, b - a, b);
  }

  /** Groups of up to twenty counters below the limit never wrap. */
  lemma NoWrapBelowLimit(xs: seq<nat>)
    requires |xs| <= 20 && forall i :: 0 <= i < |xs| ==> xs[i] <= COUNTER_LIMIT
    ensures |xs| * SumSquares(xs) < U64
  {
    SumSquaresLimit(xs);
    var q := Square(COUNTER_LIMIT);
    hide Square;
    ProductMonotone(|xs|, 20, q, q);
    ProductMonotone(|xs|, 20, SumSquares(xs), 20 * q);
    LimitValue();
  }

  lemma LimitValue()
    ensures 20 * (20 * Square(COUNTER_LIMIT)) < U64
  {
  }

  /** The limit is sharp: twenty counters are safe up to it and not beyond. */
  lemma LimitIff(c: nat)
    ensures (forall xs: seq<nat> :: |xs| <= 20 && AtMost(xs, c) ==> |xs| * SumSquares(xs) < U64)
       <==> c <= COUNTER_LIMIT
  {
    hide Square, SumSquares;
    if c <= COUNTER_LIMIT {
      forall xs: seq<nat> | |xs| <= 20 && AtMost(xs, c)
        ensures |xs| * SumSquares(xs) < U64
      {
        NoWrapBelowLimit(xs);
      }
    } else {
      var xs := seq(20, _ => c);
      SumSquaresEqual(xs, c);
      SquareMonotone(COUNTER_LIMIT + 1, c);
      PastLimitValue();
      assert AtMost(xs, c);
    }
  }

  ghost predicate AtMost(xs: seq<nat>, c: nat) {
    forall i :: 0 <= i < |xs| ==> xs[i] <= c
  }

  lemma {:induction false} SumSquaresEqual(xs: seq<nat>, c: nat)
    requires forall i :: 0 <= i < |xs| ==> xs[i] == c
    ensures SumSquares(xs) == |xs| * Square(c)
  {
    if xs != [] {
      hide Square;
      SumSquaresEqual(xs[..|xs|-1], c);
      Distribute(|xs| - 1, 1, Square(c));
    }
  }

  lemma PastLimitValue()
    ensures 20 * (20 * Square(COUNTER_LIMIT + 1)) >= U64
  {
  }

  lemma ProductMonotone(a: nat, b: nat, c: nat, d: nat)
    requires a <= b && c <= d
    ensures a * c <= b * d
  {
    Distribute(a, b - a, c);
    Distribute(c, d - c, b);
    SignProduct(b - a, c);
    SignProduct(b, d - c);
  }

  lemma SignProduct(a: nat, b: nat)
    ensures a * b >= 0
  {
  }

  /** A printed index: a quotient of two machine words, which need not be a number. */
  datatype Index = NotANumber | Infinite | Index(value: real)

  /** The quotient of two machine words in floating point. */
  function Quotient(n: nat, d: nat): Index {
    if d > 0 then Index(n as real / d as real) else if n == 0 then NotANumber else Infinite
  }

  /** The accumulation loop: true sums, up to wrap-around. */
  method Accumulate(bytes: array<nat>) returns (sum: nat, sumSquares: nat)
    ensures sum == Sum(bytes[..]) % U64
    ensures sumSquares == SumSquares(bytes[..]) % U64
  {
    hide Square, SumSquares, Sum, Multiply;
    sumSquares, sum := 0, 0;
    SumsOfNone();
    for i := 0 to bytes.Length
      invariant sum == Sum(bytes[..i]) % U64
      invariant sumSquares == SumSquares(bytes[..i]) % U64
    {
      AddOne(bytes[..i], bytes[i]);
      assert bytes[..i+1] == bytes[..i] + [bytes[i]];
      sum := (sum + bytes[i]) % U64;
      sumSquares := (sumSquares + Multiply(bytes[i], bytes[i])) % U64;
    }
    assert bytes[..bytes.Length] == bytes[..];
  }

  /** What the wrapped products of the wrapped sums are worth. */
  lemma WrappedProducts(xs: seq<nat>)
    ensures Multiply(Sum(xs) % U64, Sum(xs) % U64) == Square(Sum(xs)) % U64
    ensures Multiply(|xs|, SumSquares(xs) % U64) == (|xs| * SumSquares(xs)) % U64
  {
    ModSquare(Sum(xs));
    ModMul(|xs|, SumSquares(xs));
  }

  /** The computation for one group of counters. Without wrap-around it is Jain's index. */
  method GroupFairness(bytes: array<nat>) returns (fairness: Index)
    ensures
      var xs := bytes[..];
      fairness == Printed(xs)
    ensures
      var xs := bytes[..];
      0 < |xs| * SumSquares(xs) < U64 ==> fairness == Index(Jain(xs))
  {
    hide Square, SumSquares, Sum, Multiply;
    var sum, sumSquares := Accumulate(bytes);
    ghost var xs := bytes[..];
    WrappedProducts(xs);
    WrapFreeIff(xs);
    var numerator := Multiply(sum, sum);
    var denominator := Multiply(bytes.Length, sumSquares);
    fairness := Quotient(numerator, denominator);
  }

  // ---------- when the printed index is the index ----------

  /** The printed index of a group: the quotient of the wrapped products. */
  function Printed(xs: seq<nat>): Index {
    Quotient(Square(Sum(xs)) % U64, (|xs| * SumSquares(xs)) % U64)
  }

  /** The printed index of a group with some traffic is right if and only if the divisor did
      not wrap to zero and both products lost words in the proportion of what is left. */
  lemma PrintedIsJainIff(xs: seq<nat>)
    requires |xs| * SumSquares(xs) > 0
    ensures
      var a, b := Square(Sum(xs)), |xs| * SumSquares(xs);
      Printed(xs) == Index(Jain(xs)) <==> InProportion(a, b)
  {
    var a, b := Square(Sum(xs)), |xs| * SumSquares(xs);
    hide Square;
    if b % U64 > 0 {
      SameQuotientIff(a % U64, b % U64, a, b);
      CrossProducts(a / U64, a % U64, b / U64, b % U64);
    }
  }

  lemma SameQuotientIff(a: int, b: int, c: int, d: int)
    requires b > 0 && d > 0
    ensures a as real / b as real == c as real / d as real <==> a * d == c * b
  {
    var p, q := a as real / b as real, c as real / d as real;
    assert p * b as real == a as real && q * d as real == c as real;
    CastProduct(a, d);
    CastProduct(c, b);
    Swap(p, b as real, d as real);
    Swap(q, d as real, b as real);
    CancelFactor(p, q, b as real, d as real);
  }

  lemma CastProduct(a: int, b: int)
    ensures (a * b) as real == a as real * b as real
  {
  }

  lemma Swap(p: real, b: real, d: real)
    ensures (p * b) * d == p * (b * d) == (p * d) * b
  {
  }

  lemma CancelFactor(p: real, q: real, b: real, d: real)
    requires b > 0.0 && d > 0.0
    ensures p * (b * d) == q * (d * b) <==> p == q
  {
    assert b * d > 0.0;
    assert p * (b * d) - q * (d * b) == (p - q) * (b * d);
    if p > q {
      ScaleUp(q, p, b * d);
      assert (p - q) * (b * d) > 0.0;
    } else if q > p {
      assert (q - p) * (b * d) > 0.0;
    }
  }

  /** For quotient and remainder words the cross products agree if those of the words do. */
  lemma CrossProducts(p: nat, a: nat, q: nat, b: nat)
    ensures a * (U64 * q + b) == (U64 * p + a) * b <==> a * q == p * b
  {
    assert a * (U64 * q + b) == U64 * (a * q) + a * b;
    assert (U64 * p + a) * b == U64 * (p * b) + a * b;
  }

  /** Every group of up to twenty counters of at most `c` is printed its index if and only if
      `c` is within the limit. */
  lemma IndexLimitIff(c: nat)
    ensures (forall xs: seq<nat> :: |xs| <= 20 && AtMost(xs, c) && |xs| * SumSquares(xs) > 0
              ==> Printed(xs) == Index(Jain(xs)))
       <==> c <= COUNTER_LIMIT
  {
    hide Square, SumSquares, Sum, Jain, Printed;
    if c <= COUNTER_LIMIT {
      forall xs: seq<nat> | |xs| <= 20 && AtMost(xs, c) && |xs| * SumSquares(xs) > 0
        ensures Printed(xs) == Index(Jain(xs))
      {
        NoWrapBelowLimit(xs);
        PrintedUnwrapped(xs);
      }
    } else {
      var xs := WrongGroup();
      WrongIndex();
      assert AtMost(xs, c);
    }
  }

  lemma PrintedUnwrapped(xs: seq<nat>)
    requires |xs| * SumSquares(xs) < U64
    ensures |xs| * SumSquares(xs) > 0 ==> Printed(xs) == Index(Jain(xs))
    ensures |xs| * SumSquares(xs) == 0 ==> Printed(xs) == NotANumber
  {
    WrapFreeIff(xs);
    NothingReceived(xs);
  }

  /** Nineteen counters just above the limit and one at it. */
  function WrongGroup(): (xs: seq<nat>)
    ensures |xs| == 20 && AtMost(xs, COUNTER_LIMIT + 1)
  {
    seq(19, _ => COUNTER_LIMIT + 1) + [COUNTER_LIMIT]
  }

  /** Their printed index is a number between 0 and 1, and the wrong one. */
  lemma WrongIndex()
    ensures
      var xs := WrongGroup();
      && |xs| * SumSquares(xs) > 0
      && Printed(xs) == Index(25769803785.0 / 25769803804.0)
      && Printed(xs) != Index(Jain(xs))
  {
    hide Sum, SumSquares;
    var front: seq<nat> := seq(19, _ => COUNTER_LIMIT + 1);
    SumEqual(front, COUNTER_LIMIT + 1);
    SumSquaresEqual(front, COUNTER_LIMIT + 1);
    AppendOne(front, COUNTER_LIMIT);
    var xs := WrongGroup();
    PrintedIsJainIff(xs);
    WrongProducts(Sum(xs), |xs| * SumSquares(xs));
  }

  lemma WrongProducts(sum: nat, b: nat)
    requires sum == 19 * (COUNTER_LIMIT + 1) + COUNTER_LIMIT
    requires b == 20 * (19 * Square(COUNTER_LIMIT + 1) + Square(COUNTER_LIMIT))
    ensures Square(sum) % U64 == 25769803785 && b % U64 == 25769803804
    ensures Square(sum) / U64 == 1 && b / U64 == 1
  {
    assert Square(sum) == U64 + 25769803785;
    assert b == U64 + 25769803804;
  }

  /** Equal counters are printed the right index, wrap-around or not, unless the divisor wraps
      to zero. */
  lemma EqualCounters(xs: seq<nat>)
    requires AllEqual(xs) && |xs| * SumSquares(xs) > 0
    ensures Jain(xs) == 1.0
    ensures Printed(xs) == if (|xs| * SumSquares(xs)) % U64 == 0 then NotANumber else Index(1.0)
  {
    CauchySchwarz(xs);
    hide Square, SumSquares, Sum, AllEqual;
    var b := |xs| * SumSquares(xs);
    assert Square(Sum(xs)) == b;
    QuotientOne(b as real, b as real);
    if b % U64 > 0 {
      QuotientOne((b % U64) as real, (b % U64) as real);
    }
  }

  /** Wrap-around alone can make the divisor zero: seven counters of 2^30, one of three times
      that and two of zero have an index of 0.625, and infinity is printed. */
  lemma InfiniteIndex()
    ensures
      var q: nat := 0x4000_0000;
      var xs := [q, q, q, q, q, q, q, 3 * q, 0, 0];
      && |xs| * SumSquares(xs) > 0 && Jain(xs) == 0.625
      && Printed(xs) == Infinite
  {
    var q: nat := 0x4000_0000;
    var xs := [q, q, q, q, q, q, q];
    SumSquaresEqual(xs, q);
    SumEqual(xs, q);
    var ys := xs + [3 * q];
    hide Sum, SumSquares;
    AppendOne(xs, 3 * q);
    AppendOne(ys, 0);
    AppendOne(ys + [0], 0);
    assert ys + [0] + [0] == [q, q, q, q, q, q, q, 3 * q, 0, 0];
  }

  lemma AppendOne(xs: seq<nat>, x: nat)
    ensures Sum(xs + [x]) == Sum(xs) + x && SumSquares(xs + [x]) == SumSquares(xs) + Square(x)
  {
    assert (xs + [x])[..|xs|] == xs;
  }

  lemma {:induction false} SumEqual(xs: seq<nat>, c: nat)
    requires forall i :: 0 <= i < |xs| ==> xs[i] == c
    ensures Sum(xs) == |xs| * c
  {
    if xs != [] {
      SumEqual(xs[..|xs|-1], c);
      Distribute(|xs| - 1, 1, c);
    }
  }

  function Multiply(a: nat, b: nat): nat {
    a * b % U64
  }

  lemma SumsOfNone()
    ensures Sum([]) == 0 && SumSquares([]) == 0
  {
  }

  lemma AddOne(xs: seq<nat>, x: nat)
    ensures Sum(xs + [x]) % U64 == (Sum(xs) % U64 + x) % U64
    ensures SumSquares(xs + [x]) % U64 == (SumSquares(xs) % U64 + Multiply(x, x)) % U64
  {
    assert (xs + [x])[..|xs|] == xs;
    ModAdd(Sum(xs), x);
    ModAdd(SumSquares(xs), Square(x));
  }

  /** The byte counters of the three flow groups, updated by the trace callbacks. */
  class Counters {
    const rxS1R1Bytes: array<nat>
    const rxS2R2Bytes: array<nat>
    const rxS3R1Bytes: array<nat>

    ghost predicate Valid() {
      && rxS1R1Bytes.Length == 10 && rxS2R2Bytes.Length == 20 && rxS3R1Bytes.Length == 10
      && rxS1R1Bytes != rxS2R2Bytes && rxS1R1Bytes != rxS3R1Bytes && rxS2R2Bytes != rxS3R1Bytes
    }

    constructor ()
      ensures Valid() && fresh(rxS1R1Bytes) && fresh(rxS2R2Bytes) && fresh(rxS3R1Bytes)
    {
      rxS1R1Bytes := new nat[10];
      rxS2R2Bytes := new nat[20];
      rxS3R1Bytes := new nat[10];
    }

    method InitializeCounters()
      requires Valid()
      modifies rxS1R1Bytes, rxS2R2Bytes, rxS3R1Bytes
      ensures forall k :: 0 <= k < 10 ==> rxS1R1Bytes[k] == 0 && rxS3R1Bytes[k] == 0
      ensures forall k :: 0 <= k < 20 ==> rxS2R2Bytes[k] == 0
      ensures Sum(rxS1R1Bytes[..]) == Sum(rxS2R2Bytes[..]) == Sum(rxS3R1Bytes[..]) == 0
    {
      Clear(rxS1R1Bytes);
      Clear(rxS2R2Bytes);
      Clear(rxS3R1Bytes);
    }

    static method Clear(bytes: array<nat>)
      modifies bytes
      ensures forall k :: 0 <= k < bytes.Length ==> bytes[k] == 0
      ensures Sum(bytes[..]) == 0
    {
      for i := 0 to bytes.Length
        invariant forall k :: 0 <= k < i ==> bytes[k] == 0
      {
        bytes[i] := 0;
      }
      SumOfZeros(bytes[..]);
    }

    /** A packet arrives at one sink: its counter grows by the size, and so does the total
        of the group, as long as the counter has room. */
    static method TraceSink(bytes: array<nat>, index: nat, size: nat)
      requires index < bytes.Length
      modifies bytes
      ensures bytes[..] == old(bytes[..])[index := (old(bytes[index]) + size) % U64]
      ensures old(bytes[index]) + size < U64 ==> Sum(bytes[..]) == old(Sum(bytes[..])) + size
    {
      if bytes[index] + size < U64 {
        SumUpdate(bytes[..], index, bytes[index] + size);
      }
      bytes[index] := (bytes[index] + size) % U64;
    }

    /** The three printed indices, wrap-around or not. Where the divisor did not wrap to zero
        and the words lost are in proportion, as without wrap-around, it is Jain's index. */
    method PrintFairness() returns (f1: Index, f2: Index, f3: Index)
      requires Valid()
      ensures f1 == Printed(rxS1R1Bytes[..]) && f2 == Printed(rxS2R2Bytes[..]) && f3 == Printed(rxS3R1Bytes[..])
      ensures Faithful(rxS1R1Bytes[..], f1) && Faithful(rxS2R2Bytes[..], f2) && Faithful(rxS3R1Bytes[..], f3)
    {
      hide Faithful, Printed;
      f1 := GroupIndex(rxS1R1Bytes);
      f2 := GroupIndex(rxS2R2Bytes);
      f3 := GroupIndex(rxS3R1Bytes);
    }
  }

  /** Both products lost words in the proportion of what is left of them. */
  predicate InProportion(a: nat, b: nat) {
    b % U64 > 0 && (a % U64) * (b / U64) == (a / U64) * (b % U64)
  }

  /** The index `f` is right exactly where it can be, and that is wherever nothing wraps: not a
      number exactly when nothing was received, and otherwise Jain's index, within its bounds
      and 1 exactly for equal counters. */
  ghost predicate Faithful(xs: seq<nat>, f: Index) {
    var a, b := Square(Sum(xs)), |xs| * SumSquares(xs);
    if forall i :: 0 <= i < |xs| ==> xs[i] == 0 then f == NotANumber
    else
      && b > 0
      && (f == Index(Jain(xs)) <==> InProportion(a, b))
      && (b < U64 ==> InProportion(a, b))
      && (InProportion(a, b) ==> f.Index? && InBounds(xs, f.value))
  }

  /** Between 1/n and 1, which is reached exactly by equal counters. */
  ghost predicate InBounds(xs: seq<nat>, v: real) {
    1.0 <= v * |xs| as real && v <= 1.0 && (v == 1.0 <==> AllEqual(xs))
  }

  method GroupIndex(bytes: array<nat>) returns (f: Index)
    ensures f == Printed(bytes[..]) && Faithful(bytes[..], f)
  {
    hide Faithful, Printed;
    f := GroupFairness(bytes);
    PrintedFaithful(bytes[..]);
  }

  lemma PrintedFaithful(xs: seq<nat>)
    ensures Faithful(xs, Printed(xs))
  {
    hide Square, SumSquares, Sum, Jain, Printed, AllEqual;
    SumSquaresPositive(xs);
    var a, b := Square(Sum(xs)), |xs| * SumSquares(xs);
    if i :| 0 <= i < |xs| && xs[i] != 0 {
      JainBounds(xs);
      ShareBound(|xs| as real, Jain(xs));
      PrintedIsJainIff(xs);
      if b < U64 {
        PrintedUnwrapped(xs);
      }
    } else {
      assert b == 0;
      PrintedUnwrapped(xs);
    }
  }

  lemma NothingReceived(xs: seq<nat>)
    ensures |xs| * SumSquares(xs) == 0 ==> Square(Sum(xs)) == 0
  {
    hide Square;
    CauchySchwarz(xs);
  }

  lemma ShareBound(n: real, v: real)
    requires n > 0.0 && 1.0 / n <= v
    ensures 1.0 <= v * n
  {
    var r := 1.0 / n;
    assert r * n == 1.0;
    ScaleUp(r, v, n);
  }

  lemma ScaleUp(a: real, b: real, c: real)
    requires a <= b && c > 0.0
    ensures a * c <= b * c
  {
  }

  lemma {:induction false} SumOfZeros(xs: seq<nat>)
    requires forall k :: 0 <= k < |xs| ==> xs[k] == 0
    ensures Sum(xs) == 0
  {
    if xs != [] {
      SumOfZeros(xs[..|xs|-1]);
    }
  }

  lemma {:induction false} SumUpdate(xs: seq<nat>, k: nat, x: nat)
    requires k < |xs|
    ensures Sum(xs[k := x]) == Sum(xs) - xs[k] + x
  {
    var n := |xs| - 1;
    if k == n {
      assert xs[k := x][..n] == xs[..n];
    } else {
      assert xs[k := x][..n] == xs[..n][k := x];
      SumUpdate(xs[..n], k, x);
    }
  }
}
