/** The tick marks of the axis, whose bounds may lie between integers. */
module Scale {

  function Power10(k: nat): (r: nat)
    ensures r >= 1
  {
    if k == 0 then 1 else 10 * Power10(k - 1)
  }

  /** Whether `x` is a multiple of `d`; `%` never yields a negative remainder for `d > 0`,
      in Python as here. */
  predicate Multiple(x: int, d: int)
    requires d > 0
  {
    x % d == 0
  }

  /** `StepZero` is the error of stepping through a range by zero. */
  datatype Ticks = StepZero | Ticks(at: seq<int>)

  ghost predicate Ascending(at: seq<int>) {
    forall i, j :: 0 <= i < j < |at| ==> at[i] < at[j]
  }

  lemma IndexOrder(at: seq<int>, i: nat, j: nat)
    requires Ascending(at) && i < |at| && j < |at|
    ensures i <= j <==> at[i] <= at[j]
    ensures i < j <==> at[i] < at[j]
  {
  }

  lemma LastIsLargest(at: seq<int>, x: int)
    requires Ascending(at) && x in at
    ensures x <= at[|at|-1]
  {
  }

  /** The ticks are the multiples of `d` above `lo` and up to `hi`, each once, ascending. */
  ghost predicate AreTicks(at: seq<int>, lo: real, hi: real, d: int)
    requires d > 0
  {
    && Ascending(at)
    && (forall i :: 0 <= i < |at| ==> lo < at[i] as real <= hi && Multiple(at[i], d))
    && (forall x: int :: lo < x as real <= hi && Multiple(x, d) ==> x in at)
  }

  lemma Times(d: int, k: int)
    requires d > 0
    ensures k >= 1 ==> d * k >= d
    ensures k <= 0 ==> d * k <= 0
    ensures k <= -1 ==> d * k <= -d
  {
  }

  lemma Difference(d: int, p: int, q: int)
    ensures d * (p - q) == d * p - d * q
  {
  }

  lemma Division(x: int, d: int)
    requires d > 0
    ensures x == d * (x / d) + x % d && 0 <= x % d < d
  {
  }

  lemma MultipleOf(q: int, d: int)
    requires d > 0
    ensures Multiple(d * q, d)
  {
    var x := d * q;
    Division(x, d);
    Difference(d, q, x / d);
    Times(d, q - x / d);
  }

  lemma Remainder(x: int, d: int)
    requires d > 0
    ensures Multiple(x - x % d, d) && 0 <= x % d < d
  {
    Division(x, d);
    MultipleOf(x / d, d);
  }

  /** Multiples are at least `d` apart. */
  lemma MultipleGap(x: int, y: int, d: int)
    requires d > 0 && Multiple(x, d) && Multiple(y, d) && x < y
    ensures y >= x + d
  {
    Division(x, d);
    Division(y, d);
    Difference(d, y / d, x / d);
    Times(d, y / d - x / d);
  }

  lemma MultipleAdd(x: int, d: int)
    requires d > 0 && Multiple(x, d)
    ensures Multiple(x + d, d)
  {
    Division(x, d);
    Difference(d, x / d, -1);
    MultipleOf(x / d + 1, d);
  }

  /** Python's `%` on floats: the remainder has the sign of the divisor. */
  function Mod(x: real, d: real): real
    requires d > 0.0
  {
    x - d * (x / d).Floor as real
  }

  /** Python's `int` of a float. */
  function Truncate(x: real): int {
    if x >= 0.0 then x.Floor else -((-x).Floor)
  }

  lemma ScaleUp(a: real, b: real, c: real)
    requires c > 0.0
    ensures a <= b ==> a * c <= b * c
    ensures a < b ==> a * c < b * c
  {
  }

  lemma CastProduct(a: int, b: int)
    ensures (a * b) as real == a as real * b as real
  {
  }

  /** Taking off the remainder gives the largest multiple that is not above `x`. */
  lemma FloorMultiple(x: real, d: int) returns (m: int)
    requires d > 0
    ensures Multiple(m, d) && x - Mod(x, d as real) == m as real
    ensures m as real <= x < (m + d) as real
    ensures Truncate(m as real) == m
  {
    var q := (x / d as real).Floor;
    m := d * q;
    MultipleOf(q, d);
    CastProduct(d, q);
    FloorBounds(x, d as real);
    assert (m + d) as real == m as real + d as real;
    Integral(m);
  }

  lemma FloorBounds(x: real, d: real)
    requires d > 0.0
    ensures d * (x / d).Floor as real <= x < d * (x / d).Floor as real + d
  {
    var y := x / d;
    var q := y.Floor as real;
    assert y * d == x;
    ScaleUp(q, y, d);
    ScaleUp(y, q + 1.0, d);
    OneMore(q, d);
  }

  lemma OneMore(q: real, d: real)
    ensures (q + 1.0) * d == d * q + d && q * d == d * q
  {
  }

  /** The step of the scale: the largest power of ten below the extent (or one). */
  ghost predicate IsStep(delta: nat, extent: real) {
    && (exists k: nat :: delta == Power10(k))
    && extent <= (10 * delta) as real
    && (delta == 1 || delta as real < extent)
  }

  lemma {:induction false} PowersApart(j: nat, k: nat)
    requires j < k
    ensures 10 * Power10(j) <= Power10(k)
  {
    if j + 1 < k {
      PowersApart(j, k - 1);
    }
  }

  /** An extent has only one step. */
  lemma StepUnique(d: nat, e: nat, extent: real)
    requires IsStep(d, extent) && IsStep(e, extent)
    ensures d == e
  {
    var j: nat :| d == Power10(j);
    var k: nat :| e == Power10(k);
    if j < k {
      PowersApart(j, k);
    } else if k < j {
      PowersApart(k, j);
    }
  }

  /** The step is one exactly for an extent of at most ten, and else a multiple of ten. */
  lemma StepIsOneIff(d: nat, extent: real)
    requires IsStep(d, extent)
    ensures d >= 1
    ensures d == 1 <==> extent <= 10.0
    ensures d != 1 ==> d % 10 == 0 && d >= 10
  {
    var k: nat :| d == Power10(k);
  }

  /** What drawing the axis comes to: it may fail before any tick is drawn, or between the
      ticks and the smaller marks. */
  datatype Drawing = FailedAtTicks | FailedAtMarks(ticks: seq<int>) | Drawn(ticks: seq<int>, marks: seq<int>)

  /** The drawing of an axis from `lo` to `hi`, whose step is `d`. */
  ghost predicate DrawsWith(lo: real, hi: real, d: nat, r: Drawing) {
    && IsStep(d, hi - lo) && d > 0
    && match r
       case FailedAtTicks => hi - lo == 1.0
       case FailedAtMarks(ticks) => hi - lo <= 10.0 && hi - lo != 1.0 && AreTicks(ticks, lo, hi, 1)
       case Drawn(ticks, marks) =>
         && hi - lo > 10.0 && d >= 10 && d % 10 == 0
         && AreTicks(ticks, lo, hi, d) && AreTicks(marks, lo, hi, d / 10)
  }

  ghost predicate Draws(lo: real, hi: real, r: Drawing) {
    exists d: nat :: DrawsWith(lo, hi, d, r)
  }

  class ScaleRenderer {
    var lo: real
    var hi: real
    /** The distance of the ticks. */
    var delta: real

    constructor (lo: real, hi: real)
      ensures this.lo == lo && this.hi == hi
    {
      this.lo, this.hi := lo, hi;
      delta := 1.0;
    }

    method SetBounds(lo: real, hi: real)
      modifies this`lo, this`hi
      ensures this.lo == lo && this.hi == hi
    {
      this.lo, this.hi := lo, hi;
    }

    /** Choose the distance of the ticks: the step, but a tenth for an extent of one. */
    method Layout() returns (ghost step: nat)
      modifies this`delta
      ensures IsStep(step, hi - lo) && step > 0
      ensures delta == if hi - lo == 1.0 then 0.1 else step as real
    {
      var dataDelta := hi - lo;
      var closest: nat := 1;
      ghost var k: nat := 0;
      assert closest == Power10(k);
      while (closest * 10) as real < dataDelta
        invariant closest >= 1 && closest == Power10(k)
        invariant closest == 1 || closest as real < dataDelta
        decreases dataDelta.Floor - closest
      {
        closest := closest * 10;
        k := k + 1;
      }
      QuotientIs(dataDelta, closest as real);
      if dataDelta / closest as real == 0.0 {
        delta := closest as real;
      } else if dataDelta / closest as real == 1.0 {
        delta := closest as real / 10.0;
      } else {
        delta := closest as real;
      }
      step := closest;
    }

    /** The first multiple above the lower bound, and the first one above the upper bound. */
    static lemma LoopBounds(lo: real, hi: real, d: int)
      requires d > 0
      ensures
        var first, stop := Truncate(lo - Mod(lo, d as real) + d as real), Truncate(hi - Mod(hi, d as real) + d as real);
        && Multiple(first, d) && Multiple(stop, d)
        && lo < first as real && (stop - d) as real <= hi < stop as real
        && forall y: int :: lo < y as real && y < first ==> !Multiple(y, d)
    {
      var below := FloorMultiple(lo, d);
      var last := FloorMultiple(hi, d);
      hide Mod, Multiple;
      MultipleAdd(below, d);
      MultipleAdd(last, d);
      NothingBetween(below, d);
      assert (below + d) as real == below as real + d as real;
      assert (last + d) as real == last as real + d as real;
      Integral(below + d);
      Integral(last + d);
      hide Truncate;
    }

    /** A drawing loop: one mark at every multiple of the distance within the bounds. It fails
        exactly if the distance, truncated to an integer, is zero. */
    method StepThroughBounds(delta: real) returns (t: Ticks)
      requires delta > 0.0 && (delta < 1.0 || delta == delta.Floor as real)
      ensures t.StepZero? <==> delta < 1.0
      ensures t.Ticks? ==> AreTicks(t.at, lo, hi, delta.Floor)
    {
      var start := lo - Mod(lo, delta) + delta;
      var end := hi - Mod(hi, delta);
      var step := Truncate(delta);
      if step == 0 {
        return StepZero;
      }
      assert delta == step as real;
      LoopBounds(lo, hi, step);
      hide Mod, Truncate, Multiple, AreTicks;
      var at := StepThrough(Truncate(start), Truncate(end + delta), step, lo, hi);
      t := Ticks(at);
    }

    /** Draw the ticks and then the smaller marks at a tenth of their distance. */
    method Draw(ghost step: nat) returns (r: Drawing)
      requires IsStep(step, hi - lo) && step > 0
      requires delta == if hi - lo == 1.0 then 0.1 else step as real
      ensures DrawsWith(lo, hi, step, r)
    {
      Distances(step, hi - lo, delta);
      hide AreTicks, IsStep;
      var ticks := StepThroughBounds(delta);
      if ticks.StepZero? {
        return FailedAtTicks;
      }
      var marks := StepThroughBounds(delta / 10.0);
      r := if marks.StepZero? then FailedAtMarks(ticks.at) else Drawn(ticks.at, marks.at);
    }

    /** The axis of a range. Drawing succeeds exactly for an extent above ten; then there are
        one to ten ticks and ten to a hundred smaller marks, the ticks among them. */
    method DrawAxis(lo: real, hi: real) returns (r: Drawing)
      modifies this
      ensures Draws(lo, hi, r)
      ensures r.Drawn? <==> hi - lo > 10.0
      ensures r.FailedAtTicks? <==> hi - lo == 1.0
      ensures r.FailedAtMarks? ==> |r.ticks| <= 10 && (hi - lo > 1.0 ==> |r.ticks| >= 1) && (hi <= lo ==> r.ticks == [])
      ensures r.Drawn? ==> 1 <= |r.ticks| <= 10 && 10 <= |r.marks| <= 100
      ensures r.Drawn? ==> forall x :: x in r.ticks ==> x in r.marks
    {
      SetBounds(lo, hi);
      ghost var step := Layout();
      r := Draw(step);
      CountMarks(lo, hi, step, r);
    }
  }

  lemma QuotientIs(a: real, b: real)
    requires b > 0.0
    ensures a / b == 0.0 <==> a == 0.0
    ensures a / b == 1.0 <==> a == b
  {
    var q := a / b;
    assert q * b == a;
  }

  lemma Integral(m: int)
    ensures Truncate(m as real) == m
  {
  }

  /** The distance of the ticks is below one exactly for an extent of one, that of the smaller
      marks exactly for an extent of at most ten; otherwise they are whole numbers. */
  lemma Distances(step: nat, extent: real, delta: real)
    requires IsStep(step, extent) && delta == if extent == 1.0 then 0.1 else step as real
    ensures delta > 0.0 && (delta < 1.0 <==> extent == 1.0)
    ensures delta >= 1.0 ==> delta.Floor == step && delta == step as real
    ensures extent <= 10.0 ==> 0.0 < delta / 10.0 < 1.0 && step == 1
    ensures extent > 10.0 ==> step % 10 == 0 && step >= 10
    ensures extent > 10.0 ==> delta / 10.0 == (step / 10) as real && (delta / 10.0).Floor == step / 10
  {
    StepIsOneIff(step, extent);
    if extent > 10.0 {
      var k := step / 10;
      assert step == 10 * k;
      assert step as real == 10.0 * k as real;
    }
  }

  /** Python's `range(start, stop, step)`, walked by the drawing loops. */
  method StepThrough(start: int, stop: int, step: int, ghost lo: real, ghost hi: real) returns (at: seq<int>)
    requires step > 0 && Multiple(start, step) && Multiple(stop, step)
    requires lo < start as real && (stop - step) as real <= hi < stop as real
    requires forall y: int :: lo < y as real && y < start ==> !Multiple(y, step)
    ensures AreTicks(at, lo, hi, step)
  {
    hide Multiple;
    at := [];
    var x := start;
    while x < stop
      invariant Multiple(x, step) && x >= start
      invariant Ascending(at)
      invariant forall i :: 0 <= i < |at| ==> lo < at[i] as real <= hi && at[i] < x && Multiple(at[i], step)
      invariant forall y: int :: lo < y as real && y < x && Multiple(y, step) ==> y in at
      decreases stop - x
    {
      MultipleGap(x, stop, step);
      NothingBetween(x, step);
      MultipleAdd(x, step);
      at := at + [x];
      x := x + step;
    }
  }

  /** Between a multiple and the next one there is no other. */
  lemma NothingBetween(x: int, d: int)
    requires d > 0 && Multiple(x, d)
    ensures forall y :: x < y < x + d ==> !Multiple(y, d)
  {
    forall y | x < y && Multiple(y, d)
      ensures y >= x + d
    {
      MultipleGap(x, y, d);
    }
  }

  // ---------- how many marks ----------

  /** The first multiple above `lo` is at most a step away. */
  lemma FirstTick(lo: real, hi: real, d: int, at: seq<int>)
    requires d > 0 && AreTicks(at, lo, hi, d) && hi - lo >= d as real
    ensures |at| >= 1 && at[0] as real <= lo + d as real
  {
    var m := FloorMultiple(lo, d);
    MultipleAdd(m, d);
    assert m + d in at;
    var k :| 0 <= k < |at| && at[k] == m + d;
    assert k > 0 ==> at[0] < at[k];
  }

  /** The ticks are evenly spaced. */
  lemma {:induction false} TicksSpaced(at: seq<int>, lo: real, hi: real, d: int, i: nat)
    requires d > 0 && AreTicks(at, lo, hi, d) && i < |at|
    ensures at[i] == at[0] + d * i
  {
    if i > 0 {
      TicksSpaced(at, lo, hi, d, i - 1);
      NextTick(at, lo, hi, d, i - 1);
      Difference(d, i, 1);
    }
  }

  lemma NextTick(at: seq<int>, lo: real, hi: real, d: int, i: nat)
    requires d > 0 && AreTicks(at, lo, hi, d) && i + 1 < |at|
    ensures at[i + 1] == at[i] + d
  {
    hide Multiple;
    MultipleGap(at[i], at[i + 1], d);
    MultipleAdd(at[i], d);
    assert at[i] + d in at;
    var j :| 0 <= j < |at| && at[j] == at[i] + d;
    IndexOrder(at, i, j);
    IndexOrder(at, j, i + 1);
  }

  /** An extent of at most `m` steps has at most `m` ticks, and one of at least `k` steps at
      least `k`. */
  lemma TickCount(at: seq<int>, lo: real, hi: real, d: int, k: nat, m: nat)
    requires d > 0 && AreTicks(at, lo, hi, d)
    requires (d * k) as real <= hi - lo <= (d * m) as real
    ensures k <= |at| <= m
  {
    var n := |at|;
    if n > 0 {
      TicksSpaced(at, lo, hi, d, n - 1);
      Difference(d, n, 1);
      assert (d * (n - 1)) as real < (d * m) as real;
      Factor(d, n - 1, m);
    }
    if k > 0 {
      Factor(d, 0, k);
      Times(d, k);
      FirstTick(lo, hi, d, at);
      MultipleAdd(at[n - 1], d);
      NotAbove(at, at[n - 1] + d);
      assert (at[n - 1] + d) as real > hi;
      Difference(d, n, -1);
      assert (d * (n + 1)) as real > (d * k) as real;
      Factor(d, k, n + 1);
    }
  }

  lemma NotAbove(at: seq<int>, x: int)
    requires Ascending(at) && at != [] && x > at[|at|-1]
    ensures x !in at
  {
  }

  lemma Factor(d: int, a: int, b: int)
    requires d > 0
    ensures d * a < d * b <==> a < b
  {
    Difference(d, b, a);
    Times(d, b - a);
  }

  lemma CountMarks(lo: real, hi: real, d: nat, r: Drawing)
    requires DrawsWith(lo, hi, d, r)
    ensures r.FailedAtMarks? ==> |r.ticks| <= 10 && (hi - lo > 1.0 ==> |r.ticks| >= 1) && (hi <= lo ==> r.ticks == [])
    ensures r.Drawn? ==> 1 <= |r.ticks| <= 10 && 10 <= |r.marks| <= 100
    ensures r.Drawn? ==> forall x :: x in r.ticks ==> x in r.marks
  {
    hide AreTicks;
    match r
    case FailedAtTicks =>
    case FailedAtMarks(ticks) =>
      if hi <= lo {
        NoTicks(ticks, lo, hi, 1);
      } else {
        TickCount(ticks, lo, hi, 1, if hi - lo > 1.0 then 1 else 0, 10);
      }
    case Drawn(ticks, marks) =>
      TickCount(ticks, lo, hi, d, 1, 10);
      TickCount(marks, lo, hi, d / 10, 10, 100);
      forall x | x in ticks
        ensures x in marks
      {
        TickIsMark(ticks, marks, lo, hi, d, x);
      }
  }

  lemma NoTicks(at: seq<int>, lo: real, hi: real, d: int)
    requires d > 0 && AreTicks(at, lo, hi, d)
    ensures at != [] ==> lo < hi
  {
    if at != [] {
      assert lo < at[0] as real <= hi;
    }
  }

  lemma TickIsMark(ticks: seq<int>, marks: seq<int>, lo: real, hi: real, d: nat, x: int)
    requires d >= 10 && d % 10 == 0 && AreTicks(ticks, lo, hi, d) && AreTicks(marks, lo, hi, d / 10)
    requires x in ticks
    ensures x in marks
  {
    hide Multiple;
    var e, q := d / 10, x / d;
    assert Multiple(x, d);
    MultipleIs(x, d);
    assert d == 10 * e;
    Regroup(e, q);
    assert x == e * (10 * q);
    MultipleOf(10 * q, e);
  }

  lemma MultipleIs(x: int, d: int)
    requires d > 0 && Multiple(x, d)
    ensures x == d * (x / d)
  {
    Division(x, d);
  }

  lemma Regroup(e: int, q: int)
    ensures (10 * e) * q == e * (10 * q)
  {
  }

  // ---------- the drawing is determined ----------

  /** Ascending lists of the same numbers are equal. */
  lemma {:induction false} SameTicks(a: seq<int>, b: seq<int>)
    requires Ascending(a) && Ascending(b)
    requires forall x :: x in a <==> x in b
    ensures a == b
  {
    if a == [] || b == [] {
      NoMembers(a, b);
    } else {
      var m, n := |a| - 1, |b| - 1;
      LastIsLargest(b, a[m]);
      LastIsLargest(a, b[n]);
      assert a == a[..m] + [a[m]] && b == b[..n] + [b[n]];
      FrontMembers(a[..m], b[..n], a[m]);
      SameTicks(a[..m], b[..n]);
    }
  }

  lemma NoMembers(a: seq<int>, b: seq<int>)
    requires forall x :: x in a <==> x in b
    ensures a == [] <==> b == []
  {
    if a != [] {
      var x := a[0];
      assert x in a;
      assert x in b;
    }
    if b != [] {
      var x := b[0];
      assert x in b;
      assert x in a;
    }
  }

  lemma FrontMembers(a: seq<int>, b: seq<int>, m: int)
    requires Ascending(a + [m]) && Ascending(b + [m])
    requires forall x :: x in a + [m] <==> x in b + [m]
    ensures forall x :: x in a <==> x in b
  {
    forall x
      ensures x in a <==> x in a + [m] && x != m
      ensures x in b <==> x in b + [m] && x != m
    {
      NotLast(a, m);
      NotLast(b, m);
    }
  }

  lemma NotLast(a: seq<int>, m: int)
    requires Ascending(a + [m])
    ensures m !in a
  {
    assert forall i :: 0 <= i < |a| ==> a[i] == (a + [m])[i] < (a + [m])[|a|];
  }

  lemma TicksUnique(a: seq<int>, b: seq<int>, lo: real, hi: real, d: int)
    requires d > 0 && AreTicks(a, lo, hi, d) && AreTicks(b, lo, hi, d)
    ensures a == b
  {
    hide Multiple;
    SameTicks(a, b);
  }

  /** The bounds determine the drawing, and whether it fails. */
  lemma DrawingUnique(lo: real, hi: real, a: Drawing, b: Drawing)
    requires Draws(lo, hi, a) && Draws(lo, hi, b)
    ensures a == b
  {
    hide AreTicks, IsStep;
    var d: nat :| DrawsWith(lo, hi, d, a);
    var e: nat :| DrawsWith(lo, hi, e, b);
    StepUnique(d, e, hi - lo);
    match a
    case FailedAtTicks =>
    case FailedAtMarks(ticks) => TicksUnique(ticks, b.ticks, lo, hi, 1);
    case Drawn(ticks, marks) =>
      TicksUnique(ticks, b.ticks, lo, hi, d);
      TicksUnique(marks, b.marks, lo, hi, d / 10);
  }

  /** From 0 to 5 the ticks are drawn, and then the program fails. */
  lemma ShortAxisFails(r: Drawing)
    ensures Draws(0.0, 5.0, r) <==> r == FailedAtMarks([1, 2, 3, 4, 5])
  {
    var f := FailedAtMarks([1, 2, 3, 4, 5]);
    assert Power10(0) == 1;
    assert IsStep(1, 5.0);
    FiveTicks();
    assert DrawsWith(0.0, 5.0, 1, f);
    if Draws(0.0, 5.0, r) {
      DrawingUnique(0.0, 5.0, r, f);
    }
  }

  lemma FiveTicks()
    ensures AreTicks([1, 2, 3, 4, 5], 0.0, 5.0, 1)
  {
    forall x: int | 0.0 < x as real <= 5.0
      ensures x in [1, 2, 3, 4, 5]
    {
      assert 0 < x <= 5;
    }
  }

  // ---------- where they are drawn ----------

  /** Where a tick is drawn: inside the axis, in the order of the values. */
  function Position(x: int, lo: real, hi: real, width: real): real
    requires hi > lo
  {
    (x as real - lo) * width / (hi - lo)
  }

  /** Positions are proportional to the distance from the lower bound, so they keep the order of
      the values and reach the width at the upper bound. */
  lemma PositionsProportional(x: int, y: int, lo: real, hi: real, width: real)
    requires hi > lo && width > 0.0
    ensures Position(x, lo, hi, width) * (hi - lo) == (x as real - lo) * width
    ensures x < y <==> Position(x, lo, hi, width) < Position(y, lo, hi, width)
    ensures x as real == hi ==> Position(x, lo, hi, width) == width
  {
    var n := hi - lo;
    var p, q := Position(x, lo, hi, width), Position(y, lo, hi, width);
    var a, b := x as real - lo, y as real - lo;
    assert p * n == a * width && q * n == b * width;
    if x < y {
      ScaleUp(a, b, width);
      SameOrder(p, q, n);
    } else {
      ScaleUp(b, a, width);
      SameOrder(q, p, n);
    }
    if x as real == hi {
      SameOrder(p, width, n);
      SameOrder(width, p, n);
    }
  }

  lemma SameOrder(p: real, q: real, n: real)
    requires n > 0.0
    ensures p * n < q * n ==> p < q
    ensures p * n <= q * n ==> p <= q
  {
    if p >= q {
      ScaleUp(q, p, n);
    }
  }

  lemma PositionsInside(at: seq<int>, lo: real, hi: real, d: int, width: real, i: nat)
    requires hi > lo && d > 0 && width > 0.0 && AreTicks(at, lo, hi, d) && i < |at|
    ensures 0.0 < Position(at[i], lo, hi, width) <= width
  {
    var a, n := at[i] as real - lo, hi - lo;
    assert 0.0 < a <= n;
    ScaleBounds(a, n, width);
  }

  lemma ScaleBounds(a: real, n: real, width: real)
    requires 0.0 < a <= n && width > 0.0
    ensures 0.0 < a * width / n <= width
  {
    var q := a * width / n;
    assert q * n == a * width;
    Positive(a, width);
    Positive(1.0 / n, a * width);
    assert q == (1.0 / n) * (a * width);
    assert a / n <= 1.0;
    assert q == (a / n) * width;
    Shrink(a / n, width);
  }

  lemma Positive(a: real, b: real)
    requires a > 0.0 && b > 0.0
    ensures a * b > 0.0
  {
  }

  lemma Shrink(a: real, b: real)
    requires a <= 1.0 && b > 0.0
    ensures a * b <= b
  {
  }
}
