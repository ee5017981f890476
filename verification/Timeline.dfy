/** Interval and event searches of the timeline viewer, and its window queries. */
module Timeline {
  import opened StableSort

  datatype DataRange = DataRange(start: int, end: int, value: string)

  datatype Event = Event(at: int, value: string)

  /** The slice `s[lo:hi]` of a Python list, for bounds that are not negative. */
  function Slice<T>(s: seq<T>, lo: nat, hi: nat): seq<T> {
    var h := if hi < |s| then hi else |s|;
    if lo >= h then [] else s[lo..h]
  }

  lemma {:induction false} FilterAppend<T>(p: T -> bool, s: seq<T>, t: seq<T>)
    ensures Filter(p, s + t) == Filter(p, s) + Filter(p, t)
  {
    if s == [] {
      assert s + t == t;
    } else {
      var head := if p(s[0]) then [s[0]] else [];
      FilterAppend(p, s[1..], t);
      calc {
        Filter(p, s + t);
        { assert (s + t)[0] == s[0] && (s + t)[1..] == s[1..] + t; }
        head + Filter(p, s[1..] + t);
        head + (Filter(p, s[1..]) + Filter(p, t));
        (head + Filter(p, s[1..])) + Filter(p, t);
      }
    }
  }

  lemma {:induction false} FilterNone<T>(p: T -> bool, s: seq<T>)
    requires forall k :: 0 <= k < |s| ==> !p(s[k])
    ensures Filter(p, s) == []
  {
    if s != [] {
      FilterNone(p, s[1..]);
    }
  }

  lemma {:induction false} FilterAll<T>(p: T -> bool, s: seq<T>)
    requires forall k :: 0 <= k < |s| ==> p(s[k])
    ensures Filter(p, s) == s
  {
    if s != [] {
      FilterAll(p, s[1..]);
    }
  }

  /** A property that holds on one stretch of a list filters out that stretch. */
  lemma FilterStretch<T>(p: T -> bool, s: seq<T>, a: nat, b: nat)
    requires a <= b <= |s|
    requires forall k :: 0 <= k < |s| ==> (p(s[k]) <==> a <= k < b)
    ensures Filter(p, s) == s[a..b]
  {
    var front, mid, back := s[..a], s[a..b], s[b..];
    hide Filter;
    SplitThree(s, a, b);
    FilterAppend(p, front, mid + back);
    FilterAppend(p, mid, back);
    forall k | 0 <= k < |back|
      ensures !p(back[k])
    {
      assert back[k] == s[b + k];
    }
    forall k | 0 <= k < |mid|
      ensures p(mid[k])
    {
      assert mid[k] == s[a + k];
    }
    FilterNone(p, front);
    FilterAll(p, mid);
    FilterNone(p, back);
    assert [] + (mid + []) == mid;
  }

  lemma SplitThree<T>(s: seq<T>, a: nat, b: nat)
    requires a <= b <= |s|
    ensures s == s[..a] + (s[a..b] + s[b..])
  {
  }

  /** A larger stretch equals a smaller one inside it only if both have the same ends. */
  lemma NestedStretches<T>(s: seq<T>, lo: nat, a: nat, b: nat, hi: nat)
    requires lo <= a <= b <= hi <= |s|
    ensures s[lo..hi] == s[a..b] <==> lo == a && b == hi
    ensures forall x :: x in s[a..b] ==> x in s[lo..hi]
  {
    if s[lo..hi] == s[a..b] {
      assert |s[lo..hi]| == |s[a..b]|;
    }
    forall x | x in s[a..b]
      ensures x in s[lo..hi]
    {
      var k :| a <= k < b && s[k] == x;
      assert s[lo..hi][k - lo] == x;
    }
  }

  // ---------- ranges ----------

  predicate Holds(r: DataRange, key: int) {
    r.start <= key <= r.end
  }

  predicate Overlaps(r: DataRange, lo: int, hi: int) {
    r.start <= hi && lo <= r.end
  }

  ghost predicate SortedDisjoint(rs: seq<DataRange>) {
    && (forall i :: 0 <= i < |rs| ==> rs[i].start <= rs[i].end)
    && (forall i, j :: 0 <= i < j < |rs| ==> rs[i].end < rs[j].start)
  }

  /** The ranges that overlap a window, in order. */
  function Overlapping(rs: seq<DataRange>, lo: int, hi: int): seq<DataRange> {
    Filter((r: DataRange) => Overlaps(r, lo, hi), rs)
  }

  /** How many ranges at the front end before `lo`. */
  function EndingBefore(rs: seq<DataRange>, lo: int): (n: nat)
    ensures n <= |rs|
    ensures forall k :: 0 <= k < n ==> rs[k].end < lo
    ensures n < |rs| ==> rs[n].end >= lo
  {
    if rs == [] || rs[0].end >= lo then 0 else 1 + EndingBefore(rs[1..], lo)
  }

  /** How many ranges at the front start no later than `hi`. */
  function StartingBy(rs: seq<DataRange>, hi: int): (n: nat)
    ensures n <= |rs|
    ensures forall k :: 0 <= k < n ==> rs[k].start <= hi
    ensures n < |rs| ==> rs[n].start > hi
  {
    if rs == [] || rs[0].start > hi then 0 else 1 + StartingBy(rs[1..], hi)
  }

  /** The overlapping ranges are one stretch of a sorted list of disjoint ranges. */
  lemma OverlappingIsSlice(rs: seq<DataRange>, lo: int, hi: int)
    requires SortedDisjoint(rs) && lo <= hi
    ensures EndingBefore(rs, lo) <= StartingBy(rs, hi)
    ensures Overlapping(rs, lo, hi) == rs[EndingBefore(rs, lo)..StartingBy(rs, hi)]
  {
    hide EndingBefore, StartingBy, Filter;
    var a, b := EndingBefore(rs, lo), StartingBy(rs, hi);
    assert a <= b;
    forall k | 0 <= k < |rs|
      ensures Overlaps(rs[k], lo, hi) <==> a <= k < b
    {
    }
    FilterStretch((r: DataRange) => Overlaps(r, lo, hi), rs, a, b);
  }

  /** The position of the range that holds a key, or -1. */
  function Holder(rs: seq<DataRange>, key: int): (r: int)
    ensures -1 <= r < |rs|
    ensures r >= 0 ==> Holds(rs[r], key)
    ensures r == -1 ==> forall k :: 0 <= k < |rs| ==> !Holds(rs[k], key)
  {
    if rs == [] then -1
    else if Holds(rs[0], key) then 0
    else
      var r := Holder(rs[1..], key);
      if r == -1 then -1 else r + 1
  }

  lemma HolderUnique(rs: seq<DataRange>, key: int, k: nat)
    requires SortedDisjoint(rs) && k < |rs| && Holds(rs[k], key)
    ensures Holder(rs, key) == k
  {
    hide Holder;
  }

  /** A covered key is reached by all ranges up to its holder; an uncovered one lies in a gap. */
  lemma HolderPosition(rs: seq<DataRange>, key: int)
    requires SortedDisjoint(rs)
    ensures EndingBefore(rs, key) == if Holder(rs, key) >= 0 then Holder(rs, key) else StartingBy(rs, key)
    ensures Holder(rs, key) >= 0 ==> StartingBy(rs, key) == Holder(rs, key) + 1
  {
    hide Holder, EndingBefore, StartingBy;
    var h := Holder(rs, key);
    if 0 <= h < |rs| - 1 {
      assert rs[h].end < rs[h + 1].start;
    }
  }

  predicate Covered(rs: seq<DataRange>, key: int) {
    Holder(rs, key) >= 0
  }

  /** What `get_ranges` returns for a window, by the four cases of the code. */
  function RangesBetween(rs: seq<DataRange>, start: int, end: int): seq<DataRange> {
    var s, e := Holder(rs, start), Holder(rs, end);
    if s == -1 && e == -1 then []
    else if s == -1 then rs[..e+1]
    else if e == -1 then rs[s..]
    else Slice(rs, s, e + 1)
  }

  /** The query is exact if the ends of the window are covered. With one end uncovered it
      never misses a range, and is exact if and only if no range lies beyond that end.
      With both ends uncovered it is exact if and only if they fall into the same gap. */
  lemma RangesBetweenExactIff(rs: seq<DataRange>, start: int, end: int)
    requires SortedDisjoint(rs) && start <= end
    ensures
      var (s, e) := (Holder(rs, start), Holder(rs, end));
      RangesBetween(rs, start, end) == Overlapping(rs, start, end)
      <==> (if s >= 0 && e >= 0 then true
            else if e >= 0 then rs[0].end >= start
            else if s >= 0 then rs[|rs|-1].start <= end
            else StartingBy(rs, start) == StartingBy(rs, end))
    ensures Holder(rs, start) >= 0 || Holder(rs, end) >= 0 ==>
      forall r :: r in Overlapping(rs, start, end) ==> r in RangesBetween(rs, start, end)
  {
    hide Holder, EndingBefore, StartingBy, Overlapping, SortedDisjoint;
    var s, e := Holder(rs, start), Holder(rs, end);
    var a, b := EndingBefore(rs, start), StartingBy(rs, end);
    OverlappingIsSlice(rs, start, end);
    HolderPosition(rs, start);
    HolderPosition(rs, end);
    if s >= 0 && e >= 0 {
      assert RangesBetween(rs, start, end) == rs[a..b];
    } else if e >= 0 {
      NestedStretches(rs, 0, a, b, b);
      assert rs[0..b] == rs[..b];
      assert a == 0 <==> rs[0].end >= start;
    } else if s >= 0 {
      NestedStretches(rs, a, a, b, |rs|);
      assert rs[a..|rs|] == rs[a..];
      LastStart(rs, end);
    } else {
      assert |rs[a..b]| == 0 <==> a == b;
    }
  }

  /** With one end covered the query returns just the ranges that do not lie beyond that end. */
  lemma OneEndCovered(rs: seq<DataRange>, start: int, end: int, x: DataRange)
    requires SortedDisjoint(rs)
    ensures Covered(rs, end) && !Covered(rs, start) ==>
      (x in RangesBetween(rs, start, end) <==> x in rs && x.start <= end)
    ensures Covered(rs, start) && !Covered(rs, end) ==>
      (x in RangesBetween(rs, start, end) <==> x in rs && x.end >= start)
    ensures !Covered(rs, start) && !Covered(rs, end) ==> RangesBetween(rs, start, end) == []
  {
    hide Holder, EndingBefore, StartingBy;
    var s, e := Holder(rs, start), Holder(rs, end);
    if e >= 0 && s < 0 {
      BeforeOrAt(rs, end, e, x);
    } else if s >= 0 && e < 0 {
      AtOrBehind(rs, start, s, x);
    }
  }

  lemma KeyOrder(rs: seq<DataRange>, key: int, h: nat, k: nat)
    requires SortedDisjoint(rs) && h < |rs| && k < |rs| && Holds(rs[h], key)
    ensures rs[k].start <= key <==> k <= h
    ensures rs[k].end >= key <==> k >= h
  {
  }

  lemma BeforeOrAt(rs: seq<DataRange>, key: int, h: nat, x: DataRange)
    requires SortedDisjoint(rs) && h < |rs| && Holds(rs[h], key)
    ensures x in rs[..h+1] <==> x in rs && x.start <= key
  {
    if x in rs[..h+1] {
      var k :| 0 <= k <= h && rs[k] == x;
      assert k < h ==> rs[k].end < rs[h].start;
    }
    if x in rs && x.start <= key {
      var k :| 0 <= k < |rs| && rs[k] == x;
      KeyOrder(rs, key, h, k);
      assert rs[..h+1][k] == x;
    }
  }

  lemma AtOrBehind(rs: seq<DataRange>, key: int, h: nat, x: DataRange)
    requires SortedDisjoint(rs) && h < |rs| && Holds(rs[h], key)
    ensures x in rs[h..] <==> x in rs && x.end >= key
  {
    if x in rs[h..] {
      var k :| h <= k < |rs| && rs[k] == x;
      assert k > h ==> rs[h].end < rs[k].start;
    }
    if x in rs && x.end >= key {
      var k :| 0 <= k < |rs| && rs[k] == x;
      KeyOrder(rs, key, h, k);
      assert rs[h..][k - h] == x;
    }
  }

  /** With the window 2..7 between its ends a range in a gap is missed, and from 2..9, with
      one end covered, a range is returned that ends before the window. */
  lemma InexactWindows()
    ensures
      var a, b, c := DataRange(0, 1, "a"), DataRange(4, 5, "b"), DataRange(8, 9, "c");
      && SortedDisjoint([a, b, c])
      && Overlapping([a, b, c], 2, 7) == [b] && RangesBetween([a, b, c], 2, 7) == []
      && Overlapping([a, b, c], 2, 9) == [b, c] && RangesBetween([a, b, c], 2, 9) == [a, b, c]
  {
    var a, b, c := DataRange(0, 1, "a"), DataRange(4, 5, "b"), DataRange(8, 9, "c");
    var rs := [a, b, c];
    FilterStretch((r: DataRange) => Overlaps(r, 2, 7), rs, 1, 2);
    FilterStretch((r: DataRange) => Overlaps(r, 2, 9), rs, 1, 3);
    HolderUnique(rs, 9, 2);
    hide Holder;
    assert rs[..3] == rs;
  }

  lemma LastStart(rs: seq<DataRange>, hi: int)
    requires SortedDisjoint(rs) && rs != []
    ensures StartingBy(rs, hi) == |rs| <==> rs[|rs|-1].start <= hi
  {
    var b := StartingBy(rs, hi);
    if b < |rs| - 1 {
      assert rs[b].end < rs[|rs|-1].start;
    }
  }

  /** What a query means, by the ends that are covered. */
  lemma QueryMeaning(rs: seq<DataRange>, start: int, end: int)
    ensures SortedDisjoint(rs) && start <= end && Covered(rs, start) && Covered(rs, end) ==>
      RangesBetween(rs, start, end) == Overlapping(rs, start, end)
    ensures SortedDisjoint(rs) && start <= end && (Covered(rs, start) || Covered(rs, end)) ==>
      forall x :: x in Overlapping(rs, start, end) ==> x in RangesBetween(rs, start, end)
    ensures SortedDisjoint(rs) && Covered(rs, end) && !Covered(rs, start) ==>
      forall x :: x in RangesBetween(rs, start, end) <==> x in rs && x.start <= end
    ensures SortedDisjoint(rs) && Covered(rs, start) && !Covered(rs, end) ==>
      forall x :: x in RangesBetween(rs, start, end) <==> x in rs && x.end >= start
    ensures SortedDisjoint(rs) && !Covered(rs, start) && !Covered(rs, end) ==> RangesBetween(rs, start, end) == []
  {
    hide Overlapping, Holder;
    if SortedDisjoint(rs) {
      if start <= end {
        RangesBetweenExactIff(rs, start, end);
      }
      hide SortedDisjoint, RangesBetween;
      forall x {
        OneEndCovered(rs, start, end, x);
      }
      OneEndCovered(rs, start, end, DataRange(0, 0, ""));
    }
  }

  class TimelineDataRange {
    var ranges: seq<DataRange>

    constructor ()
      ensures ranges == []
    {
      ranges := [];
    }

    method AddRange(r: DataRange)
      modifies this
      ensures ranges == old(ranges) + [r]
    {
      ranges := ranges + [r];
    }

    /** Sort by the start, as the comparison function orders. */
    method Sort()
      modifies this
      ensures ranges == SortBy(StartOf, old(ranges))
    {
      ranges := SortBy(StartOf, ranges);
    }

    /** Binary search for the range that holds a key. What it returns always holds the
        key; it finds one if there is one when the ranges are sorted and disjoint. */
    method Search(key: int) returns (i: int)
      ensures -1 <= i < |ranges|
      ensures i >= 0 ==> Holds(ranges[i], key)
      ensures SortedDisjoint(ranges) ==> i == Holder(ranges, key)
    {
      var l, u := 0, |ranges| - 1;
      while l <= u
        invariant 0 <= l <= |ranges| && -1 <= u < |ranges|
        invariant SortedDisjoint(ranges) ==> forall k :: 0 <= k < l ==> ranges[k].end < key
        invariant SortedDisjoint(ranges) ==> forall k :: u < k < |ranges| ==> key < ranges[k].start
        decreases u - l
      {
        i := (l + u) / 2;
        if key >= ranges[i].start && key <= ranges[i].end {
          if SortedDisjoint(ranges) {
            HolderUnique(ranges, key, i);
          }
          return;
        } else if key < ranges[i].start {
          u := i - 1;
        } else {
          l := i + 1;
        }
      }
      i := -1;
    }

    /** The ranges of a window: exactly the overlapping ones when both its ends are covered;
        with one end covered just those that do not lie beyond it, so all overlapping ones at
        least; none with no end covered. */
    method GetRanges(start: int, end: int) returns (r: seq<DataRange>)
      ensures SortedDisjoint(ranges) ==> r == RangesBetween(ranges, start, end)
      ensures SortedDisjoint(ranges) && start <= end && Covered(ranges, start) && Covered(ranges, end) ==>
        r == Overlapping(ranges, start, end)
      ensures SortedDisjoint(ranges) && start <= end && (Covered(ranges, start) || Covered(ranges, end)) ==>
        forall x :: x in Overlapping(ranges, start, end) ==> x in r
      ensures SortedDisjoint(ranges) && Covered(ranges, end) && !Covered(ranges, start) ==>
        forall x :: x in r <==> x in ranges && x.start <= end
      ensures SortedDisjoint(ranges) && Covered(ranges, start) && !Covered(ranges, end) ==>
        forall x :: x in r <==> x in ranges && x.end >= start
      ensures SortedDisjoint(ranges) && !Covered(ranges, start) && !Covered(ranges, end) ==> r == []
    {
      QueryMeaning(ranges, start, end);
      hide Overlapping, Holder, SortedDisjoint, Covered;
      var s := Search(start);
      var e := Search(end);
      if s == -1 && e == -1 {
        r := [];
      } else if s == -1 {
        r := ranges[0..e + 1];
      } else if e == -1 {
        r := ranges[s..|ranges|];
      } else {
        r := Slice(ranges, s, e + 1);
      }
    }

    /** The bounds delimit what `GetRanges` returns. */
    method GetRangesBounds(start: int, end: int) returns (lo: nat, hi: nat)
      ensures SortedDisjoint(ranges) ==> Slice(ranges, lo, hi) == RangesBetween(ranges, start, end)
    {
      var s := Search(start);
      var e := Search(end);
      if s == -1 && e == -1 {
        lo, hi := 0, 0;
      } else if s == -1 {
        lo, hi := 0, e + 1;
      } else if e == -1 {
        lo, hi := s, |ranges|;
      } else {
        lo, hi := s, e + 1;
      }
    }
  }

  // ---------- the ranges of a file ----------

  function StartOf(r: DataRange): int {
    r.start
  }

  predicate Apart(a: DataRange, b: DataRange) {
    a.end < b.start || b.end < a.start
  }

  /** No range is backwards and no two share a key, in whatever order they come. */
  ghost predicate PairwiseDisjoint(rs: seq<DataRange>) {
    && (forall i :: 0 <= i < |rs| ==> rs[i].start <= rs[i].end)
    && (forall i, j :: 0 <= i < j < |rs| ==> Apart(rs[i], rs[j]))
  }

  lemma ConsDisjoint(x: DataRange, rs: seq<DataRange>)
    ensures SortedDisjoint([x] + rs)
       <==> SortedDisjoint(rs) && x.start <= x.end && forall y :: y in rs ==> x.end < y.start
  {
    var r := [x] + rs;
    if SortedDisjoint(r) {
      assert r[0] == x && forall j :: 0 <= j < |rs| ==> r[j + 1] == rs[j];
    }
  }

  lemma {:induction false} InsertDisjoint(x: DataRange, rs: seq<DataRange>)
    requires SortedDisjoint(rs) && x.start <= x.end && forall y :: y in rs ==> Apart(x, y)
    ensures SortedDisjoint(Insert(StartOf, x, rs))
  {
    hide SortedDisjoint;
    if rs == [] {
      ConsDisjoint(x, []);
      NoneDisjoint();
    } else {
      var head, rest := rs[0], rs[1..];
      assert rs == [head] + rest;
      ConsDisjoint(head, rest);
      ConsDisjoint(x, rs);
      assert head in rs;
      if x.start > head.start {
        InsertDisjoint(x, rest);
        ConsDisjoint(head, Insert(StartOf, x, rest));
        forall y | y in Insert(StartOf, x, rest)
          ensures head.end < y.start
        {
          InsertMembers(StartOf, x, rest);
          assert y in multiset(Insert(StartOf, x, rest));
        }
      }
    }
  }

  lemma NoneDisjoint()
    ensures SortedDisjoint([])
  {
  }

  /** Disjoint ranges in any order are sorted and disjoint once they are sorted by start. */
  lemma {:induction false} SortMakesDisjoint(rs: seq<DataRange>)
    requires PairwiseDisjoint(rs)
    ensures SortedDisjoint(SortBy(StartOf, rs))
  {
    hide SortedDisjoint, Insert;
    if rs == [] {
      NoneDisjoint();
    } else {
      var rest := rs[1..];
      SortMakesDisjoint(rest);
      forall y | y in SortBy(StartOf, rest)
        ensures Apart(rs[0], y)
      {
        SortMembers(StartOf, rest, y);
        var j :| 0 <= j < |rest| && rest[j] == y;
        assert rs[j + 1] == y;
      }
      InsertDisjoint(rs[0], SortBy(StartOf, rest));
    }
  }

  /** Some range of the list holds the key. */
  ghost predicate SomeHolds(rs: seq<DataRange>, key: int) {
    exists r :: r in rs && Holds(r, key)
  }

  lemma CoveredIff(rs: seq<DataRange>, key: int)
    ensures Covered(SortBy(StartOf, rs), key) <==> SomeHolds(rs, key)
  {
    hide Holder, SortBy;
    var t := SortBy(StartOf, rs);
    forall r
      ensures r in t <==> r in rs
    {
      SortMembers(StartOf, rs, r);
    }
    var h := Holder(t, key);
    if h >= 0 {
      assert t[h] in t;
    }
    if r :| r in rs && Holds(r, key) {
      var k :| 0 <= k < |t| && t[k] == r;
    }
  }

  /** A window of the sorted list holds the overlapping ranges of the file in sorted order. */
  lemma OverlappingSorted(rs: seq<DataRange>, lo: int, hi: int)
    ensures Overlapping(SortBy(StartOf, rs), lo, hi) == SortBy(StartOf, Overlapping(rs, lo, hi))
  {
    FilterSort((r: DataRange) => Overlaps(r, lo, hi), StartOf, rs);
  }

  /** The ranges of a file are read in the order of its lines and sorted; then a window is
      queried. For disjoint ranges in any order, it is exactly those that overlap the window,
      sorted, if both ends are covered, and all of these at least if one end is. */
  method RangesOfFile(items: seq<DataRange>, start: int, end: int) returns (r: seq<DataRange>)
    ensures PairwiseDisjoint(items) ==> r == RangesBetween(SortBy(StartOf, items), start, end)
    ensures PairwiseDisjoint(items) && start <= end && SomeHolds(items, start) && SomeHolds(items, end) ==>
      r == SortBy(StartOf, Overlapping(items, start, end))
    ensures PairwiseDisjoint(items) && start <= end && (SomeHolds(items, start) || SomeHolds(items, end)) ==>
      forall x :: x in SortBy(StartOf, Overlapping(items, start, end)) ==> x in r
  {
    hide Holder, SortBy, Overlapping, SortedDisjoint;
    var timeline := new TimelineDataRange();
    for k := 0 to |items|
      invariant timeline.ranges == items[..k]
    {
      timeline.AddRange(items[k]);
    }
    assert items[..|items|] == items;
    timeline.Sort();
    if PairwiseDisjoint(items) {
      SortMakesDisjoint(items);
    }
    CoveredIff(items, start);
    CoveredIff(items, end);
    OverlappingSorted(items, start, end);
    r := timeline.GetRanges(start, end);
  }

  // ---------- events ----------

  ghost predicate SortedEvents(es: seq<Event>) {
    forall i, j :: 0 <= i < j < |es| ==> es[i].at <= es[j].at
  }

  /** How many events at the front are earlier than `key`. */
  function EarlierThan(es: seq<Event>, key: int): (n: nat)
    ensures n <= |es|
    ensures forall k :: 0 <= k < n ==> es[k].at < key
    ensures n < |es| ==> es[n].at >= key
  {
    if es == [] || es[0].at >= key then 0 else 1 + EarlierThan(es[1..], key)
  }

  /** The events inside a window, in order. */
  function Within(es: seq<Event>, lo: int, hi: int): seq<Event> {
    Filter((e: Event) => lo <= e.at <= hi, es)
  }

  /** The events inside a window are one stretch of the sorted list. */
  lemma WithinIsSlice(es: seq<Event>, lo: int, hi: int)
    requires SortedEvents(es) && lo <= hi
    ensures EarlierThan(es, lo) <= EarlierThan(es, hi + 1)
    ensures Within(es, lo, hi) == es[EarlierThan(es, lo)..EarlierThan(es, hi + 1)]
  {
    hide EarlierThan, Filter;
    var a, b := EarlierThan(es, lo), EarlierThan(es, hi + 1);
    EarlierMonotone(es, lo, hi + 1);
    forall k | 0 <= k < |es|
      ensures lo <= es[k].at <= hi <==> a <= k < b
    {
    }
    FilterStretch((e: Event) => lo <= e.at <= hi, es, a, b);
  }

  lemma EarlierUnique(es: seq<Event>, key: int, n: nat)
    requires n <= |es|
    requires forall k :: 0 <= k < n ==> es[k].at < key
    requires n < |es| ==> es[n].at >= key
    ensures EarlierThan(es, key) == n
  {
    hide EarlierThan;
  }

  lemma EarlierMonotone(es: seq<Event>, a: int, b: int)
    requires a <= b
    ensures EarlierThan(es, a) <= EarlierThan(es, b)
  {
    hide EarlierThan;
  }

  /** `r` holds the events of the window and, exactly when no event happens at its very end
      but some event happens later, the first of these. */
  ghost predicate EventsQuery(es: seq<Event>, start: int, end: int, r: seq<Event>) {
    var n := EarlierThan(es, end);
    if n == |es| || es[n].at == end then r == Within(es, start, end)
    else r == Within(es, start, end) + [es[n]] && es[n].at > end
  }

  // ---------- the search ----------

  /** Where the binary search for a key between two positions ends. */
  function Find(es: seq<Event>, key: int, l: nat, u: int): (r: nat)
    requires l <= |es| && u < |es|
    ensures r <= |es|
    decreases u - l + 1
  {
    if l > u then l
    else
      var i := (l + u) / 2;
      if key == es[i].at then i
      else if key < es[i].at then Find(es, key, l, i - 1)
      else Find(es, key, i + 1, u)
  }

  function Position(es: seq<Event>, key: int): (r: nat)
    ensures r <= |es|
  {
    Find(es, key, 0, |es| - 1)
  }

  /** On a sorted list the search ends at an event at the key if there is one, and else at the
      place where it would go. With several such events it may be any of them. */
  ghost predicate FoundAt(es: seq<Event>, key: int, i: nat) {
    var a, b := EarlierThan(es, key), EarlierThan(es, key + 1);
    if a == b then i == a else a <= i < b
  }

  lemma {:induction false} FindMeaning(es: seq<Event>, key: int, l: nat, u: int)
    requires SortedEvents(es) && l <= |es| && -1 <= u < |es| && l <= u + 1
    requires forall k :: 0 <= k < l ==> es[k].at < key
    requires forall k :: u < k < |es| ==> key < es[k].at
    ensures FoundAt(es, key, Find(es, key, l, u))
    decreases u - l + 1
  {
    hide EarlierThan, FoundAt;
    if l > u {
      FoundPlace(es, key, l);
    } else {
      var i := (l + u) / 2;
      if key < es[i].at {
        FindMeaning(es, key, l, i - 1);
      } else if key > es[i].at {
        FindMeaning(es, key, i + 1, u);
      } else {
        FoundEvent(es, key, i);
      }
    }
  }

  lemma FoundPlace(es: seq<Event>, key: int, i: nat)
    requires i <= |es|
    requires forall k :: 0 <= k < i ==> es[k].at < key
    requires forall k :: i <= k < |es| ==> key < es[k].at
    ensures FoundAt(es, key, i)
  {
    EarlierUnique(es, key, i);
    EarlierUnique(es, key + 1, i);
  }

  lemma FoundEvent(es: seq<Event>, key: int, i: nat)
    requires SortedEvents(es) && i < |es| && es[i].at == key
    ensures FoundAt(es, key, i)
  {
    hide EarlierThan;
  }

  lemma PositionMeaning(es: seq<Event>, key: int)
    requires SortedEvents(es)
    ensures FoundAt(es, key, Position(es, key))
  {
    FindMeaning(es, key, 0, |es| - 1);
  }

  // ---------- when a window is complete ----------

  /** What the query returns. */
  function EventsFound(es: seq<Event>, start: int, end: int): seq<Event> {
    Slice(es, Position(es, start), Position(es, end) + 1)
  }

  /** The search for the start of the window found the first event there, and the search for
      its end the last one there. */
  predicate EndsFound(es: seq<Event>, start: int, end: int, s: nat, e: nat)
    requires s <= |es|
  {
    (s == 0 || es[s-1].at < start) && (e + 1 >= |es| || es[e+1].at > end)
  }

  /** On a sorted list the query is complete if and only if the searches found the outermost
      events at both ends. */
  lemma EventsCompleteIff(es: seq<Event>, start: int, end: int)
    requires SortedEvents(es) && start <= end
    ensures EventsQuery(es, start, end, EventsFound(es, start, end))
       <==> EndsFound(es, start, end, Position(es, start), Position(es, end))
  {
    hide EarlierThan, Within, Position;
    PositionMeaning(es, start);
    PositionMeaning(es, end);
    PositionsOrdered(es, start, end);
    WithinIsSlice(es, start, end);
    EarlierMonotone(es, start, end);
    EarlierMonotone(es, end, end + 1);
    SlicesAgreeIff(es, start, end, Position(es, start), Position(es, end));
  }

  lemma PositionsOrdered(es: seq<Event>, start: int, end: int)
    requires SortedEvents(es) && start <= end
    ensures Position(es, start) <= Position(es, end)
  {
    hide EarlierThan, Position;
    PositionMeaning(es, start);
    PositionMeaning(es, end);
    if start < end {
      EarlierMonotone(es, start + 1, end);
      EarlierMonotone(es, start, end);
    }
  }

  lemma SlicesAgreeIff(es: seq<Event>, start: int, end: int, s: nat, e: nat)
    requires SortedEvents(es) && start <= end && s <= e <= |es|
    requires FoundAt(es, start, s) && FoundAt(es, end, e)
    ensures EventsQuery(es, start, end, Slice(es, s, e + 1)) <==> EndsFound(es, start, end, s, e)
  {
    hide EarlierThan, Within;
    var a, n, b := EarlierThan(es, start), EarlierThan(es, end), EarlierThan(es, end + 1);
    WithinIsSlice(es, start, end);
    EarlierMonotone(es, start, end);
    EarlierMonotone(es, start, start + 1);
    EarlierMonotone(es, end, end + 1);
    var whole := if n == |es| || es[n].at == end then b else n + 1;
    assert n < b <==> n < |es| && es[n].at == end;
    assert EventsQuery(es, start, end, es[a..whole]) by {
      if n < |es| && es[n].at != end {
        assert b == n && es[a..n + 1] == es[a..n] + [es[n]];
      }
    }
    assert forall r :: EventsQuery(es, start, end, r) ==> r == es[a..whole];
    var h := if e + 1 < |es| then e + 1 else |es|;
    assert Slice(es, s, e + 1) == es[s..h];
    assert a <= s && h <= whole;
    assert es[s..h] == es[a..whole] <==> s == a && h == whole by {
      if es[s..h] == es[a..whole] {
        assert |es[s..h]| == |es[a..whole]|;
      }
    }
  }

  /** With at most one event at each end of the window the query is complete. */
  lemma EventsBetween(es: seq<Event>, start: int, end: int)
    requires SortedEvents(es) && start <= end
    requires |Within(es, start, start)| <= 1 && |Within(es, end, end)| <= 1
    ensures EventsQuery(es, start, end, EventsFound(es, start, end))
  {
    hide EarlierThan, Within, Position;
    WithinIsSlice(es, start, start);
    WithinIsSlice(es, end, end);
    PositionMeaning(es, start);
    PositionMeaning(es, end);
    EventsCompleteIff(es, start, end);
  }

  /** However many events happen at the same time, none strictly inside the window is lost, and
      what is returned is a stretch of the list between the events at its ends. */
  lemma InnerEvents(es: seq<Event>, start: int, end: int, k: nat)
    requires SortedEvents(es) && start <= end && k < |es|
    ensures start < es[k].at < end ==> Position(es, start) <= k <= Position(es, end)
    ensures Position(es, start) <= k < Position(es, end) ==> start <= es[k].at <= end
  {
    hide EarlierThan, Position;
    PositionMeaning(es, start);
    PositionMeaning(es, end);
    EarlierMonotone(es, start, start + 1);
    EarlierMonotone(es, end, end + 1);
  }

  /** Of three events at the same time only the one in the middle is returned. */
  lemma SimultaneousEventsLost()
    ensures
      var es := [Event(5, "a"), Event(5, "b"), Event(5, "c")];
      SortedEvents(es) && Within(es, 5, 5) == es && EventsFound(es, 5, 5) == [es[1]]
  {
    var es := [Event(5, "a"), Event(5, "b"), Event(5, "c")];
    FilterStretch((e: Event) => 5 <= e.at <= 5, es, 0, 3);
    assert Position(es, 5) == 1;
  }

  class TimelineEvent {
    var events: seq<Event>

    constructor ()
      ensures events == []
    {
      events := [];
    }

    method AddEvent(e: Event)
      modifies this
      ensures events == old(events) + [e]
    {
      events := events + [e];
    }

    /** Sort by the time, as the comparison function orders. */
    method Sort()
      modifies this
      ensures events == SortBy(TimeOf, old(events))
    {
      events := SortBy(TimeOf, events);
    }

    /** Binary search; on a sorted list an event at the key if there is one, else the place
        where it would go. */
    method Search(key: int) returns (l: nat)
      ensures l == Position(events, key)
      ensures SortedEvents(events) ==> FoundAt(events, key, l)
    {
      hide FoundAt, SortedEvents, EarlierThan;
      if SortedEvents(events) {
        PositionMeaning(events, key);
      }
      assert Position(events, key) == Find(events, key, 0, |events| - 1);
      hide Position;
      l := 0;
      var u := |events| - 1;
      while l <= u
        invariant 0 <= l <= |events| && -1 <= u < |events| && l <= u + 1
        invariant Find(events, key, l, u) == Position(events, key)
        decreases u - l
      {
        var i := (l + u) / 2;
        if key == events[i].at {
          return i;
        } else if key < events[i].at {
          u := i - 1;
        } else {
          l := i + 1;
        }
      }
    }

    /** The events of a window: on a sorted list complete exactly if the searches found the
        outermost events at its ends, as with at most one event at each. */
    method GetEvents(start: int, end: int) returns (r: seq<Event>)
      ensures r == EventsFound(events, start, end)
      ensures SortedEvents(events) && start <= end ==>
        (EventsQuery(events, start, end, r)
         <==> EndsFound(events, start, end, Position(events, start), Position(events, end)))
      ensures SortedEvents(events) && start <= end
              && |Within(events, start, start)| <= 1 && |Within(events, end, end)| <= 1 ==>
        EventsQuery(events, start, end, r)
    {
      hide EventsQuery, Position, Within, FoundAt;
      if SortedEvents(events) && start <= end {
        EventsCompleteIff(events, start, end);
        if |Within(events, start, start)| <= 1 && |Within(events, end, end)| <= 1 {
          EventsBetween(events, start, end);
        }
      }
      var s := Search(start);
      var e := Search(end);
      r := Slice(events, s, e + 1);
    }

    /** The bounds delimit what `GetEvents` returns. */
    method GetEventsBounds(start: int, end: int) returns (lo: nat, hi: nat)
      ensures Slice(events, lo, hi) == EventsFound(events, start, end)
      ensures SortedEvents(events) ==> FoundAt(events, start, lo) && hi > 0 && FoundAt(events, end, hi - 1)
    {
      lo := Search(start);
      var e := Search(end);
      hi := e + 1;
    }
  }

  // ---------- the events of a file ----------

  function TimeOf(e: Event): int {
    e.at
  }

  lemma SortMakesSorted(es: seq<Event>)
    ensures SortedEvents(SortBy(TimeOf, es))
  {
    SortIsSorted(TimeOf, es);
    var r := SortBy(TimeOf, es);
    assert forall i, j :: 0 <= i < j < |r| ==> TimeOf(r[i]) <= TimeOf(r[j]);
  }

  /** A window of the sorted list holds the events of the file in the window, in order of time
      and at the same time in order of the file. */
  lemma WithinSorted(es: seq<Event>, lo: int, hi: int)
    ensures Within(SortBy(TimeOf, es), lo, hi) == SortBy(TimeOf, Within(es, lo, hi))
  {
    FilterSort((e: Event) => lo <= e.at <= hi, TimeOf, es);
  }

  lemma {:induction false} SortLength(es: seq<Event>)
    ensures |SortBy(TimeOf, es)| == |es|
  {
    SortPermutes(TimeOf, es);
    assert |multiset(SortBy(TimeOf, es))| == |SortBy(TimeOf, es)|;
    assert |multiset(es)| == |es|;
  }

  /** The events of a file are read in the order of its lines and sorted; then a window is
      queried. If at most one event happens at each end of the window, the result is the events
      of the file inside it, sorted, and at most one later event behind them. */
  method EventsOfFile(items: seq<Event>, start: int, end: int) returns (r: seq<Event>)
    ensures r == EventsFound(SortBy(TimeOf, items), start, end)
    ensures start <= end && |Within(items, start, start)| <= 1 && |Within(items, end, end)| <= 1 ==>
      && EventsQuery(SortBy(TimeOf, items), start, end, r)
      && var inside := SortBy(TimeOf, Within(items, start, end));
         inside <= r && |r| <= |inside| + 1 && (|r| > |inside| ==> r[|inside|].at > end)
  {
    hide SortBy, Position, Within, EarlierThan;
    var timeline := new TimelineEvent();
    for k := 0 to |items|
      invariant timeline.events == items[..k]
    {
      timeline.AddEvent(items[k]);
    }
    assert items[..|items|] == items;
    timeline.Sort();
    SortMakesSorted(items);
    WithinSorted(items, start, start);
    WithinSorted(items, end, end);
    WithinSorted(items, start, end);
    SortLength(Within(items, start, start));
    SortLength(Within(items, end, end));
    r := timeline.GetEvents(start, end);
  }
}
