/** The stable sort of a list by a number, as the library provides it. */
module StableSort {

  /** The elements with a property, in order. */
  function Filter<T>(p: T -> bool, s: seq<T>): seq<T> {
    if s == [] then [] else (if p(s[0]) then [s[0]] else []) + Filter(p, s[1..])
  }

  ghost predicate Sorted<T>(key: T -> int, s: seq<T>) {
    forall i, j :: 0 <= i < j < |s| ==> key(s[i]) <= key(s[j])
  }

  /** Put an element before the first one that is not smaller. */
  function Insert<T>(key: T -> int, x: T, s: seq<T>): seq<T> {
    if s == [] || key(x) <= key(s[0]) then [x] + s else [s[0]] + Insert(key, x, s[1..])
  }

  function SortBy<T>(key: T -> int, s: seq<T>): seq<T> {
    if s == [] then [] else Insert(key, s[0], SortBy(key, s[1..]))
  }

  lemma {:induction false} InsertMembers<T>(key: T -> int, x: T, s: seq<T>)
    ensures multiset(Insert(key, x, s)) == multiset(s) + multiset{x}
  {
    if s != [] && key(x) > key(s[0]) {
      InsertMembers(key, x, s[1..]);
      assert s == [s[0]] + s[1..];
    }
  }

  /** Sorting loses and adds nothing. */
  lemma {:induction false} SortPermutes<T>(key: T -> int, s: seq<T>)
    ensures multiset(SortBy(key, s)) == multiset(s)
  {
    if s != [] {
      SortPermutes(key, s[1..]);
      InsertMembers(key, s[0], SortBy(key, s[1..]));
      assert s == [s[0]] + s[1..];
    }
  }

  lemma SortMembers<T>(key: T -> int, s: seq<T>, x: T)
    ensures x in SortBy(key, s) <==> x in s
  {
    SortPermutes(key, s);
    assert x in SortBy(key, s) <==> x in multiset(SortBy(key, s));
    assert x in s <==> x in multiset(s);
  }

  lemma ConsSorted<T>(key: T -> int, x: T, s: seq<T>)
    ensures Sorted(key, [x] + s) <==> Sorted(key, s) && forall y :: y in s ==> key(x) <= key(y)
  {
    var r := [x] + s;
    if Sorted(key, r) {
      forall i, j | 0 <= i < j < |s|
        ensures key(s[i]) <= key(s[j])
      {
        assert r[i + 1] == s[i] && r[j + 1] == s[j];
      }
      forall y | y in s
        ensures key(x) <= key(y)
      {
        var j :| 0 <= j < |s| && s[j] == y;
        assert r[0] == x && r[j + 1] == y;
      }
    }
  }

  lemma {:induction false} InsertSorted<T>(key: T -> int, x: T, s: seq<T>)
    requires Sorted(key, s)
    ensures Sorted(key, Insert(key, x, s))
  {
    hide Sorted;
    if s == [] {
      ConsSorted(key, x, []);
      NoneSorted(key);
    } else {
      var head, rest := s[0], s[1..];
      assert s == [head] + rest;
      ConsSorted(key, head, rest);
      ConsSorted(key, x, s);
      if key(x) > key(head) {
        InsertSorted(key, x, rest);
        ConsSorted(key, head, Insert(key, x, rest));
        forall y | y in Insert(key, x, rest)
          ensures key(head) <= key(y)
        {
          InsertMembers(key, x, rest);
          assert y in multiset(Insert(key, x, rest));
        }
      }
    }
  }

  lemma NoneSorted<T>(key: T -> int)
    ensures Sorted(key, [])
  {
  }

  lemma {:induction false} SortIsSorted<T>(key: T -> int, s: seq<T>)
    ensures Sorted(key, SortBy(key, s))
  {
    if s != [] {
      SortIsSorted(key, s[1..]);
      InsertSorted(key, s[0], SortBy(key, s[1..]));
    }
  }

  lemma FilterCons<T>(p: T -> bool, x: T, s: seq<T>)
    ensures Filter(p, [x] + s) == if p(x) then [x] + Filter(p, s) else Filter(p, s)
  {
    assert ([x] + s)[0] == x && ([x] + s)[1..] == s;
  }

  /** Inserting commutes with filtering a sorted list. */
  lemma {:induction false} FilterInsert<T>(p: T -> bool, key: T -> int, x: T, s: seq<T>)
    requires Sorted(key, s)
    ensures Filter(p, Insert(key, x, s)) == if p(x) then Insert(key, x, Filter(p, s)) else Filter(p, s)
  {
    hide Sorted;
    if s == [] {
      assert ([x])[1..] == [];
    } else {
      var head, rest := s[0], s[1..];
      assert s == [head] + rest;
      ConsSorted(key, head, rest);
      if key(x) <= key(head) {
        FilterCons(p, x, s);
        SmallestFirst(p, key, x, s);
      } else {
        FilterInsert(p, key, x, rest);
        FilterCons(p, head, rest);
        FilterCons(p, head, Insert(key, x, rest));
        var f := Filter(p, rest);
        assert ([head] + f)[0] == head && ([head] + f)[1..] == f;
        assert Insert(key, x, s) == [head] + Insert(key, x, rest);
        assert Insert(key, x, [head] + f) == [head] + Insert(key, x, f);
      }
    }
  }

  /** An element that is not larger than any is inserted in front. */
  lemma SmallestFirst<T>(p: T -> bool, key: T -> int, x: T, s: seq<T>)
    requires Sorted(key, s) && s != [] && key(x) <= key(s[0])
    ensures Insert(key, x, Filter(p, s)) == [x] + Filter(p, s)
  {
    if Filter(p, s) != [] {
      var y := Filter(p, s)[0];
      FilterMember(p, s, y);
      var j :| 0 <= j < |s| && s[j] == y;
      assert j > 0 ==> key(s[0]) <= key(s[j]);
    }
  }

  lemma {:induction false} FilterMember<T>(p: T -> bool, s: seq<T>, x: T)
    ensures x in Filter(p, s) <==> x in s && p(x)
  {
    if s != [] {
      FilterMember(p, s[1..], x);
      assert s == [s[0]] + s[1..];
    }
  }

  /** Filtering a sorted list gives the sorted filtered list. */
  lemma {:induction false} FilterSort<T>(p: T -> bool, key: T -> int, s: seq<T>)
    ensures Filter(p, SortBy(key, s)) == SortBy(key, Filter(p, s))
  {
    hide Insert;
    if s != [] {
      FilterSort(p, key, s[1..]);
      SortIsSorted(key, s[1..]);
      FilterInsert(p, key, s[0], SortBy(key, s[1..]));
      var x, f := s[0], Filter(p, s[1..]);
      assert Filter(p, s) == if p(x) then [x] + f else f;
      assert SortBy(key, [x] + f) == Insert(key, x, SortBy(key, f)) by {
        assert ([x] + f)[0] == x && ([x] + f)[1..] == f;
      }
      assert SortBy(key, s) == Insert(key, x, SortBy(key, s[1..]));
    }
  }

  /** A sorted list is not changed. */
  lemma {:induction false} SortedIsKept<T>(key: T -> int, s: seq<T>)
    requires Sorted(key, s)
    ensures SortBy(key, s) == s
  {
    hide Sorted;
    if s != [] {
      assert s == [s[0]] + s[1..];
      ConsSorted(key, s[0], s[1..]);
      SortedIsKept(key, s[1..]);
      if |s| > 1 {
        assert s[1..][0] in s[1..];
      }
    }
  }

  /** The sort is stable: elements with the same number keep their order. */
  lemma SortIsStable<T>(key: T -> int, s: seq<T>, k: int)
    ensures Filter(x => key(x) == k, SortBy(key, s)) == Filter(x => key(x) == k, s)
  {
    var p := x => key(x) == k;
    FilterSort(p, key, s);
    AllAlike(key, s, k);
  }

  lemma AllAlike<T>(key: T -> int, s: seq<T>, k: int)
    ensures SortBy(key, Filter(x => key(x) == k, s)) == Filter(x => key(x) == k, s)
  {
    var p := x => key(x) == k;
    var r := Filter(p, s);
    forall i | 0 <= i < |r|
      ensures key(r[i]) == k
    {
      FilterMember(p, s, r[i]);
    }
    SortedIsKept(key, r);
  }
}
