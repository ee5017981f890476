/** The configuration paths gathered from a type, and why they are exactly the simple
    paths of the type graph in depth-first order. */
module SimplePaths {
  import opened TypeGraph

  /** The printed form of a path: each step behind a slash. */
  function PathString(path: seq<string>): string {
    if path == [] then "" else PathString(path[..|path|-1]) + "/" + path[|path|-1]
  }

  /** The text of a path grows to the right: each further label behind a slash. */
  lemma {:induction false} PathStringAppend(p: seq<string>, q: seq<string>)
    ensures PathString([]) == ""
    ensures PathString(p + q) == PathString(p) + PathString(q)
    ensures |q| == 1 ==> PathString(p + q) == PathString(p) + "/" + q[0]
    decreases |q|
  {
    if q == [] {
      assert p + q == p;
    } else {
      var n := |q| - 1;
      assert (p + q)[..|p + q| - 1] == p + q[..n];
      PathStringAppend(p, q[..n]);
      Regroup(PathString(p), PathString(q[..n]), "/", q[n]);
      if n == 0 {
        assert p + q[..0] == p;
      }
    }
  }

  lemma Regroup(a: string, b: string, c: string, d: string)
    ensures (a + b) + c + d == a + (b + c + d)
  {
  }

  // ---------- termination ----------

  function Unvisited(g: Graph, visited: seq<TypeId>): set<TypeId> {
    set t: nat | t < |g.types| && t !in visited
  }

  lemma VisitShrinks(g: Graph, visited: seq<TypeId>, tid: TypeId)
    requires tid < |g.types| && tid !in visited
    ensures |Unvisited(g, visited + [tid])| < |Unvisited(g, visited)|
  {
    assert Unvisited(g, visited + [tid]) == Unvisited(g, visited) - {tid};
  }

  // ---------- what the recursion records ----------

  /** The (type, path) pairs recorded below `tid`, reached by `path` through `visited`. */
  function Gathered(g: Graph, path: seq<string>, visited: seq<TypeId>, tid: TypeId): seq<(TypeId, string)>
    requires Closed(g) && tid < |g.types|
    decreases |Unvisited(g, visited)|, 0
  {
    if tid in visited then []
    else
      VisitShrinks(g, visited, tid);
      EdgesInGraph(g, tid);
      [(tid, PathString(path))] + GatheredVia(g, path, visited + [tid], Edges(g, tid))
  }

  ghost predicate InGraph(g: Graph, es: seq<Edge>) {
    forall k :: 0 <= k < |es| ==> es[k].target < |g.types|
  }

  lemma EdgesInGraph(g: Graph, tid: TypeId)
    requires Closed(g) && tid < |g.types|
    ensures InGraph(g, Edges(g, tid))
  {
    forall k | 0 <= k < |Edges(g, tid)|
      ensures Edges(g, tid)[k].target < |g.types|
    {
      var e := Taken(g, tid, k);
    }
  }

  /** The pairs recorded by following the edges `es`, one after the other. */
  function GatheredVia(g: Graph, path: seq<string>, visited: seq<TypeId>, es: seq<Edge>): seq<(TypeId, string)>
    requires Closed(g) && InGraph(g, es)
    decreases |Unvisited(g, visited)|, |es|
  {
    if es == [] then []
    else Gathered(g, path + [es[0].text], visited, es[0].target) + GatheredVia(g, path, visited, es[1..])
  }

  lemma {:induction false} GatheredViaAppend(g: Graph, path: seq<string>, visited: seq<TypeId>, a: seq<Edge>,
                                            b: seq<Edge>)
    requires Closed(g) && InGraph(g, a) && InGraph(g, b)
    ensures InGraph(g, a + b)
    ensures GatheredVia(g, path, visited, a + b) == GatheredVia(g, path, visited, a) + GatheredVia(g, path, visited, b)
    decreases |a|
  {
    if a == [] {
      assert a + b == b;
    } else {
      GatheredViaAppend(g, path, visited, a[1..], b);
      assert (a + b)[1..] == a[1..] + b;
    }
  }

  ghost predicate AreTypes(g: Graph, roots: seq<TypeId>) {
    forall k :: 0 <= k < |roots| ==> roots[k] < |g.types|
  }

  /** The pairs recorded from several roots, one after the other. */
  function GatheredFrom(g: Graph, roots: seq<TypeId>): seq<(TypeId, string)>
    requires Closed(g) && AreTypes(g, roots)
  {
    if roots == [] then []
    else GatheredFrom(g, roots[..|roots|-1]) + Gathered(g, [], [], roots[|roots|-1])
  }

  // ---------- the walks behind the records ----------

  /** The simple walks from `tid` that avoid `visited`, in depth-first order. */
  function Walks(g: Graph, visited: seq<TypeId>, tid: TypeId): seq<seq<nat>>
    requires Closed(g) && tid < |g.types|
    decreases |Unvisited(g, visited)|, 0, 0
  {
    if tid in visited then []
    else
      VisitShrinks(g, visited, tid);
      [[]] + WalksVia(g, visited + [tid], tid, 0)
  }

  /** Those that start with the edge at position `k` of `tid` or a later one. */
  function WalksVia(g: Graph, visited: seq<TypeId>, tid: TypeId, k: nat): seq<seq<nat>>
    requires Closed(g) && tid < |g.types|
    decreases |Unvisited(g, visited)|, 1, |Edges(g, tid)| - k
  {
    if k >= |Edges(g, tid)| then []
    else Extended(k, Walks(g, visited, Taken(g, tid, k).target)) + WalksVia(g, visited, tid, k + 1)
  }

  function Extended(k: nat, ws: seq<seq<nat>>): (r: seq<seq<nat>>)
    ensures |r| == |ws|
    ensures forall i :: 0 <= i < |r| ==> r[i] == [k] + ws[i]
  {
    seq(|ws|, i requires 0 <= i < |ws| => [k] + ws[i])
  }

  /** The walk list holds exactly the simple walks. */
  lemma {:induction false} WalksAreSimple(g: Graph, visited: seq<TypeId>, tid: TypeId, w: seq<nat>)
    requires Closed(g) && tid < |g.types|
    ensures w in Walks(g, visited, tid) <==> IsSimple(g, visited, tid, w)
    decreases |Unvisited(g, visited)|, 0, 0
  {
    SimpleStep(g, visited, tid, w);
    if tid !in visited {
      VisitShrinks(g, visited, tid);
      WalksViaAreSimple(g, visited + [tid], tid, 0, w);
    }
  }

  lemma {:induction false} WalksViaAreSimple(g: Graph, visited: seq<TypeId>, tid: TypeId, k: nat, w: seq<nat>)
    requires Closed(g) && tid < |g.types|
    ensures w in WalksVia(g, visited, tid, k)
       <==> && w != [] && k <= w[0] < |Edges(g, tid)|
            && IsSimple(g, visited, Taken(g, tid, w[0]).target, w[1..])
    decreases |Unvisited(g, visited)|, 1, |Edges(g, tid)| - k
  {
    hide IsSimple, Walks, Edges, Closed, Extended;
    if k < |Edges(g, tid)| {
      var ws := Walks(g, visited, Taken(g, tid, k).target);
      ExtendedMember(k, ws, w);
      if w != [] {
        WalksAreSimple(g, visited, Taken(g, tid, k).target, w[1..]);
      }
      WalksViaAreSimple(g, visited, tid, k + 1, w);
    }
  }

  lemma ExtendedMember(k: nat, ws: seq<seq<nat>>, w: seq<nat>)
    ensures w in Extended(k, ws) <==> w != [] && w[0] == k && w[1..] in ws
  {
    if w != [] && w[0] == k && w[1..] in ws {
      var i :| 0 <= i < |ws| && ws[i] == w[1..];
      assert Extended(k, ws)[i] == w;
    }
    if w in Extended(k, ws) {
      var i :| 0 <= i < |ws| && Extended(k, ws)[i] == w;
      assert w[1..] == ws[i];
    }
  }

  /** Depth-first order: a walk before its extensions, and earlier edges first. */
  predicate Before(a: seq<nat>, b: seq<nat>) {
    b != [] && (a == [] || a[0] < b[0] || (a[0] == b[0] && Before(a[1..], b[1..])))
  }

  ghost predicate Ordered(ws: seq<seq<nat>>) {
    forall i, j :: 0 <= i < j < |ws| ==> Before(ws[i], ws[j])
  }

  lemma {:induction false} BeforeIsStrict(a: seq<nat>)
    ensures !Before(a, a)
  {
    if a != [] {
      BeforeIsStrict(a[1..]);
    }
  }

  /** The walks come in depth-first order, so no walk comes twice. */
  lemma {:induction false} WalksOrdered(g: Graph, visited: seq<TypeId>, tid: TypeId)
    requires Closed(g) && tid < |g.types|
    ensures Ordered(Walks(g, visited, tid))
    decreases |Unvisited(g, visited)|, 0, 0
  {
    if tid !in visited {
      VisitShrinks(g, visited, tid);
      WalksViaOrdered(g, visited + [tid], tid, 0);
    }
  }

  lemma {:induction false} WalksViaOrdered(g: Graph, visited: seq<TypeId>, tid: TypeId, k: nat)
    requires Closed(g) && tid < |g.types|
    ensures Ordered(WalksVia(g, visited, tid, k))
    ensures forall i :: 0 <= i < |WalksVia(g, visited, tid, k)| ==>
      WalksVia(g, visited, tid, k)[i] != [] && WalksVia(g, visited, tid, k)[i][0] >= k
    decreases |Unvisited(g, visited)|, 1, |Edges(g, tid)| - k
  {
    if k < |Edges(g, tid)| {
      var ws := Walks(g, visited, Taken(g, tid, k).target);
      WalksOrdered(g, visited, Taken(g, tid, k).target);
      ExtendedOrdered(k, ws);
      WalksViaOrdered(g, visited, tid, k + 1);
      ConcatOrdered(k, Extended(k, ws), WalksVia(g, visited, tid, k + 1));
    }
  }

  lemma ExtendedOrdered(k: nat, ws: seq<seq<nat>>)
    requires Ordered(ws)
    ensures Ordered(Extended(k, ws))
  {
    var r := Extended(k, ws);
    forall i, j | 0 <= i < j < |r|
      ensures Before(r[i], r[j])
    {
      assert r[i][1..] == ws[i] && r[j][1..] == ws[j];
    }
  }

  lemma ConcatOrdered(k: nat, a: seq<seq<nat>>, b: seq<seq<nat>>)
    requires Ordered(a) && Ordered(b)
    requires forall i :: 0 <= i < |a| ==> a[i] != [] && a[i][0] == k
    requires forall i :: 0 <= i < |b| ==> b[i] != [] && b[i][0] > k
    ensures Ordered(a + b)
  {
    var r := a + b;
    forall i, j | 0 <= i < j < |r|
      ensures Before(r[i], r[j])
    {
      if i < |a| <= j {
        assert r[i] == a[i] && r[j] == b[j - |a|];
      } else if j < |a| {
        assert r[i] == a[i] && r[j] == a[j];
      } else {
        assert r[i] == b[i - |a|] && r[j] == b[j - |a|];
      }
    }
  }

  // ---------- each record belongs to its walk ----------

  /** The record of a walk: the type it ends in and its joined labels. */
  function RecordOf(g: Graph, path: seq<string>, tid: TypeId, w: seq<nat>): (TypeId, string)
    requires Closed(g) && tid < |g.types| && IsWalk(g, tid, w)
  {
    (End(g, tid, w), PathString(path + WalkLabels(g, tid, w)))
  }

  /** The records `r` belong, position by position, to the walks `ws` from `tid`. */
  ghost predicate Matches(g: Graph, path: seq<string>, tid: TypeId, r: seq<(TypeId, string)>, ws: seq<seq<nat>>)
    requires Closed(g) && tid < |g.types|
  {
    |r| == |ws| && forall i :: 0 <= i < |ws| ==> IsWalk(g, tid, ws[i]) && r[i] == RecordOf(g, path, tid, ws[i])
  }

  lemma {:induction false} GatheredMatchesWalks(g: Graph, path: seq<string>, visited: seq<TypeId>, tid: TypeId)
    requires Closed(g) && tid < |g.types|
    ensures Matches(g, path, tid, Gathered(g, path, visited, tid), Walks(g, visited, tid))
    decreases |Unvisited(g, visited)|, 0, 0
  {
    if tid !in visited {
      VisitShrinks(g, visited, tid);
      EdgesInGraph(g, tid);
      GatheredViaMatches(g, path, visited + [tid], tid, 0);
      assert Edges(g, tid)[0..] == Edges(g, tid);
      assert path + [] == path;
    }
  }

  lemma {:induction false} GatheredViaMatches(g: Graph, path: seq<string>, visited: seq<TypeId>, tid: TypeId, k: nat)
    requires Closed(g) && tid < |g.types| && InGraph(g, Edges(g, tid)) && k <= |Edges(g, tid)|
    ensures Matches(g, path, tid, GatheredVia(g, path, visited, Edges(g, tid)[k..]), WalksVia(g, visited, tid, k))
    decreases |Unvisited(g, visited)|, 1, |Edges(g, tid)| - k
  {
    if k < |Edges(g, tid)| {
      var e := Taken(g, tid, k);
      var ws := Walks(g, visited, e.target);
      GatheredMatchesWalks(g, path + [e.text], visited, e.target);
      GatheredViaMatches(g, path, visited, tid, k + 1);
      assert Edges(g, tid)[k..][1..] == Edges(g, tid)[k+1..];
      ExtendedMatches(g, path, tid, k, Gathered(g, path + [e.text], visited, e.target), ws);
      ConcatMatches(g, path, tid, Gathered(g, path + [e.text], visited, e.target), Extended(k, ws),
                    GatheredVia(g, path, visited, Edges(g, tid)[k+1..]), WalksVia(g, visited, tid, k + 1));
    }
  }

  lemma ConcatMatches(g: Graph, path: seq<string>, tid: TypeId, r: seq<(TypeId, string)>, ws: seq<seq<nat>>,
                      r': seq<(TypeId, string)>, ws': seq<seq<nat>>)
    requires Closed(g) && tid < |g.types|
    requires Matches(g, path, tid, r, ws) && Matches(g, path, tid, r', ws')
    ensures Matches(g, path, tid, r + r', ws + ws')
  {
    hide RecordOf, IsWalk;
  }

  lemma ExtendedMatches(g: Graph, path: seq<string>, tid: TypeId, k: nat, r: seq<(TypeId, string)>, ws: seq<seq<nat>>)
    requires Closed(g) && tid < |g.types| && k < |Edges(g, tid)|
    requires Matches(g, path + [Taken(g, tid, k).text], Taken(g, tid, k).target, r, ws)
    ensures Matches(g, path, tid, r, Extended(k, ws))
  {
    var e := Taken(g, tid, k);
    forall i | 0 <= i < |ws|
      ensures IsWalk(g, tid, Extended(k, ws)[i]) && r[i] == RecordOf(g, path, tid, Extended(k, ws)[i])
    {
      var w := [k] + ws[i];
      assert w[1..] == ws[i];
      assert path + WalkLabels(g, tid, w) == (path + [e.text]) + WalkLabels(g, e.target, ws[i]);
    }
  }

  /** Whatever is recorded below a path has a text that begins with that of the path, and the
      first record is the path itself. */
  lemma RecordsBegin(g: Graph, path: seq<string>, visited: seq<TypeId>, tid: TypeId)
    requires Closed(g) && tid < |g.types|
    ensures
      var r := Gathered(g, path, visited, tid);
      && (tid !in visited ==> r != [] && r[0] == (tid, PathString(path)))
      && forall i :: 0 <= i < |r| ==> PathString(path) <= r[i].1
  {
    hide Edges, Walks, PathString, WalkLabels, IsWalk;
    GatheredMatchesWalks(g, path, visited, tid);
    var r, ws := Gathered(g, path, visited, tid), Walks(g, visited, tid);
    hide Gathered;
    forall i | 0 <= i < |r|
      ensures PathString(path) <= r[i].1
    {
      assert r[i] == RecordOf(g, path, tid, ws[i]);
      PathStringAppend(path, WalkLabels(g, tid, ws[i]));
    }
    if tid !in visited {
      FirstRecord(g, path, visited, tid);
    }
  }

  lemma FirstRecord(g: Graph, path: seq<string>, visited: seq<TypeId>, tid: TypeId)
    requires Closed(g) && tid < |g.types| && tid !in visited
    ensures
      var r := Gathered(g, path, visited, tid);
      r != [] && r[0] == (tid, PathString(path))
  {
    hide PathString, Edges;
  }

  // ---------- the main results ----------

  /** From a root with nothing on the stack, the records are exactly those of the simple
      walks from the root, each walk once, in depth-first order. */
  lemma RecordsAreSimplePaths(g: Graph, root: TypeId)
    requires Closed(g) && root < |g.types|
    ensures exists ws: seq<seq<nat>> ::
      && Matches(g, [], root, Gathered(g, [], [], root), ws)
      && Ordered(ws)
      && forall w :: w in ws <==> IsSimple(g, [], root, w)
  {
    var ws := Walks(g, [], root);
    GatheredMatchesWalks(g, [], [], root);
    WalksOrdered(g, [], root);
    forall w
      ensures w in ws <==> IsSimple(g, [], root, w)
    {
      WalksAreSimple(g, [], root, w);
    }
  }

  /** A pair is recorded exactly when some simple walk ends in that type with those labels. */
  lemma RecordedIff(g: Graph, root: TypeId, t: TypeId, text: string)
    requires Closed(g) && root < |g.types|
    ensures (t, text) in Gathered(g, [], [], root)
       <==> exists w :: IsSimple(g, [], root, w) && End(g, root, w) == t && PathString(WalkLabels(g, root, w)) == text
  {
    var r, ws := Gathered(g, [], [], root), Walks(g, [], root);
    GatheredMatchesWalks(g, [], [], root);
    if (t, text) in r {
      var i :| 0 <= i < |r| && r[i] == (t, text);
      WalksAreSimple(g, [], root, ws[i]);
      assert [] + WalkLabels(g, root, ws[i]) == WalkLabels(g, root, ws[i]);
    }
    forall w | IsSimple(g, [], root, w)
      ensures (End(g, root, w), PathString(WalkLabels(g, root, w))) in r
    {
      WalksAreSimple(g, [], root, w);
      var i :| 0 <= i < |ws| && ws[i] == w;
      assert [] + WalkLabels(g, root, w) == WalkLabels(g, root, w);
      assert r[i] == RecordOf(g, [], root, w);
    }
  }

  // ---------- when label paths tell walks apart ----------

  /** The edge at position `k` of a type leads to another type. */
  ghost predicate Leaves(g: Graph, t: TypeId, k: nat)
    requires Closed(g)
  {
    t < |g.types| && k < |Edges(g, t)| && Taken(g, t, k).target != t
  }

  /** No two edges that leave a type for another one carry the same label. */
  ghost predicate LabelsDistinct(g: Graph)
    requires Closed(g)
  {
    forall t: nat, i: nat, j: nat | i < j && Leaves(g, t, i) && Leaves(g, t, j) ::
      Taken(g, t, i).text != Taken(g, t, j).text
  }

  /** Two simple walks with the same labels. */
  ghost predicate SameLabels(g: Graph, avoid: seq<TypeId>, t: TypeId, a: seq<nat>, b: seq<nat>)
    requires Closed(g) && t < |g.types|
  {
    IsSimple(g, avoid, t, a) && IsSimple(g, avoid, t, b) && WalkLabels(g, t, a) == WalkLabels(g, t, b)
  }

  /** No two simple paths from the same root have the same labels. */
  ghost predicate PathsTellApart(g: Graph)
    requires Closed(g)
  {
    forall t: nat, a, b | t < |g.types| && SameLabels(g, [], t, a, b) :: a == b
  }

  lemma {:induction false} SameLabelsSameWalk(g: Graph, avoid: seq<TypeId>, t: TypeId, a: seq<nat>, b: seq<nat>)
    requires Closed(g) && LabelsDistinct(g) && t < |g.types| && SameLabels(g, avoid, t, a, b)
    ensures a == b
    decreases |a|
  {
    if a == [] {
      assert |WalkLabels(g, t, b)| == 0;
    } else {
      assert |WalkLabels(g, t, a)| == |a| && |WalkLabels(g, t, b)| == |b|;
      SimpleStep(g, avoid, t, a);
      SimpleStep(g, avoid, t, b);
      FirstStepLeaves(g, avoid, t, a);
      FirstStepLeaves(g, avoid, t, b);
      var ea, eb := Taken(g, t, a[0]), Taken(g, t, b[0]);
      assert WalkLabels(g, t, a)[0] == ea.text && WalkLabels(g, t, b)[0] == eb.text;
      assert Leaves(g, t, a[0]) && Leaves(g, t, b[0]);
      assert a[0] == b[0];
      assert WalkLabels(g, t, a)[1..] == WalkLabels(g, ea.target, a[1..]);
      assert WalkLabels(g, t, b)[1..] == WalkLabels(g, ea.target, b[1..]);
      SameLabelsSameWalk(g, avoid + [t], ea.target, a[1..], b[1..]);
      assert a == [a[0]] + a[1..] && b == [b[0]] + b[1..];
    }
  }

  lemma FirstStepLeaves(g: Graph, avoid: seq<TypeId>, t: TypeId, w: seq<nat>)
    requires Closed(g) && t < |g.types| && IsSimple(g, avoid, t, w) && w != []
    ensures Taken(g, t, w[0]).target != t
  {
    SimpleStep(g, avoid, t, w);
    SimpleStep(g, avoid + [t], Taken(g, t, w[0]).target, w[1..]);
    assert t in avoid + [t];
  }

  /** The labels of a recorded path determine the path exactly when no type has two edges
      to other types with the same label. */
  lemma PathsTellApartIff(g: Graph)
    requires Closed(g)
    ensures PathsTellApart(g) <==> LabelsDistinct(g)
  {
    hide Edges, Closed, IsSimple, WalkLabels;
    if LabelsDistinct(g) {
      forall t: nat, a, b | t < |g.types| && SameLabels(g, [], t, a, b)
        ensures a == b
      {
        SameLabelsSameWalk(g, [], t, a, b);
      }
    }
    if PathsTellApart(g) {
      forall t: nat, i: nat, j: nat | i < j && Leaves(g, t, i) && Leaves(g, t, j)
        ensures Taken(g, t, i).text != Taken(g, t, j).text
      {
        OneSteps(g, t, i, j);
      }
    }
  }

  /** Two edges with the same label give two walks with the same labels. */
  lemma OneSteps(g: Graph, t: TypeId, i: nat, j: nat)
    requires Closed(g) && PathsTellApart(g) && i < j && Leaves(g, t, i) && Leaves(g, t, j)
    ensures Taken(g, t, i).text != Taken(g, t, j).text
  {
    hide Edges, IsSimple, Closed;
    OneStep(g, t, i);
    OneStep(g, t, j);
    assert [i][0] != [j][0];
    assert SameLabels(g, [], t, [i], [j]) <==> Taken(g, t, i).text == Taken(g, t, j).text;
  }

  /** An edge to another type is a simple walk by itself. */
  lemma OneStep(g: Graph, t: TypeId, k: nat)
    requires Closed(g) && t < |g.types| && k < |Edges(g, t)| && Taken(g, t, k).target != t
    ensures IsSimple(g, [], t, [k]) && WalkLabels(g, t, [k]) == [Taken(g, t, k).text]
    ensures End(g, t, [k]) == Taken(g, t, k).target
  {
    assert [k][1..] == [];
    SimpleStep(g, [], t, [k]);
    SimpleStep(g, [] + [t], Taken(g, t, k).target, []);
    assert Visits(g, t, [k]) == [t, Taken(g, t, k).target];
  }
}
