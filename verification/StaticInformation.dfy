/** The gathering of configuration paths as the program does it: a backtracking
    recursion over two member vectors. */
module StaticInformation {
  import opened TypeGraph
  import opened SimplePaths

  datatype Option<T> = None | Some(value: T)

  /** The position of the first type registered under a name. */
  function LookupFrom(g: Graph, name: string, k: nat): (r: Option<TypeId>)
    ensures r.Some? ==> k <= r.value < |g.types| && g.types[r.value].name == name
    ensures r.Some? ==> forall t :: k <= t < r.value ==> g.types[t].name != name
    ensures r.None? ==> forall t :: k <= t < |g.types| ==> g.types[t].name != name
    decreases |g.types| - k
  {
    if k >= |g.types| then None
    else if g.types[k].name == name then Some(k)
    else LookupFrom(g, name, k + 1)
  }

  /** The paths recorded for one type, in the order they were recorded. */
  function PathsOf(output: seq<(TypeId, string)>, tid: TypeId): seq<string> {
    if output == [] then []
    else PathsOf(output[..|output|-1], tid)
         + if output[|output|-1].0 == tid then [output[|output|-1].1] else []
  }

  lemma {:induction false} PathsOfMeaning(output: seq<(TypeId, string)>, tid: TypeId, text: string)
    ensures text in PathsOf(output, tid) <==> (tid, text) in output
  {
    if output != [] {
      var front, last := output[..|output|-1], output[|output|-1];
      PathsOfMeaning(front, tid, text);
      assert output == front + [last];
    }
  }

  class Gatherer {
    const types: seq<TypeInfo>
    const childOf: set<(TypeId, TypeId)>
    const objectType: TypeId
    var output: seq<(TypeId, string)>
    var currentPath: seq<string>
    var alreadyProcessed: seq<TypeId>
    var aggregates: seq<(TypeId, TypeId)>
    var noTids: seq<string>

    ghost function Database(): Graph
      reads this
    {
      Graph(types, childOf, objectType, aggregates)
    }

    /** The two stacks have the same height, and no type is on the stack twice. */
    ghost predicate StacksOk()
      reads this
    {
      && |currentPath| == |alreadyProcessed|
      && (forall i, j :: 0 <= i < j < |alreadyProcessed| ==> alreadyProcessed[i] != alreadyProcessed[j])
    }

    ghost predicate Valid()
      reads this
    {
      Closed(Database()) && StacksOk()
    }

    constructor (g: Graph)
      requires Closed(g) && g.aggregates == []
      ensures Valid() && Database() == g
      ensures output == [] && currentPath == [] && alreadyProcessed == [] && noTids == []
    {
      types, childOf, objectType, aggregates := g.types, g.childOf, g.objectType, [];
      output, currentPath, alreadyProcessed, noTids := [], [], [], [];
    }

    method RecordAggregationInfo(a: string, b: string)
      requires Valid()
      modifies this`aggregates, this`noTids
      ensures Valid()
      ensures
        var ta, tb := LookupFrom(old(Database()), a, 0), LookupFrom(old(Database()), b, 0);
        if ta.None? then aggregates == old(aggregates) && noTids == old(noTids) + [a]
        else if tb.None? then aggregates == old(aggregates) && noTids == old(noTids) + [b]
        else noTids == old(noTids) && aggregates == old(aggregates) + [(ta.value, tb.value)]
    {
      var ta := Lookup(a);
      if ta.None? {
        noTids := noTids + [a];
        return;
      }
      var tb := Lookup(b);
      if tb.None? {
        noTids := noTids + [b];
        return;
      }
      aggregates := aggregates + [(ta.value, tb.value)];
    }

    method Lookup(name: string) returns (r: Option<TypeId>)
      ensures r == LookupFrom(Database(), name, 0)
    {
      var k := 0;
      while k < |types|
        invariant k <= |types|
        invariant LookupFrom(Database(), name, 0) == LookupFrom(Database(), name, k)
      {
        if types[k].name == name {
          return Some(k);
        }
        k := k + 1;
      }
      r := None;
    }

    method GetCurrentPath() returns (s: string)
      ensures s == PathString(currentPath)
      ensures currentPath == [] ==> s == ""
      ensures forall m :: 0 <= m < |currentPath| ==>
        PathString(currentPath[..m]) + "/" + currentPath[m] + PathString(currentPath[m+1..]) == s
    {
      s := "";
      for i := 0 to |currentPath|
        invariant s == PathString(currentPath[..i])
      {
        assert currentPath[..i+1][..i] == currentPath[..i];
        s := s + "/" + currentPath[i];
      }
      assert currentPath[..|currentPath|] == currentPath;
      forall m | 0 <= m < |currentPath|
        ensures PathString(currentPath[..m]) + "/" + currentPath[m] + PathString(currentPath[m+1..]) == s
      {
        PathStringAround(currentPath, m);
      }
    }

    method RecordOutput(tid: TypeId)
      modifies this`output
      ensures output == old(output) + [(tid, PathString(currentPath))]
    {
      var s := GetCurrentPath();
      output := output + [(tid, s)];
    }

    method HasAlreadyBeenProcessed(tid: TypeId) returns (r: bool)
      ensures r <==> tid in alreadyProcessed
    {
      for i := 0 to |alreadyProcessed|
        invariant tid !in alreadyProcessed[..i]
      {
        if alreadyProcessed[i] == tid {
          return true;
        }
      }
      r := false;
    }

    /** The paths recorded for `tid`. */
    method Get(tid: TypeId) returns (paths: seq<string>)
      ensures paths == PathsOf(output, tid)
    {
      paths := [];
      for i := 0 to |output|
        invariant paths == PathsOf(output[..i], tid)
      {
        assert output[..i+1][..i] == output[..i];
        if output[i].0 == tid {
          paths := paths + [output[i].1];
        }
      }
      assert output[..|output|] == output;
    }

    /** Follow one edge: push, recurse, pop. Whatever is added has a text that begins with the
        current one, a slash and the label of the edge. */
    method Follow(text: string, target: TypeId, tid: TypeId)
      requires Valid() && target < |types| && tid < |types| && tid !in alreadyProcessed
      modifies this`output, this`currentPath, this`alreadyProcessed
      ensures Valid() && currentPath == old(currentPath) && alreadyProcessed == old(alreadyProcessed)
      ensures output
           == old(output) + GatheredVia(Database(), currentPath, alreadyProcessed + [tid], [Edge(text, target)])
      ensures forall i :: |old(output)| <= i < |output| ==> PathString(currentPath) + "/" + text <= output[i].1
      decreases |Unvisited(Database(), alreadyProcessed)|, 0
    {
      VisitShrinks(Database(), alreadyProcessed, tid);
      currentPath := currentPath + [text];
      alreadyProcessed := alreadyProcessed + [tid];
      RecordsBegin(Database(), currentPath, alreadyProcessed, target);
      PathStringAppend(old(currentPath), [text]);
      DoGather(target);
      alreadyProcessed := alreadyProcessed[..|alreadyProcessed|-1];
      currentPath := currentPath[..|currentPath|-1];
      assert GatheredVia(Database(), currentPath, alreadyProcessed + [tid], []) == [];
    }

    method FollowAttribute(a: Attribute, tid: TypeId)
      requires Valid() && tid < |types| && tid !in alreadyProcessed && CheckerClosed(a.checker, |types|)
      modifies this`output, this`currentPath, this`alreadyProcessed
      ensures Valid() && currentPath == old(currentPath) && alreadyProcessed == old(alreadyProcessed)
      ensures InGraph(Database(), AttributeEdge(Database(), a))
      ensures output == old(output) + Via(tid, AttributeEdge(Database(), a))
      decreases |Unvisited(Database(), alreadyProcessed)|, 1
    {
      match a.checker
      case PointerTo(pointee) =>
        if objectType != pointee {
          Follow(a.name, pointee, tid);
        }
      case ContainerOf(item) =>
        Follow(a.name + "/[i]", item, tid);
      case Plain =>
    }

    method FollowAttributes(tid: TypeId)
      requires Valid() && tid < |types| && tid !in alreadyProcessed
      modifies this`output, this`currentPath, this`alreadyProcessed
      ensures Valid() && currentPath == old(currentPath) && alreadyProcessed == old(alreadyProcessed)
      ensures InGraph(Database(), AttributeEdges(Database(), types[tid].attributes))
      ensures output == old(output) + Via(tid, AttributeEdges(Database(), types[tid].attributes))
      decreases |Unvisited(Database(), alreadyProcessed)|, 2
    {
      ghost var g := Database();
      var attrs := types[tid].attributes;
      EdgePartsInGraph(g, tid);
      assert attrs[0..] == attrs;
      for i := 0 to |attrs|
        invariant Valid() && currentPath == old(currentPath) && alreadyProcessed == old(alreadyProcessed)
        invariant InGraph(g, AttributeEdges(g, attrs[i..]))
        invariant output + Via(tid, AttributeEdges(g, attrs[i..])) == old(output) + Via(tid, AttributeEdges(g, attrs))
      {
        ghost var step, rest := AttributeEdge(g, attrs[i]), AttributeEdges(g, attrs[i+1..]);
        assert attrs[i..][1..] == attrs[i+1..];
        SplitInGraph(g, step, rest);
        ViaStep(g, currentPath, alreadyProcessed + [tid], output, step, rest);
        assert CheckerClosed(attrs[i].checker, |types|);
        FollowAttribute(attrs[i], tid);
      }
      assert attrs[|attrs|..] == [];
    }

    method FollowChildren(tid: TypeId)
      requires Valid() && tid < |types| && tid !in alreadyProcessed
      modifies this`output, this`currentPath, this`alreadyProcessed
      ensures Valid() && currentPath == old(currentPath) && alreadyProcessed == old(alreadyProcessed)
      ensures InGraph(Database(), ChildEdges(Database(), tid, 0))
      ensures output == old(output) + Via(tid, ChildEdges(Database(), tid, 0))
      decreases |Unvisited(Database(), alreadyProcessed)|, 1
    {
      hide Gathered, Edges, Unvisited;
      ghost var g := Database();
      EdgePartsInGraph(g, tid);
      for j := 0 to |types|
        invariant Valid() && currentPath == old(currentPath) && alreadyProcessed == old(alreadyProcessed)
        invariant InGraph(g, ChildEdges(g, tid, j))
        invariant output + Via(tid, ChildEdges(g, tid, j)) == old(output) + Via(tid, ChildEdges(g, tid, 0))
      {
        ghost var step := if (j, tid) in childOf then [NamedEdge(g, j)] else [];
        ghost var rest := ChildEdges(g, tid, j + 1);
        SplitInGraph(g, step, rest);
        ViaStep(g, currentPath, alreadyProcessed + [tid], output, step, rest);
        if (j, tid) in childOf {
          Follow("$" + types[j].name, j, tid);
        }
      }
    }

    method FollowAggregates(tid: TypeId)
      requires Valid() && tid < |types| && tid !in alreadyProcessed
      modifies this`output, this`currentPath, this`alreadyProcessed
      ensures Valid() && currentPath == old(currentPath) && alreadyProcessed == old(alreadyProcessed)
      ensures InGraph(Database(), AggregateEdges(Database(), tid, aggregates))
      ensures output == old(output) + Via(tid, AggregateEdges(Database(), tid, aggregates))
      decreases |Unvisited(Database(), alreadyProcessed)|, 1
    {
      hide Gathered, Edges, Unvisited;
      ghost var g := Database();
      EdgePartsInGraph(g, tid);
      assert aggregates[0..] == aggregates;
      for i := 0 to |aggregates|
        invariant Valid() && currentPath == old(currentPath) && alreadyProcessed == old(alreadyProcessed)
        invariant InGraph(g, AggregateEdges(g, tid, aggregates[i..]))
        invariant output + Via(tid, AggregateEdges(g, tid, aggregates[i..]))
               == old(output) + Via(tid, AggregateEdges(g, tid, aggregates))
      {
        var item := aggregates[i];
        ghost var rest := AggregateEdges(g, tid, aggregates[i+1..]);
        ghost var step := AggregateEdges(g, tid, aggregates[i..])[..|AggregateEdges(g, tid, aggregates[i..])| - |rest|];
        assert aggregates[i..][1..] == aggregates[i+1..];
        assert AggregateEdges(g, tid, aggregates[i..]) == step + rest;
        SplitInGraph(g, step, rest);
        ViaStep(g, currentPath, alreadyProcessed + [tid], output, step, rest);
        if item.0 == tid || item.1 == tid {
          var other := item.1;
          if item.1 == tid {
            other := item.0;
          }
          assert step == [NamedEdge(g, other)];
          Follow("$" + types[other].name, other, tid);
        } else {
          assert step == [];
        }
      }
    }

    /** What following the edges `es` of `tid` records with the stacks as they are. */
    ghost function Via(tid: TypeId, es: seq<Edge>): seq<(TypeId, string)>
      reads this
      requires Valid() && InGraph(Database(), es)
    {
      GatheredVia(Database(), currentPath, alreadyProcessed + [tid], es)
    }

    /** Both stacks come back unchanged, and the output grows by the records of the
        simple paths below `tid`. */
    method DoGather(tid: TypeId)
      requires Valid() && tid < |types|
      modifies this`output, this`currentPath, this`alreadyProcessed
      ensures Valid() && currentPath == old(currentPath) && alreadyProcessed == old(alreadyProcessed)
      ensures output == old(output) + Gathered(Database(), currentPath, alreadyProcessed, tid)
      decreases |Unvisited(Database(), alreadyProcessed)|, 3
    {
      var processed := HasAlreadyBeenProcessed(tid);
      if processed {
        return;
      }
      ViaParts(Database(), output, currentPath, alreadyProcessed, tid);
      RecordOutput(tid);
      FollowAttributes(tid);
      FollowChildren(tid);
      FollowAggregates(tid);
    }

    /** Gathering from a root object; the copy that the program sorts and removes
        duplicates from is discarded, so the recorded pairs stay as they are. */
    method Gather(tid: TypeId)
      requires Valid() && currentPath == [] && tid < |types|
      modifies this`output, this`currentPath, this`alreadyProcessed
      ensures Valid() && currentPath == [] && alreadyProcessed == []
      ensures output == old(output) + Gathered(Database(), [], [], tid)
    {
      assert alreadyProcessed == [];
      DoGather(tid);
    }

    /** Gathering from the types of the root objects, as the main program does. */
    method GatherRoots(roots: seq<TypeId>)
      requires Valid() && currentPath == [] && AreTypes(Database(), roots)
      modifies this`output, this`currentPath, this`alreadyProcessed
      ensures Valid() && currentPath == []
      ensures output == old(output) + GatheredFrom(Database(), roots)
    {
      for i := 0 to |roots|
        invariant Valid() && currentPath == []
        invariant output == old(output) + GatheredFrom(Database(), roots[..i])
      {
        assert roots[..i+1] == roots[..i] + [roots[i]];
        Gather(roots[i]);
      }
      assert roots[..|roots|] == roots;
    }
  }

  /** The text of a path around one of its labels. */
  lemma PathStringAround(p: seq<string>, m: nat)
    requires m < |p|
    ensures PathString(p[..m]) + "/" + p[m] + PathString(p[m+1..]) == PathString(p)
  {
    hide PathString;
    var front, tail := p[..m], p[m+1..];
    var middle := front + [p[m]];
    assert p == middle + tail;
    PathStringAppend(middle, tail);
    PathStringAppend(front, [p[m]]);
  }

  lemma SplitInGraph(g: Graph, a: seq<Edge>, b: seq<Edge>)
    requires InGraph(g, a + b)
    ensures InGraph(g, a) && InGraph(g, b)
  {
    forall k | 0 <= k < |b|
      ensures b[k].target < |g.types|
    {
      assert (a + b)[|a| + k] == b[k];
    }
    forall k | 0 <= k < |a|
      ensures a[k].target < |g.types|
    {
      assert (a + b)[k] == a[k];
    }
  }

  lemma EdgePartsInGraph(g: Graph, tid: TypeId)
    requires Closed(g) && tid < |g.types|
    ensures InGraph(g, AttributeEdges(g, g.types[tid].attributes))
    ensures InGraph(g, ChildEdges(g, tid, 0)) && InGraph(g, AggregateEdges(g, tid, g.aggregates))
  {
    EdgesInGraph(g, tid);
    var a, b := AttributeEdges(g, g.types[tid].attributes), ChildEdges(g, tid, 0);
    var c := AggregateEdges(g, tid, g.aggregates);
    SplitInGraph(g, a + b, c);
    SplitInGraph(g, a, b);
  }

  lemma ViaStep(g: Graph, path: seq<string>, visited: seq<TypeId>, out: seq<(TypeId, string)>, step: seq<Edge>,
                rest: seq<Edge>)
    requires Closed(g) && InGraph(g, step) && InGraph(g, rest)
    ensures InGraph(g, step + rest)
    ensures out + GatheredVia(g, path, visited, step + rest)
         == (out + GatheredVia(g, path, visited, step)) + GatheredVia(g, path, visited, rest)
  {
    GatheredViaAppend(g, path, visited, step, rest);
  }

  /** The record of a type followed by those of its three groups of edges. */
  lemma ViaParts(g: Graph, out: seq<(TypeId, string)>, path: seq<string>, visited: seq<TypeId>, tid: TypeId)
    requires Closed(g) && tid < |g.types| && tid !in visited
    ensures InGraph(g, AttributeEdges(g, g.types[tid].attributes))
    ensures InGraph(g, ChildEdges(g, tid, 0)) && InGraph(g, AggregateEdges(g, tid, g.aggregates))
    ensures out + Gathered(g, path, visited, tid)
         == out + [(tid, PathString(path))]
            + GatheredVia(g, path, visited + [tid], AttributeEdges(g, g.types[tid].attributes))
            + GatheredVia(g, path, visited + [tid], ChildEdges(g, tid, 0))
            + GatheredVia(g, path, visited + [tid], AggregateEdges(g, tid, g.aggregates))
  {
    EdgePartsInGraph(g, tid);
    EdgesInGraph(g, tid);
    var a, b := AttributeEdges(g, g.types[tid].attributes), ChildEdges(g, tid, 0);
    var c := AggregateEdges(g, tid, g.aggregates);
    var start := out + [(tid, PathString(path))];
    ViaStep(g, path, visited + [tid], start, a + b, c);
    ViaStep(g, path, visited + [tid], start, a, b);
    Associate(out, [(tid, PathString(path))], GatheredVia(g, path, visited + [tid], Edges(g, tid)));
  }

  lemma Associate<T>(a: seq<T>, b: seq<T>, c: seq<T>)
    ensures a + (b + c) == (a + b) + c
  {
  }

  // ---------- what is reported ----------

  /** The walks among `ws` that are recorded as the pair `(t, text)`. */
  ghost function RecordedAs(g: Graph, root: TypeId, ws: seq<seq<nat>>, t: TypeId, text: string): set<seq<nat>>
    requires Closed(g) && root < |g.types|
  {
    set w | w in ws && IsWalk(g, root, w) && RecordOf(g, [], root, w) == (t, text)
  }

  /** A text is reported as often as there are walks recorded under it. */
  lemma {:induction false} CountReported(g: Graph, root: TypeId, r: seq<(TypeId, string)>, ws: seq<seq<nat>>,
                                         t: TypeId, text: string)
    requires Closed(g) && root < |g.types| && Matches(g, [], root, r, ws) && Ordered(ws)
    ensures multiset(PathsOf(r, t))[text] == |RecordedAs(g, root, ws, t, text)|
    decreases |ws|
  {
    hide Before, RecordOf, IsWalk, Closed;
    if ws == [] {
      assert RecordedAs(g, root, ws, t, text) == {};
    } else {
      var n := |ws| - 1;
      CountReported(g, root, r[..n], ws[..n], t, text);
      AddWalk(g, root, ws, t, text);
    }
  }

  lemma AddWalk(g: Graph, root: TypeId, ws: seq<seq<nat>>, t: TypeId, text: string)
    requires Closed(g) && root < |g.types| && ws != [] && Ordered(ws) && IsWalk(g, root, ws[|ws|-1])
    ensures
      var n := |ws| - 1;
      |RecordedAs(g, root, ws, t, text)|
      == |RecordedAs(g, root, ws[..n], t, text)| + if RecordOf(g, [], root, ws[n]) == (t, text) then 1 else 0
  {
    hide Before, RecordOf, IsWalk, Closed;
    var n := |ws| - 1;
    var front, last := ws[..n], ws[n];
    BeforeIsStrict(last);
    assert last !in front;
    assert ws == front + [last];
    var before := RecordedAs(g, root, front, t, text);
    assert RecordedAs(g, root, ws, t, text)
        == if RecordOf(g, [], root, last) == (t, text) then before + {last} else before;
  }

  /** The configuration paths reported for a type after gathering from a root: a text comes
      once for every simple path from the root to the type that is printed like it. */
  lemma ConfigurationPaths(g: Graph, root: TypeId, t: TypeId, text: string)
    requires Closed(g) && root < |g.types|
    ensures
      var ws := RecordedAs(g, root, Walks(g, [], root), t, text);
      && multiset(PathsOf(Gathered(g, [], [], root), t))[text] == |ws|
      && forall w :: w in ws <==>
           IsSimple(g, [], root, w) && End(g, root, w) == t && PathString(WalkLabels(g, root, w)) == text
  {
    hide Edges, Gathered, Walks, Fresh, PathString, PathsOf;
    GatheredMatchesWalks(g, [], [], root);
    WalksOrdered(g, [], root);
    CountReported(g, root, Gathered(g, [], [], root), Walks(g, [], root), t, text);
    forall w
      ensures w in Walks(g, [], root) <==> IsSimple(g, [], root, w)
    {
      WalksAreSimple(g, [], root, w);
    }
    forall w | IsSimple(g, [], root, w)
      ensures RecordOf(g, [], root, w) == (End(g, root, w), PathString(WalkLabels(g, root, w)))
    {
      assert [] + WalkLabels(g, root, w) == WalkLabels(g, root, w);
    }
  }
}
