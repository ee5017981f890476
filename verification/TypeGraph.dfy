/** The type database as a finite labelled graph, and its simple paths. */
module TypeGraph {

  type TypeId = nat

  /** What an attribute's checker says about the value the attribute holds. */
  datatype Checker = PointerTo(pointee: TypeId) | ContainerOf(item: TypeId) | Plain

  datatype Attribute = Attribute(name: string, checker: Checker)

  datatype TypeInfo = TypeInfo(name: string, attributes: seq<Attribute>)

  /** The registered types in registration order, the transitive child relation
      (child, ancestor), the plain Object type, and the declared aggregations. */
  datatype Graph = Graph(types: seq<TypeInfo>, childOf: set<(TypeId, TypeId)>,
                         objectType: TypeId, aggregates: seq<(TypeId, TypeId)>)

  /** Every type mentioned anywhere is registered. */
  ghost predicate Closed(g: Graph) {
    && (forall t, k :: 0 <= t < |g.types| && 0 <= k < |g.types[t].attributes| ==>
          CheckerClosed(g.types[t].attributes[k].checker, |g.types|))
    && (forall k :: 0 <= k < |g.aggregates| ==> g.aggregates[k].0 < |g.types| && g.aggregates[k].1 < |g.types|)
  }

  predicate CheckerClosed(ch: Checker, n: nat) {
    match ch
    case PointerTo(t) => t < n
    case ContainerOf(t) => t < n
    case Plain => true
  }

  datatype Edge = Edge(text: string, target: TypeId)

  // ---------- the edges of a type, in the order the program visits them ----------

  function AttributeEdge(g: Graph, a: Attribute): seq<Edge> {
    match a.checker
    case PointerTo(t) => if t == g.objectType then [] else [Edge(a.name, t)]
    case ContainerOf(t) => [Edge(a.name + "/[i]", t)]
    case Plain => []
  }

  function AttributeEdges(g: Graph, attrs: seq<Attribute>): seq<Edge> {
    if attrs == [] then [] else AttributeEdge(g, attrs[0]) + AttributeEdges(g, attrs[1..])
  }

  function NamedEdge(g: Graph, t: TypeId): Edge
    requires t < |g.types|
  {
    Edge("$" + g.types[t].name, t)
  }

  /** The edges to the children of `tid` among the types registered from number `j` on. */
  function ChildEdges(g: Graph, tid: TypeId, j: nat): seq<Edge>
    decreases |g.types| - j
  {
    if j >= |g.types| then []
    else (if (j, tid) in g.childOf then [NamedEdge(g, j)] else []) + ChildEdges(g, tid, j + 1)
  }

  function AggregateEdges(g: Graph, tid: TypeId, aggs: seq<(TypeId, TypeId)>): seq<Edge>
    requires forall k :: 0 <= k < |aggs| ==> aggs[k].0 < |g.types| && aggs[k].1 < |g.types|
  {
    if aggs == [] then []
    else
      (if aggs[0].1 == tid then [NamedEdge(g, aggs[0].0)]
       else if aggs[0].0 == tid then [NamedEdge(g, aggs[0].1)]
       else [])
      + AggregateEdges(g, tid, aggs[1..])
  }

  function Edges(g: Graph, tid: TypeId): seq<Edge>
    requires Closed(g) && tid < |g.types|
  {
    AttributeEdges(g, g.types[tid].attributes) + ChildEdges(g, tid, 0) + AggregateEdges(g, tid, g.aggregates)
  }

  /** The edges come in the order of the attributes, ... */
  lemma {:induction false} AttributesInOrder(g: Graph, a: seq<Attribute>, b: seq<Attribute>)
    ensures AttributeEdges(g, a + b) == AttributeEdges(g, a) + AttributeEdges(g, b)
    decreases |a|
  {
    if a == [] {
      assert a + b == b;
    } else {
      assert (a + b)[0] == a[0] && (a + b)[1..] == a[1..] + b;
      AttributesInOrder(g, a[1..], b);
    }
  }

  /** ... then of the registration of the children, ... */
  lemma {:induction false} ChildrenInOrder(g: Graph, tid: TypeId, j: nat)
    ensures forall k :: 0 <= k < |ChildEdges(g, tid, j)| ==> j <= ChildEdges(g, tid, j)[k].target
    ensures forall k, m :: 0 <= k < m < |ChildEdges(g, tid, j)| ==>
      ChildEdges(g, tid, j)[k].target < ChildEdges(g, tid, j)[m].target
    decreases |g.types| - j
  {
    if j < |g.types| {
      ChildrenInOrder(g, tid, j + 1);
    }
  }

  /** ... then of the declaration of the aggregations. */
  lemma {:induction false} AggregatesInOrder(g: Graph, tid: TypeId, a: seq<(TypeId, TypeId)>, b: seq<(TypeId, TypeId)>)
    requires forall k :: 0 <= k < |a| ==> a[k].0 < |g.types| && a[k].1 < |g.types|
    requires forall k :: 0 <= k < |b| ==> b[k].0 < |g.types| && b[k].1 < |g.types|
    ensures AggregateEdges(g, tid, a + b) == AggregateEdges(g, tid, a) + AggregateEdges(g, tid, b)
    decreases |a|
  {
    if a == [] {
      assert a + b == b;
    } else {
      assert (a + b)[0] == a[0] && (a + b)[1..] == a[1..] + b;
      AggregatesInOrder(g, tid, a[1..], b);
    }
  }

  /** At every edge of a type: the edges before it and behind it, by group. */
  lemma EdgesInOrder(g: Graph, tid: TypeId)
    requires Closed(g) && tid < |g.types|
    ensures AttributeEdges(g, g.types[tid].attributes) <= Edges(g, tid)
    ensures
      var (a, n) := (|AttributeEdges(g, g.types[tid].attributes)|, |AggregateEdges(g, tid, g.aggregates)|);
      && a + n <= |Edges(g, tid)|
      && Edges(g, tid)[|Edges(g, tid)| - n..] == AggregateEdges(g, tid, g.aggregates)
      && forall k, m :: a <= k < m < |Edges(g, tid)| - n ==> Edges(g, tid)[k].target < Edges(g, tid)[m].target
  {
    ChildrenInOrder(g, tid, 0);
  }

  // ---------- what an edge means ----------

  ghost predicate AttributeStep(g: Graph, attrs: seq<Attribute>, e: Edge) {
    exists a :: a in attrs
      && ((a.checker == PointerTo(e.target) && e.target != g.objectType && e.text == a.name)
          || (a.checker == ContainerOf(e.target) && e.text == a.name + "/[i]"))
  }

  ghost predicate ChildStep(g: Graph, tid: TypeId, j: nat, e: Edge) {
    j <= e.target < |g.types| && (e.target, tid) in g.childOf && e == NamedEdge(g, e.target)
  }

  ghost predicate AggregateStep(g: Graph, tid: TypeId, aggs: seq<(TypeId, TypeId)>, e: Edge) {
    && e.target < |g.types| && e == NamedEdge(g, e.target)
    && ((tid, e.target) in aggs || (e.target, tid) in aggs)
  }

  lemma {:induction false} AttributeEdgesMeaning(g: Graph, attrs: seq<Attribute>, e: Edge)
    ensures e in AttributeEdges(g, attrs) <==> AttributeStep(g, attrs, e)
  {
    if attrs != [] {
      AttributeEdgesMeaning(g, attrs[1..], e);
      assert attrs == [attrs[0]] + attrs[1..];
    }
  }

  lemma {:induction false} ChildEdgesMeaning(g: Graph, tid: TypeId, j: nat, e: Edge)
    ensures e in ChildEdges(g, tid, j) <==> ChildStep(g, tid, j, e)
    decreases |g.types| - j
  {
    if j < |g.types| {
      ChildEdgesMeaning(g, tid, j + 1, e);
    }
  }

  lemma {:induction false} AggregateEdgesMeaning(g: Graph, tid: TypeId, aggs: seq<(TypeId, TypeId)>, e: Edge)
    requires forall k :: 0 <= k < |aggs| ==> aggs[k].0 < |g.types| && aggs[k].1 < |g.types|
    ensures e in AggregateEdges(g, tid, aggs) <==> AggregateStep(g, tid, aggs, e)
  {
    if aggs != [] {
      AggregateEdgesMeaning(g, tid, aggs[1..], e);
      assert aggs == [aggs[0]] + aggs[1..];
    }
  }

  /** A type has an edge to another exactly through a pointer attribute (unless it points
      to plain Object), a container attribute, the child relation, or an aggregation in
      either direction. */
  lemma EdgesMeaning(g: Graph, tid: TypeId, e: Edge)
    requires Closed(g) && tid < |g.types|
    ensures e in Edges(g, tid)
       <==> AttributeStep(g, g.types[tid].attributes, e) || ChildStep(g, tid, 0, e)
             || AggregateStep(g, tid, g.aggregates, e)
  {
    AttributeEdgesMeaning(g, g.types[tid].attributes, e);
    ChildEdgesMeaning(g, tid, 0, e);
    AggregateEdgesMeaning(g, tid, g.aggregates, e);
  }

  lemma EdgeInGraph(g: Graph, tid: TypeId, e: Edge)
    requires Closed(g) && tid < |g.types| && e in Edges(g, tid)
    ensures e.target < |g.types|
  {
    EdgesMeaning(g, tid, e);
    if AttributeStep(g, g.types[tid].attributes, e) {
      var a :| a in g.types[tid].attributes && (a.checker == PointerTo(e.target) || a.checker == ContainerOf(e.target));
      var k :| 0 <= k < |g.types[tid].attributes| && g.types[tid].attributes[k] == a;
      assert CheckerClosed(g.types[tid].attributes[k].checker, |g.types|);
    }
  }

  // ---------- walks, written as the positions of the edges taken ----------

  /** The edge at position `k` of a type. */
  function Taken(g: Graph, tid: TypeId, k: nat): (e: Edge)
    requires Closed(g) && tid < |g.types| && k < |Edges(g, tid)|
    ensures e.target < |g.types| && e in Edges(g, tid)
  {
    EdgeInGraph(g, tid, Edges(g, tid)[k]);
    Edges(g, tid)[k]
  }

  ghost predicate IsWalk(g: Graph, tid: TypeId, w: seq<nat>)
    requires Closed(g) && tid < |g.types|
    decreases |w|
  {
    w != [] ==>
      && w[0] < |Edges(g, tid)|
      && IsWalk(g, Taken(g, tid, w[0]).target, w[1..])
  }

  /** The types a walk visits, the starting one included. */
  function Visits(g: Graph, tid: TypeId, w: seq<nat>): (r: seq<TypeId>)
    requires Closed(g) && tid < |g.types| && IsWalk(g, tid, w)
    ensures |r| == |w| + 1 && r[0] == tid
    ensures forall i :: 0 <= i < |r| ==> r[i] < |g.types|
    decreases |w|
  {
    [tid] + if w == [] then [] else Visits(g, Taken(g, tid, w[0]).target, w[1..])
  }

  /** The labels of the edges of a walk. */
  function WalkLabels(g: Graph, tid: TypeId, w: seq<nat>): (r: seq<string>)
    requires Closed(g) && tid < |g.types| && IsWalk(g, tid, w)
    ensures |r| == |w|
    decreases |w|
  {
    if w == [] then []
    else [Taken(g, tid, w[0]).text] + WalkLabels(g, Taken(g, tid, w[0]).target, w[1..])
  }

  /** The type a walk ends in. */
  function End(g: Graph, tid: TypeId, w: seq<nat>): TypeId
    requires Closed(g) && tid < |g.types| && IsWalk(g, tid, w)
  {
    Visits(g, tid, w)[|w|]
  }

  /** No repetition in `v`, and nothing of `avoid` in it. */
  ghost predicate Fresh(avoid: seq<TypeId>, v: seq<TypeId>) {
    && (forall i :: 0 <= i < |v| ==> v[i] !in avoid)
    && (forall i, j :: 0 <= i < j < |v| ==> v[i] != v[j])
  }

  /** A walk that visits no type twice and none of the types in `avoid`. */
  ghost predicate IsSimple(g: Graph, avoid: seq<TypeId>, tid: TypeId, w: seq<nat>)
    requires Closed(g) && tid < |g.types|
  {
    && IsWalk(g, tid, w)
    && Fresh(avoid, Visits(g, tid, w))
  }

  /** Simplicity one step at a time: the walk goes on avoiding the type it leaves. */
  lemma SimpleStep(g: Graph, avoid: seq<TypeId>, tid: TypeId, w: seq<nat>)
    requires Closed(g) && tid < |g.types|
    ensures IsSimple(g, avoid, tid, w)
       <==> && tid !in avoid
            && (w != [] ==> w[0] < |Edges(g, tid)| && IsSimple(g, avoid + [tid], Taken(g, tid, w[0]).target, w[1..]))
  {
    if w != [] && IsWalk(g, tid, w) {
      var rest := Visits(g, Taken(g, tid, w[0]).target, w[1..]);
      assert Visits(g, tid, w) == [tid] + rest;
      if IsSimple(g, avoid + [tid], Taken(g, tid, w[0]).target, w[1..]) && tid !in avoid {
        SimpleCons(avoid, tid, rest);
      } else if IsSimple(g, avoid, tid, w) {
        SimpleTail(avoid, tid, rest);
      }
    }
  }

  lemma SimpleCons(avoid: seq<TypeId>, tid: TypeId, rest: seq<TypeId>)
    requires tid !in avoid && Fresh(avoid + [tid], rest)
    ensures Fresh(avoid, [tid] + rest)
  {
    forall i | 0 <= i < |rest|
      ensures rest[i] !in avoid && rest[i] != tid
    {
      assert rest[i] !in avoid + [tid];
    }
  }

  lemma SimpleTail(avoid: seq<TypeId>, tid: TypeId, rest: seq<TypeId>)
    requires Fresh(avoid, [tid] + rest)
    ensures tid !in avoid && Fresh(avoid + [tid], rest)
  {
    var v := [tid] + rest;
    assert v[0] == tid;
    forall i | 0 <= i < |rest|
      ensures rest[i] !in avoid + [tid]
    {
      assert v[i + 1] == rest[i];
    }
    forall i, j | 0 <= i < j < |rest|
      ensures rest[i] != rest[j]
    {
      assert v[i + 1] == rest[i] && v[j + 1] == rest[j];
    }
  }
}
