/** When the same (type, path) pair is recorded twice. */
module RepeatedPaths {
  import opened TypeGraph
  import opened SimplePaths

  // ---------- a printed path determines its labels ----------

  /** A name that cannot be mistaken for part of a longer path. */
  predicate PlainName(s: string) {
    '/' !in s && s != "[i]"
  }

  const ITEM := "/[i]"

  /** A plain name, or one with the suffix of a container. */
  predicate GoodLabel(s: string) {
    PlainName(s) || (|s| >= |ITEM| && s[|s| - |ITEM|..] == ITEM && PlainName(s[..|s| - |ITEM|]))
  }

  ghost predicate GoodLabels(path: seq<string>) {
    forall k :: 0 <= k < |path| ==> GoodLabel(path[k])
  }

  lemma LongerHasSlash(p: string, a: string, q: string, b: string)
    requires p + "/" + a == q + "/" + b
    ensures |a| < |b| ==> '/' in b
  {
    if |a| < |b| {
      var s := p + "/" + a;
      assert s[|s| - |a| - 1] == '/' && s[|s| - |a| - 1] == b[|b| - |a| - 1];
    }
  }

  /** The part of a text behind its last slash is unique. */
  lemma LastSegment(p: string, a: string, q: string, b: string)
    requires p + "/" + a == q + "/" + b && '/' !in a && '/' !in b
    ensures a == b && p == q
  {
    var s := p + "/" + a;
    LongerHasSlash(p, a, q, b);
    LongerHasSlash(q, b, p, a);
    assert a == s[|s| - |a|..] == b;
    assert p == s[..|s| - |a| - 1] == q;
  }

  lemma SplitItem(a: string)
    requires GoodLabel(a) && !PlainName(a)
    ensures PlainName(a[..|a| - |ITEM|]) && a == a[..|a| - |ITEM|] + "/" + "[i]"
  {
    assert ITEM == "/" + "[i]";
  }

  /** The last labels of two equal paths agree, and so do the paths before them. */
  lemma LastLabel(p: string, a: string, q: string, b: string)
    requires p + "/" + a == q + "/" + b && GoodLabel(a) && GoodLabel(b)
    ensures a == b && p == q
  {
    if PlainName(a) && PlainName(b) {
      LastSegment(p, a, q, b);
    } else if PlainName(a) {
      SplitItem(b);
      var y := b[..|b| - |ITEM|];
      assert q + "/" + (y + "/" + "[i]") == (q + "/" + y) + "/" + "[i]";
      LastSegment(p, a, q + "/" + y, "[i]");
    } else if PlainName(b) {
      SplitItem(a);
      var x := a[..|a| - |ITEM|];
      assert p + "/" + (x + "/" + "[i]") == (p + "/" + x) + "/" + "[i]";
      LastSegment(p + "/" + x, "[i]", q, b);
    } else {
      SplitItem(a);
      SplitItem(b);
      var x, y := a[..|a| - |ITEM|], b[..|b| - |ITEM|];
      assert p + "/" + (x + "/" + "[i]") == (p + "/" + x) + "/" + "[i]";
      assert q + "/" + (y + "/" + "[i]") == (q + "/" + y) + "/" + "[i]";
      LastSegment(p + "/" + x, "[i]", q + "/" + y, "[i]");
      LastSegment(p, x, q, y);
    }
  }

  /** Paths of good labels with the same text are the same. */
  lemma {:induction false} PathStringInjective(a: seq<string>, b: seq<string>)
    requires GoodLabels(a) && GoodLabels(b) && PathString(a) == PathString(b)
    ensures a == b
    decreases |a|
  {
    if a != [] && b != [] {
      var m, n := |a| - 1, |b| - 1;
      LastLabel(PathString(a[..m]), a[m], PathString(b[..n]), b[n]);
      PathStringInjective(a[..m], b[..n]);
      assert a == a[..m] + [a[m]] && b == b[..n] + [b[n]];
    }
  }

  /** Attribute names are plain and type names have no slash. */
  ghost predicate NamesOk(g: Graph) {
    && (forall t :: 0 <= t < |g.types| ==> '/' !in g.types[t].name)
    && (forall t, k :: 0 <= t < |g.types| && 0 <= k < |g.types[t].attributes| ==>
          PlainName(g.types[t].attributes[k].name))
  }

  lemma EdgeLabelGood(g: Graph, t: TypeId, k: nat)
    requires Closed(g) && NamesOk(g) && t < |g.types| && k < |Edges(g, t)|
    ensures GoodLabel(Taken(g, t, k).text)
  {
    hide Edges;
    var e := Taken(g, t, k);
    EdgesMeaning(g, t, e);
    if AttributeStep(g, g.types[t].attributes, e) {
      var a :| a in g.types[t].attributes && (e.text == a.name || e.text == a.name + "/[i]");
      var m :| 0 <= m < |g.types[t].attributes| && g.types[t].attributes[m] == a;
      assert PlainName(g.types[t].attributes[m].name);
      if e.text == a.name + ITEM {
        assert e.text[..|e.text| - |ITEM|] == a.name && e.text[|e.text| - |ITEM|..] == ITEM;
      }
    } else {
      assert e.text == "$" + g.types[e.target].name && e.text[0] == '$' && "[i]"[0] == '[';
      assert '/' !in g.types[e.target].name;
    }
  }

  lemma {:induction false} WalkLabelsGood(g: Graph, t: TypeId, w: seq<nat>)
    requires Closed(g) && NamesOk(g) && t < |g.types| && IsWalk(g, t, w)
    ensures GoodLabels(WalkLabels(g, t, w))
    decreases |w|
  {
    if w != [] {
      EdgeLabelGood(g, t, w[0]);
      WalkLabelsGood(g, Taken(g, t, w[0]).target, w[1..]);
    }
  }

  // ---------- going on from a walk ----------

  /** A simple walk and its continuation by an edge: the text recorded for the longer one is
      that of the shorter one, a slash and the label of the edge. */
  lemma ExtendedText(g: Graph, t: TypeId, w: seq<nat>, k: nat)
    requires Closed(g) && t < |g.types| && IsSimple(g, [], t, w)
    requires k < |Edges(g, End(g, t, w))| && Taken(g, End(g, t, w), k).target !in Visits(g, t, w)
    ensures
      var e := Taken(g, End(g, t, w), k);
      && (End(g, t, w), PathString(WalkLabels(g, t, w))) in Gathered(g, [], [], t)
      && (e.target, PathString(WalkLabels(g, t, w)) + "/" + e.text) in Gathered(g, [], [], t)
    ensures (t, "") in Gathered(g, [], [], t)
  {
    hide Edges, Gathered, PathString, Visits, WalkLabels, Fresh;
    var e := Taken(g, End(g, t, w), k);
    assert [] + Visits(g, t, w) == Visits(g, t, w);
    ExtendWalk(g, [], t, w, k);
    RecordedIff(g, t, End(g, t, w), PathString(WalkLabels(g, t, w)));
    RecordedIff(g, t, e.target, PathString(WalkLabels(g, t, w + [k])));
    PathStringAppend(WalkLabels(g, t, w), [e.text]);
    PathStringAppend([], []);
    FirstRecord(g, [], [], t);
  }

  /** An edge to a type that was not visited continues a simple walk. */
  lemma {:induction false} ExtendWalk(g: Graph, avoid: seq<TypeId>, t: TypeId, w: seq<nat>, k: nat)
    requires Closed(g) && t < |g.types| && IsSimple(g, avoid, t, w)
    requires k < |Edges(g, End(g, t, w))|
    requires Taken(g, End(g, t, w), k).target !in avoid + Visits(g, t, w)
    ensures IsSimple(g, avoid, t, w + [k])
    ensures WalkLabels(g, t, w + [k]) == WalkLabels(g, t, w) + [Taken(g, End(g, t, w), k).text]
    ensures End(g, t, w + [k]) == Taken(g, End(g, t, w), k).target
    decreases |w|
  {
    hide Edges, Fresh, Visits, WalkLabels, IsWalk;
    var e := Taken(g, End(g, t, w), k);
    SimpleStep(g, avoid, t, w);
    if w == [] {
      assert w + [k] == [k];
      EndVisited(g, t, w);
      NoLabels(g, t);
      FirstEdge(g, avoid, t, k);
    } else {
      var u := Taken(g, t, w[0]).target;
      SimpleStep(g, avoid, t, w + [k]);
      assert (w + [k])[1..] == w[1..] + [k] && (w + [k])[0] == w[0];
      TailVisits(g, avoid, t, w, e.target);
      ExtendWalk(g, avoid + [t], u, w[1..], k);
      TailLabels(g, t, w);
      TailLabels(g, t, w + [k]);
    }
  }

  lemma NoLabels(g: Graph, t: TypeId)
    requires Closed(g) && t < |g.types|
    ensures IsWalk(g, t, []) && WalkLabels(g, t, []) == [] && End(g, t, []) == t
  {
  }

  /** The labels of a walk are that of its first edge and those of the rest. */
  lemma TailLabels(g: Graph, t: TypeId, w: seq<nat>)
    requires Closed(g) && t < |g.types| && IsWalk(g, t, w) && w != []
    ensures
      var e := Taken(g, t, w[0]);
      && IsWalk(g, e.target, w[1..])
      && WalkLabels(g, t, w) == [e.text] + WalkLabels(g, e.target, w[1..])
      && End(g, t, w) == End(g, e.target, w[1..])
  {
    hide Edges, Closed, Taken;
  }

  lemma FirstEdge(g: Graph, avoid: seq<TypeId>, t: TypeId, k: nat)
    requires Closed(g) && t < |g.types| && t !in avoid && k < |Edges(g, t)|
    requires Taken(g, t, k).target !in avoid && Taken(g, t, k).target != t
    ensures IsSimple(g, avoid, t, [k])
    ensures WalkLabels(g, t, [k]) == [Taken(g, t, k).text] && End(g, t, [k]) == Taken(g, t, k).target
  {
    hide Edges, Fresh;
    var u := Taken(g, t, k).target;
    assert [k][1..] == [];
    SimpleStep(g, avoid, t, [k]);
    SimpleStep(g, avoid + [t], u, []);
  }

  /** The visits of a walk are its first type and those of the rest. */
  lemma TailVisits(g: Graph, avoid: seq<TypeId>, t: TypeId, w: seq<nat>, x: TypeId)
    requires Closed(g) && t < |g.types| && IsWalk(g, t, w) && w != []
    ensures IsWalk(g, Taken(g, t, w[0]).target, w[1..])
    ensures End(g, t, w) == End(g, Taken(g, t, w[0]).target, w[1..])
    ensures x in avoid + Visits(g, t, w) <==> x in (avoid + [t]) + Visits(g, Taken(g, t, w[0]).target, w[1..])
  {
    hide Edges;
    assert Visits(g, t, w) == [t] + Visits(g, Taken(g, t, w[0]).target, w[1..]);
  }

  // ---------- two walks with the same labels ----------

  /** Two edges of a type with the same label lead to the same type. */
  ghost predicate LabelsDetermine(g: Graph)
    requires Closed(g)
  {
    forall t: nat, i: nat, j: nat | t < |g.types| && i < |Edges(g, t)| && j < |Edges(g, t)| ::
      Taken(g, t, i).text == Taken(g, t, j).text ==> Taken(g, t, i).target == Taken(g, t, j).target
  }

  /** The walk `w` ends in a type that has two equal edges, at positions `i` and `j`, to a
      type not visited yet. */
  ghost predicate Forks(g: Graph, avoid: seq<TypeId>, t: TypeId, w: seq<nat>, i: nat, j: nat)
    requires Closed(g) && t < |g.types|
  {
    && IsSimple(g, avoid, t, w)
    && i < j < |Edges(g, End(g, t, w))|
    && Taken(g, End(g, t, w), i) == Taken(g, End(g, t, w), j)
    && Taken(g, End(g, t, w), i).target !in avoid + Visits(g, t, w)
  }

  /** Different simple walks with the same labels part at two equal edges. */
  lemma {:induction false} FirstDifference(g: Graph, avoid: seq<TypeId>, t: TypeId, a: seq<nat>, b: seq<nat>)
    returns (w: seq<nat>, i: nat, j: nat)
    requires Closed(g) && LabelsDetermine(g) && t < |g.types|
    requires IsSimple(g, avoid, t, a) && IsSimple(g, avoid, t, b)
    requires a != b && WalkLabels(g, t, a) == WalkLabels(g, t, b)
    ensures Forks(g, avoid, t, w, i, j)
    decreases |a|
  {
    hide Edges, Fresh;
    assert |WalkLabels(g, t, a)| == |a| && |WalkLabels(g, t, b)| == |b|;
    assert a != [] && b != [];
    SimpleStep(g, avoid, t, a);
    SimpleStep(g, avoid, t, b);
    var ea, eb := Taken(g, t, a[0]), Taken(g, t, b[0]);
    assert WalkLabels(g, t, a)[0] == ea.text && WalkLabels(g, t, b)[0] == eb.text;
    if a[0] == b[0] {
      assert WalkLabels(g, t, a)[1..] == WalkLabels(g, ea.target, a[1..]);
      assert WalkLabels(g, t, b)[1..] == WalkLabels(g, ea.target, b[1..]);
      assert a == [a[0]] + a[1..] && b == [b[0]] + b[1..];
      var v;
      v, i, j := FirstDifference(g, avoid + [t], ea.target, a[1..], b[1..]);
      w := [a[0]] + v;
      assert w[1..] == v;
      SimpleStep(g, avoid, t, w);
      TailVisits(g, avoid, t, w, Taken(g, End(g, ea.target, v), i).target);
    } else {
      w := [];
      i, j := if a[0] < b[0] then a[0] else b[0], if a[0] < b[0] then b[0] else a[0];
      SimpleStep(g, avoid + [t], ea.target, a[1..]);
      SimpleStep(g, avoid, t, []);
      assert Visits(g, t, []) == [t];
      assert ea == eb;
    }
  }

  // ---------- when a pair is recorded twice ----------

  ghost predicate Repeats(r: seq<(TypeId, string)>) {
    exists p, q :: 0 <= p < q < |r| && r[p] == r[q]
  }

  /** The record of a simple walk stands at the position of the walk. */
  lemma RecordAt(g: Graph, root: TypeId, w: seq<nat>) returns (p: nat)
    requires Closed(g) && root < |g.types| && IsSimple(g, [], root, w)
    ensures p < |Gathered(g, [], [], root)| == |Walks(g, [], root)| && Walks(g, [], root)[p] == w
    ensures Gathered(g, [], [], root)[p] == (End(g, root, w), PathString(WalkLabels(g, root, w)))
  {
    hide Edges, Gathered, Walks;
    WalksAreSimple(g, [], root, w);
    GatheredMatchesWalks(g, [], [], root);
    p :| 0 <= p < |Walks(g, [], root)| && Walks(g, [], root)[p] == w;
    assert [] + WalkLabels(g, root, w) == WalkLabels(g, root, w);
  }

  /** Behind two equal edges the same pair is recorded twice. */
  lemma ForkRepeats(g: Graph, root: TypeId, w: seq<nat>, i: nat, j: nat)
    requires Closed(g) && root < |g.types| && Forks(g, [], root, w, i, j)
    ensures
      var e := Taken(g, End(g, root, w), i);
      var r := Gathered(g, [], [], root);
      exists p, q :: 0 <= p < q < |r| && r[p] == r[q] == (e.target, PathString(WalkLabels(g, root, w) + [e.text]))
  {
    hide Edges, Gathered, Walks, Fresh, PathString, IsWalk, WalkLabels, Visits;
    ExtendWalk(g, [], root, w, i);
    ExtendWalk(g, [], root, w, j);
    var p := RecordAt(g, root, w + [i]);
    var q := RecordAt(g, root, w + [j]);
    assert (w + [i])[|w|] == i && (w + [j])[|w|] == j;
    var r := Gathered(g, [], [], root);
    assert r[p] == r[q] && p != q;
    if q < p {
      p, q := q, p;
    }
    assert r[p] == r[q];
  }

  /** A root yields a pair twice exactly when some simple path from it ends in a type with
      two equal edges to a type the path has not visited. */
  lemma RepeatsIff(g: Graph, root: TypeId)
    requires Closed(g) && NamesOk(g) && LabelsDetermine(g) && root < |g.types|
    ensures Repeats(Gathered(g, [], [], root)) <==> exists w, i, j :: Forks(g, [], root, w, i, j)
  {
    hide Edges, Gathered, Walks, LabelsDetermine;
    var r, ws := Gathered(g, [], [], root), Walks(g, [], root);
    if Repeats(r) {
      var p, q :| 0 <= p < q < |r| && r[p] == r[q];
      var w, i, j := RepeatForks(g, root, p, q);
    }
    if w, i, j :| Forks(g, [], root, w, i, j) {
      ForkRepeats(g, root, w, i, j);
    }
  }

  lemma RepeatForks(g: Graph, root: TypeId, p: nat, q: nat) returns (w: seq<nat>, i: nat, j: nat)
    requires Closed(g) && NamesOk(g) && LabelsDetermine(g) && root < |g.types|
    requires p < q < |Gathered(g, [], [], root)| && Gathered(g, [], [], root)[p] == Gathered(g, [], [], root)[q]
    ensures Forks(g, [], root, w, i, j)
  {
    hide Edges, Gathered, Walks, LabelsDetermine, Fresh, PathString, GoodLabel;
    var ws := Walks(g, [], root);
    GatheredMatchesWalks(g, [], [], root);
    WalksOrdered(g, [], root);
    BeforeIsStrict(ws[p]);
    var a, b := ws[p], ws[q];
    WalksAreSimple(g, [], root, a);
    WalksAreSimple(g, [], root, b);
    assert [] + WalkLabels(g, root, a) == WalkLabels(g, root, a);
    assert [] + WalkLabels(g, root, b) == WalkLabels(g, root, b);
    WalkLabelsGood(g, root, a);
    WalkLabelsGood(g, root, b);
    PathStringInjective(WalkLabels(g, root, a), WalkLabels(g, root, b));
    w, i, j := FirstDifference(g, [], root, a, b);
  }

  /** No type has two equal edges to another type. */
  ghost predicate NoParallelEdges(g: Graph)
    requires Closed(g)
  {
    forall t: nat, i: nat, j: nat :: t < |g.types| && i < j < |Edges(g, t)| && Taken(g, t, i) == Taken(g, t, j)
      ==> Taken(g, t, i).target == t
  }

  ghost predicate NoRootRepeats(g: Graph)
    requires Closed(g)
  {
    forall root: nat :: root < |g.types| ==> !Repeats(Gathered(g, [], [], root))
  }

  /** No root yields a repeated pair if and only if no type has two equal edges to another. */
  lemma NoRootRepeatsIff(g: Graph)
    requires Closed(g) && NamesOk(g) && LabelsDetermine(g)
    ensures NoRootRepeats(g) <==> NoParallelEdges(g)
  {
    hide Gathered, LabelsDetermine, Edges, Fresh, Repeats;
    if NoParallelEdges(g) {
      forall root: nat | root < |g.types|
        ensures !Repeats(Gathered(g, [], [], root))
      {
        RepeatsIff(g, root);
        NoForks(g, root);
      }
    }
    if NoRootRepeats(g) {
      forall t: nat, i: nat, j: nat | t < |g.types| && i < j < |Edges(g, t)| && Taken(g, t, i) == Taken(g, t, j)
        ensures Taken(g, t, i).target == t
      {
        RepeatsIff(g, t);
        ForksAtOnce(g, t, i, j);
      }
    }
  }

  lemma NoForks(g: Graph, root: TypeId)
    requires Closed(g) && NoParallelEdges(g) && root < |g.types|
    ensures forall w, i, j :: !Forks(g, [], root, w, i, j)
  {
    hide Edges, Fresh;
    forall w, i, j
      ensures !Forks(g, [], root, w, i, j)
    {
      if IsWalk(g, root, w) {
        EndVisited(g, root, w);
      }
    }
  }

  lemma EndVisited(g: Graph, t: TypeId, w: seq<nat>)
    requires Closed(g) && t < |g.types| && IsWalk(g, t, w)
    ensures End(g, t, w) in Visits(g, t, w)
  {
    assert Visits(g, t, w)[|w|] == End(g, t, w);
  }

  lemma ForksAtOnce(g: Graph, t: TypeId, i: nat, j: nat)
    requires Closed(g) && t < |g.types| && i < j < |Edges(g, t)| && Taken(g, t, i) == Taken(g, t, j)
    ensures Taken(g, t, i).target != t ==> Forks(g, [], t, [], i, j)
  {
    hide Edges;
    SimpleStep(g, [], t, []);
    assert Visits(g, t, []) == [t];
  }

  /** No two simple paths from the same root are printed alike, whatever types they end in. */
  ghost predicate TextsTellApart(g: Graph)
    requires Closed(g)
  {
    forall t: nat, a, b | t < |g.types| && SameText(g, t, a, b) :: a == b
  }

  ghost predicate SameText(g: Graph, t: TypeId, a: seq<nat>, b: seq<nat>)
    requires Closed(g) && t < |g.types|
  {
    && IsSimple(g, [], t, a) && IsSimple(g, [], t, b)
    && PathString(WalkLabels(g, t, a)) == PathString(WalkLabels(g, t, b))
  }

  /** A printed path determines the way through the graph exactly when no type has two edges
      to other types with the same label. */
  lemma TextsTellApartIff(g: Graph)
    requires Closed(g) && NamesOk(g)
    ensures TextsTellApart(g) <==> LabelsDistinct(g)
  {
    hide Edges, GoodLabels, NamesOk, LabelsDistinct, PathString, Visits, WalkLabels, Closed;
    forall t: nat, a, b | t < |g.types| && SameText(g, t, a, b)
      ensures SameLabels(g, [], t, a, b)
    {
      WalkLabelsGood(g, t, a);
      WalkLabelsGood(g, t, b);
      PathStringInjective(WalkLabels(g, t, a), WalkLabels(g, t, b));
    }
    PathsTellApartIff(g);
    if TextsTellApart(g) {
      assert forall t: nat, a, b | t < |g.types| && SameLabels(g, [], t, a, b) :: SameText(g, t, a, b);
    }
  }

  // ---------- several roots ----------

  lemma RepeatsAppend(a: seq<(TypeId, string)>, b: seq<(TypeId, string)>)
    ensures Repeats(a + b) <==> Repeats(a) || Repeats(b) || exists x :: x in a && x in b
  {
    var r := a + b;
    if p, q :| 0 <= p < q < |a| && a[p] == a[q] {
      assert r[p] == r[q];
    }
    if p, q :| 0 <= p < q < |b| && b[p] == b[q] {
      assert r[|a| + p] == r[|a| + q];
    }
    if x :| x in a && x in b {
      var p :| 0 <= p < |a| && a[p] == x;
      var q :| 0 <= q < |b| && b[q] == x;
      assert r[p] == r[|a| + q];
    }
    if p, q :| 0 <= p < q < |r| && r[p] == r[q] {
      if p < |a| <= q {
        assert a[p] in a && b[q - |a|] in b;
      } else if |a| <= p {
        assert b[p - |a|] == b[q - |a|];
      }
    }
  }

  lemma {:induction false} FromSomeRoot(g: Graph, roots: seq<TypeId>, x: (TypeId, string))
    requires Closed(g) && AreTypes(g, roots)
    ensures x in GatheredFrom(g, roots) <==> exists k :: 0 <= k < |roots| && x in Gathered(g, [], [], roots[k])
  {
    hide Gathered, Closed;
    if roots != [] {
      var n := |roots| - 1;
      FromSomeRoot(g, roots[..n], x);
      assert forall k :: 0 <= k < n ==> roots[..n][k] == roots[k];
    }
  }

  /** Two roots record a common pair. */
  ghost predicate Share(g: Graph, r: TypeId, q: TypeId)
    requires Closed(g) && r < |g.types| && q < |g.types|
  {
    exists x :: x in Gathered(g, [], [], r) && x in Gathered(g, [], [], q)
  }

  lemma {:induction false} RootsRepeat(g: Graph, roots: seq<TypeId>)
    requires Closed(g) && AreTypes(g, roots)
    ensures Repeats(GatheredFrom(g, roots))
       <==> || (exists k :: 0 <= k < |roots| && Repeats(Gathered(g, [], [], roots[k])))
            || (exists i, j :: 0 <= i < j < |roots| && Share(g, roots[i], roots[j]))
  {
    hide Gathered, Closed, Repeats, Share;
    if roots == [] {
      NoRepeats();
    } else {
      var n := |roots| - 1;
      RootsRepeat(g, roots[..n]);
      RepeatsAppend(GatheredFrom(g, roots[..n]), Gathered(g, [], [], roots[n]));
      LastShares(g, roots);
      assert forall k :: 0 <= k < n ==> roots[..n][k] == roots[k];
    }
  }

  lemma NoRepeats()
    ensures !Repeats([])
  {
  }

  lemma LastShares(g: Graph, roots: seq<TypeId>)
    requires Closed(g) && AreTypes(g, roots) && roots != []
    ensures
      var n := |roots| - 1;
      (exists x :: x in GatheredFrom(g, roots[..n]) && x in Gathered(g, [], [], roots[n]))
      <==> exists i :: 0 <= i < n && Share(g, roots[i], roots[n])
  {
    hide Gathered, GatheredFrom, Closed;
    var n := |roots| - 1;
    if x :| x in GatheredFrom(g, roots[..n]) && x in Gathered(g, [], [], roots[n]) {
      FromSomeRoot(g, roots[..n], x);
      var k :| 0 <= k < n && x in Gathered(g, [], [], roots[..n][k]);
      assert Share(g, roots[k], roots[n]);
    }
    if k :| 0 <= k < n && Share(g, roots[k], roots[n]) {
      var x :| x in Gathered(g, [], [], roots[k]) && x in Gathered(g, [], [], roots[n]);
      assert roots[..n][k] == roots[k];
      FromSomeRoot(g, roots[..n], x);
    }
  }

  /** A simple path from one root and one from another, with the same labels and the same end. */
  ghost predicate Meet(g: Graph, r: TypeId, a: seq<nat>, q: TypeId, b: seq<nat>)
    requires Closed(g) && r < |g.types| && q < |g.types|
  {
    && IsSimple(g, [], r, a) && IsSimple(g, [], q, b)
    && End(g, r, a) == End(g, q, b) && WalkLabels(g, r, a) == WalkLabels(g, q, b)
  }

  lemma ShareIff(g: Graph, r: TypeId, q: TypeId)
    requires Closed(g) && NamesOk(g) && r < |g.types| && q < |g.types|
    ensures Share(g, r, q) <==> exists a, b :: Meet(g, r, a, q, b)
  {
    hide Edges, Gathered, Fresh, PathString, WalkLabels, Visits, NamesOk, Closed, Meet;
    if x :| x in Gathered(g, [], [], r) && x in Gathered(g, [], [], q) {
      var a, b := SharedWalks(g, r, q, x.0, x.1);
    }
    if a, b :| Meet(g, r, a, q, b) {
      MeetShares(g, r, a, q, b);
    }
  }

  lemma SharedWalks(g: Graph, r: TypeId, q: TypeId, t: TypeId, text: string) returns (a: seq<nat>, b: seq<nat>)
    requires Closed(g) && NamesOk(g) && r < |g.types| && q < |g.types|
    requires (t, text) in Gathered(g, [], [], r) && (t, text) in Gathered(g, [], [], q)
    ensures Meet(g, r, a, q, b)
  {
    hide Edges, Gathered, Fresh, PathString, WalkLabels, Visits, GoodLabels, NamesOk, Closed;
    RecordedIff(g, r, t, text);
    RecordedIff(g, q, t, text);
    a :| IsSimple(g, [], r, a) && End(g, r, a) == t && PathString(WalkLabels(g, r, a)) == text;
    b :| IsSimple(g, [], q, b) && End(g, q, b) == t && PathString(WalkLabels(g, q, b)) == text;
    WalkLabelsGood(g, r, a);
    WalkLabelsGood(g, q, b);
    PathStringInjective(WalkLabels(g, r, a), WalkLabels(g, q, b));
  }

  lemma MeetShares(g: Graph, r: TypeId, a: seq<nat>, q: TypeId, b: seq<nat>)
    requires Closed(g) && r < |g.types| && q < |g.types| && Meet(g, r, a, q, b)
    ensures Share(g, r, q)
  {
    hide Edges, Gathered, Fresh, PathString, WalkLabels, Visits, Closed;
    var x := (End(g, r, a), PathString(WalkLabels(g, r, a)));
    RecordedIff(g, r, x.0, x.1);
    RecordedIff(g, q, x.0, x.1);
    assert x in Gathered(g, [], [], r) && x in Gathered(g, [], [], q);
  }

  /** The pairs recorded from all roots hold a pair twice exactly if a simple path from some
      root forks, or simple paths from two of the roots meet. */
  lemma AllRootsRepeatIff(g: Graph, roots: seq<TypeId>)
    requires Closed(g) && NamesOk(g) && LabelsDetermine(g) && AreTypes(g, roots)
    ensures Repeats(GatheredFrom(g, roots))
       <==> || (exists k, w, i, j :: 0 <= k < |roots| && Forks(g, [], roots[k], w, i, j))
            || (exists k, a, m, b :: 0 <= k < m < |roots| && Meet(g, roots[k], a, roots[m], b))
  {
    hide Gathered, GatheredFrom, Closed, NamesOk, LabelsDetermine, Repeats, Share, Forks, Meet;
    RootsRepeat(g, roots);
    forall k | 0 <= k < |roots|
      ensures Repeats(Gathered(g, [], [], roots[k])) <==> exists w, i, j :: Forks(g, [], roots[k], w, i, j)
    {
      RepeatsIff(g, roots[k]);
    }
    forall k, m | 0 <= k < m < |roots|
      ensures Share(g, roots[k], roots[m]) <==> exists a, b :: Meet(g, roots[k], a, roots[m], b)
    {
      ShareIff(g, roots[k], roots[m]);
    }
  }

  /** Two root objects of the same type always repeat a pair. */
  lemma SameRootMeets(g: Graph, root: TypeId)
    requires Closed(g) && root < |g.types|
    ensures Meet(g, root, [], root, [])
  {
    hide Edges;
    SimpleStep(g, [], root, []);
  }

  // ---------- in terms of the registry ----------

  /** Names as registered types have them: type names are unique, attribute names are unique
      within their type and do not look like type names, and none can be taken for a path. */
  ghost predicate RegistryOk(g: Graph) {
    && NamesOk(g)
    && (forall t, u :: 0 <= t < u < |g.types| ==> g.types[t].name != g.types[u].name)
    && (forall t :: 0 <= t < |g.types| ==> AttributesOk(g.types[t].attributes))
  }

  /** A label of a child or of an aggregated type. */
  predicate IsNamed(text: string) {
    text != "" && text[0] == '$'
  }

  ghost predicate AttributesOk(attrs: seq<Attribute>) {
    && (forall k :: 0 <= k < |attrs| ==> PlainName(attrs[k].name) && !IsNamed(attrs[k].name))
    && (forall k, m :: 0 <= k < m < |attrs| ==> attrs[k].name != attrs[m].name)
  }

  /** How many declared aggregations join two types, in either direction. */
  function Joins(aggs: seq<(TypeId, TypeId)>, t: TypeId, u: TypeId): nat {
    if aggs == [] then 0
    else (if aggs[0] == (t, u) || aggs[0] == (u, t) then 1 else 0) + Joins(aggs[1..], t, u)
  }

  /** How many ways lead from a type to another by name: as its child, and by aggregation. */
  function Links(g: Graph, t: TypeId, u: TypeId): nat {
    (if (u, t) in g.childOf then 1 else 0) + Joins(g.aggregates, t, u)
  }

  lemma {:induction false} AggregateCount(g: Graph, t: TypeId, aggs: seq<(TypeId, TypeId)>, u: TypeId)
    requires forall k :: 0 <= k < |aggs| ==> aggs[k].0 < |g.types| && aggs[k].1 < |g.types|
    requires t < |g.types| && u < |g.types| && u != t
    ensures multiset(AggregateEdges(g, t, aggs))[NamedEdge(g, u)] == Joins(aggs, t, u)
  {
    if aggs != [] {
      AggregateCount(g, t, aggs[1..], u);
    }
  }

  lemma ChildEdgesStep(g: Graph, t: TypeId, j: nat, e: Edge)
    requires j < |g.types|
    ensures multiset(ChildEdges(g, t, j))[e]
         == (if (j, t) in g.childOf && NamedEdge(g, j) == e then 1 else 0) + multiset(ChildEdges(g, t, j + 1))[e]
  {
    hide NamedEdge;
  }

  lemma {:induction false} ChildCount(g: Graph, t: TypeId, j: nat, u: TypeId)
    requires u < |g.types|
    ensures multiset(ChildEdges(g, t, j))[NamedEdge(g, u)] == if j <= u && (u, t) in g.childOf then 1 else 0
    decreases |g.types| - j
  {
    if j < |g.types| {
      ChildCount(g, t, j + 1, u);
      ChildEdgesStep(g, t, j, NamedEdge(g, u));
      assert NamedEdge(g, j) == NamedEdge(g, u) <==> j == u;
    }
  }

  /** The attribute name behind a label. */
  function NameOf(text: string): string {
    if |text| >= |ITEM| && text[|text| - |ITEM|..] == ITEM then text[..|text| - |ITEM|] else text
  }

  lemma AttributeName(g: Graph, a: Attribute, e: Edge)
    requires PlainName(a.name) && !IsNamed(a.name) && e in AttributeEdge(g, a)
    ensures NameOf(e.text) == a.name && !IsNamed(e.text)
  {
    if |a.name| >= |ITEM| {
      assert a.name[|a.name| - |ITEM|] in a.name;
    }
    assert ITEM[0] == '/';
    assert (a.name + ITEM)[|a.name|..] == ITEM;
  }

  /** An attribute edge comes from the attribute its label names. */
  lemma {:induction false} AttributeOf(g: Graph, attrs: seq<Attribute>, e: Edge)
    requires forall k :: 0 <= k < |attrs| ==> PlainName(attrs[k].name) && !IsNamed(attrs[k].name)
    ensures e in AttributeEdges(g, attrs) ==>
      && !IsNamed(e.text)
      && exists k :: 0 <= k < |attrs| && attrs[k].name == NameOf(e.text) && e in AttributeEdge(g, attrs[k])
  {
    hide PlainName, IsNamed, NameOf;
    if attrs != [] {
      AttributeOf(g, attrs[1..], e);
      if e in AttributeEdge(g, attrs[0]) {
        AttributeName(g, attrs[0], e);
      } else if e in AttributeEdges(g, attrs[1..]) {
        var k :| 0 <= k < |attrs| - 1 && attrs[1..][k].name == NameOf(e.text) && e in AttributeEdge(g, attrs[1..][k]);
        assert attrs[k + 1] == attrs[1..][k];
      }
    }
  }

  lemma {:induction false} AttributeCount(g: Graph, attrs: seq<Attribute>, e: Edge)
    requires AttributesOk(attrs)
    ensures multiset(AttributeEdges(g, attrs))[e] <= if IsNamed(e.text) then 0 else 1
  {
    hide PlainName, IsNamed, NameOf;
    AttributeOf(g, attrs, e);
    if attrs != [] {
      AttributeCount(g, attrs[1..], e);
      AttributeOf(g, attrs[1..], e);
      if e in AttributeEdge(g, attrs[0]) {
        AttributeName(g, attrs[0], e);
      }
      assert forall k :: 0 <= k < |attrs| - 1 ==> attrs[1..][k].name != attrs[0].name;
      assert AttributeEdges(g, attrs) == AttributeEdge(g, attrs[0]) + AttributeEdges(g, attrs[1..]);
    }
  }

  lemma {:induction false} Twice<T>(s: seq<T>, x: T)
    ensures multiset(s)[x] >= 2 <==> exists i, j :: 0 <= i < j < |s| && s[i] == s[j] == x
  {
    if s != [] {
      Twice(s[1..], x);
      assert s == [s[0]] + s[1..];
      if i, j :| 0 <= i < j < |s| && s[i] == s[j] == x {
        assert s[1..][j - 1] == x;
        if i > 0 {
          assert s[1..][i - 1] == x;
        }
      }
      if multiset(s)[x] >= 2 {
        TwiceAfter(s, x);
      }
    }
  }

  lemma TwiceAfter<T>(s: seq<T>, x: T)
    requires s != [] && multiset(s)[x] >= 2
    requires multiset(s[1..])[x] >= 2 ==> exists i, j :: 0 <= i < j < |s[1..]| && s[1..][i] == s[1..][j] == x
    ensures exists i, j :: 0 <= i < j < |s| && s[i] == s[j] == x
  {
    assert s == [s[0]] + s[1..];
    if multiset(s[1..])[x] >= 2 {
      var i, j :| 0 <= i < j < |s[1..]| && s[1..][i] == s[1..][j] == x;
      assert s[i + 1] == s[j + 1] == x;
    } else {
      assert x in s[1..] && s[0] == x;
      var j :| 0 <= j < |s[1..]| && s[1..][j] == x;
      assert s[0] == s[j + 1] == x;
    }
  }

  /** How often a type has an edge to another type: by attribute at most once, by name as
      often as there are links. */
  lemma EdgeCount(g: Graph, t: TypeId, e: Edge)
    requires Closed(g) && RegistryOk(g) && t < |g.types| && e.target < |g.types| && e.target != t
    ensures e == NamedEdge(g, e.target) ==> multiset(Edges(g, t))[e] == Links(g, t, e.target)
    ensures e != NamedEdge(g, e.target) ==> multiset(Edges(g, t))[e] <= 1
  {
    hide NamesOk, PlainName, AttributesOk, Closed;
    var attrs := g.types[t].attributes;
    assert AttributesOk(attrs);
    AttributeCount(g, attrs, e);
    ChildCount(g, t, 0, e.target);
    AggregateBounds(g);
    AggregateCount(g, t, g.aggregates, e.target);
    ChildEdgesMeaning(g, t, 0, e);
    AggregateEdgesMeaning(g, t, g.aggregates, e);
    EdgeParts(g, t, e);
  }

  lemma AggregateBounds(g: Graph)
    requires Closed(g)
    ensures forall k :: 0 <= k < |g.aggregates| ==> g.aggregates[k].0 < |g.types| && g.aggregates[k].1 < |g.types|
  {
  }

  lemma EdgeParts(g: Graph, t: TypeId, e: Edge)
    requires Closed(g) && t < |g.types|
    ensures multiset(Edges(g, t))[e]
         == multiset(AttributeEdges(g, g.types[t].attributes))[e] + multiset(ChildEdges(g, t, 0))[e]
            + multiset(AggregateEdges(g, t, g.aggregates))[e]
  {
  }

  /** Two different types are linked by name at most once. */
  ghost predicate LinkedOnce(g: Graph) {
    forall t: nat, u: nat :: t < |g.types| && u < |g.types| && t != u ==> Links(g, t, u) <= 1
  }

  lemma ParallelIff(g: Graph)
    requires Closed(g) && RegistryOk(g)
    ensures NoParallelEdges(g) <==> LinkedOnce(g)
  {
    hide RegistryOk, Edges, Links, Closed;
    if NoParallelEdges(g) {
      forall t: nat, u: nat | t < |g.types| && u < |g.types| && t != u
        ensures Links(g, t, u) <= 1
      {
        var e := NamedEdge(g, u);
        EdgeCount(g, t, e);
        Twice(Edges(g, t), e);
        TakenTwice(g, t, e);
      }
    }
    if LinkedOnce(g) {
      forall t: nat, i: nat, j: nat | t < |g.types| && i < j < |Edges(g, t)| && Taken(g, t, i) == Taken(g, t, j)
        ensures Taken(g, t, i).target == t
      {
        var e := Taken(g, t, i);
        TakenAre(g, t, i, j);
        Twice(Edges(g, t), e);
        if e.target != t {
          EdgeCount(g, t, e);
        }
      }
    }
  }

  lemma TakenAre(g: Graph, t: TypeId, i: nat, j: nat)
    requires Closed(g) && t < |g.types| && i < j < |Edges(g, t)|
    ensures Taken(g, t, i) == Edges(g, t)[i] && Taken(g, t, j) == Edges(g, t)[j]
  {
  }

  lemma TakenTwice(g: Graph, t: TypeId, e: Edge)
    requires Closed(g) && NoParallelEdges(g) && t < |g.types| && e.target != t
    ensures !exists i, j :: 0 <= i < j < |Edges(g, t)| && Edges(g, t)[i] == Edges(g, t)[j] == e
  {
    hide Edges;
    forall i, j | 0 <= i < j < |Edges(g, t)|
      ensures !(Edges(g, t)[i] == Edges(g, t)[j] == e)
    {
      TakenAre(g, t, i, j);
    }
  }

  /** With such names a label determines the type it leads to. */
  lemma RegistryLabels(g: Graph)
    requires Closed(g) && RegistryOk(g)
    ensures LabelsDetermine(g)
  {
    hide Edges, Closed, RegistryOk;
    forall t: nat, i: nat, j: nat | t < |g.types| && i < |Edges(g, t)| && j < |Edges(g, t)|
      && Taken(g, t, i).text == Taken(g, t, j).text
      ensures Taken(g, t, i).target == Taken(g, t, j).target
    {
      SameLabelSameTarget(g, t, Taken(g, t, i), Taken(g, t, j));
    }
  }

  lemma SameLabelSameTarget(g: Graph, t: TypeId, a: Edge, b: Edge)
    requires Closed(g) && RegistryOk(g) && t < |g.types|
    requires a in Edges(g, t) && b in Edges(g, t) && a.text == b.text
    ensures a.target == b.target
  {
    hide Edges, Closed, PlainName, NamesOk, NameOf;
    LabelKind(g, t, a);
    LabelKind(g, t, b);
    if IsNamed(a.text) {
      assert g.types[a.target].name == a.text[1..] == g.types[b.target].name;
    } else {
      var attrs := g.types[t].attributes;
      assert AttributesOk(attrs);
      AttributeOf(g, attrs, a);
      AttributeOf(g, attrs, b);
    }
  }

  lemma LabelKind(g: Graph, t: TypeId, e: Edge)
    requires Closed(g) && RegistryOk(g) && t < |g.types| && e in Edges(g, t)
    ensures IsNamed(e.text) ==> e.target < |g.types| && e.text[1..] == g.types[e.target].name
    ensures !IsNamed(e.text) ==> e in AttributeEdges(g, g.types[t].attributes)
  {
    hide Edges, Closed, PlainName, NamesOk, NameOf;
    EdgesMeaning(g, t, e);
    assert AttributesOk(g.types[t].attributes);
    AttributeEdgesMeaning(g, g.types[t].attributes, e);
    AttributeOf(g, g.types[t].attributes, e);
  }

  /** In a proper registry no root yields a repeated pair if and only if no two types are
      linked twice: by two aggregations in whatever direction, or by an aggregation beside the
      child relation. */
  lemma RecordsUniqueIff(g: Graph)
    requires Closed(g) && RegistryOk(g)
    ensures NoRootRepeats(g) <==> LinkedOnce(g)
  {
    hide NoRootRepeats, NoParallelEdges, LinkedOnce, LabelsDetermine, Closed;
    RegistryLabels(g);
    NoRootRepeatsIff(g);
    ParallelIff(g);
  }

  /** In such a registry the pairs of all roots are unique if and only if, moreover, no simple
      paths from two of the roots meet. */
  lemma AllRecordsUniqueIff(g: Graph, roots: seq<TypeId>)
    requires Closed(g) && RegistryOk(g) && LinkedOnce(g) && AreTypes(g, roots)
    ensures !Repeats(GatheredFrom(g, roots))
       <==> forall k, a, m, b :: 0 <= k < m < |roots| ==> !Meet(g, roots[k], a, roots[m], b)
  {
    hide Gathered, GatheredFrom, NoParallelEdges, LinkedOnce, LabelsDetermine, Closed, Forks, Meet, Repeats;
    RegistryLabels(g);
    ParallelIff(g);
    AllRootsRepeatIff(g, roots);
    forall k | 0 <= k < |roots|
      ensures forall w, i, j :: !Forks(g, [], roots[k], w, i, j)
    {
      NoForks(g, roots[k]);
    }
  }

  lemma {:induction false} JoinsAt(aggs: seq<(TypeId, TypeId)>, t: TypeId, u: TypeId, k: nat)
    requires k < |aggs| && (aggs[k] == (t, u) || aggs[k] == (u, t))
    ensures Joins(aggs, t, u) >= 1
  {
    if k > 0 {
      JoinsAt(aggs[1..], t, u, k - 1);
    }
  }

  lemma {:induction false} JoinsTwice(aggs: seq<(TypeId, TypeId)>, t: TypeId, u: TypeId, k: nat, m: nat)
    requires k < m < |aggs|
    requires (aggs[k] == (t, u) || aggs[k] == (u, t)) && (aggs[m] == (t, u) || aggs[m] == (u, t))
    ensures Joins(aggs, t, u) >= 2
  {
    if k > 0 {
      JoinsTwice(aggs[1..], t, u, k - 1, m - 1);
    } else {
      JoinsAt(aggs[1..], t, u, m - 1);
    }
  }

  /** An aggregation declared twice gives a type two equal edges. */
  lemma JoinedTwice(g: Graph, t: TypeId, u: TypeId, k: nat, m: nat) returns (i: nat, j: nat)
    requires Closed(g) && t < |g.types| && u < |g.types| && u != t && k < m < |g.aggregates|
    requires g.aggregates[k] == (t, u) || g.aggregates[k] == (u, t)
    requires g.aggregates[m] == (t, u) || g.aggregates[m] == (u, t)
    ensures i < j < |Edges(g, t)| && Taken(g, t, i) == Taken(g, t, j) == NamedEdge(g, u)
  {
    hide Edges, Closed;
    var e := NamedEdge(g, u);
    JoinsTwice(g.aggregates, t, u, k, m);
    AggregateBounds(g);
    AggregateCount(g, t, g.aggregates, u);
    EdgeParts(g, t, e);
    Twice(Edges(g, t), e);
    i, j :| 0 <= i < j < |Edges(g, t)| && Edges(g, t)[i] == Edges(g, t)[j] == e;
    TakenAre(g, t, i, j);
  }

  /** An aggregation declared twice, in either direction, is recorded twice from every root
      that reaches one of its types by a simple path avoiding the other. */
  lemma RepeatedAggregationRepeatsPath(g: Graph, root: TypeId, w: seq<nat>, u: TypeId, k: nat, m: nat)
    requires Closed(g) && root < |g.types| && IsSimple(g, [], root, w) && u < |g.types| && u !in Visits(g, root, w)
    requires k < m < |g.aggregates|
    requires g.aggregates[k] == (End(g, root, w), u) || g.aggregates[k] == (u, End(g, root, w))
    requires g.aggregates[m] == (End(g, root, w), u) || g.aggregates[m] == (u, End(g, root, w))
    ensures
      var r := Gathered(g, [], [], root);
      var text := PathString(WalkLabels(g, root, w) + ["$" + g.types[u].name]);
      exists p, q :: 0 <= p < q < |r| && r[p] == r[q] == (u, text)
  {
    hide Gathered, PathString, Closed, Edges, Fresh;
    EndVisited(g, root, w);
    var i, j := JoinedTwice(g, End(g, root, w), u, k, m);
    assert [] + Visits(g, root, w) == Visits(g, root, w);
    ForkRepeats(g, root, w, i, j);
  }
}
