/** The layered layout of a trace: one node per span, one layer per depth, edges from parent to child. */
module TraceGraph {
  import opened Common
  import opened Forensics
  import Sorting

  const COLUMN := 290
  const LAYER := 170

  datatype FlowNode = FlowNode(span: Span, x: int, y: int)
  datatype Edge = Edge(source: Id, target: Id)

  // ------------------------------------------------------------------ depth

  /** The `d`-th ancestor of `id` is a known span and it has no known parent. */
  ghost predicate IsKnownDepth(p: Parents, id: Id, d: nat) {
    && Climb(p, id, d).Some? && Climb(p, id, d).value in p
    && (Climb(p, id, d + 1).Some? ==> Climb(p, id, d + 1).value !in p)
  }

  /** Climbs to the first unknown or already visited parent, so it ends below the span count on any links. */
  method SpanDepth(span: Span, p: Parents) returns (depth: nat)
    requires span.id in p && p[span.id] == span.parent
    ensures depth < |p|
    ensures Acyclic(p) ==> IsKnownDepth(p, span.id, depth)
  {
    depth := 0;
    var parent, visited := span.parent, {span.id};
    SubsetIsSmaller(visited, p.Keys);
    while parent.Some? && parent.value in p && parent.value !in visited
      invariant visited <= p.Keys && |visited| == depth + 1 <= |p.Keys|
      invariant Climb(p, span.id, depth).Some? && Climb(p, span.id, depth).value in p
      invariant parent == Climb(p, span.id, depth + 1)
      invariant forall v :: v in visited <==> exists k: nat :: k <= depth && Climb(p, span.id, k) == Some(v)
      decreases |p.Keys| - |visited|
    {
      visited := visited + {parent.value};
      SubsetIsSmaller(visited, p.Keys);
      depth := depth + 1;
      ClimbFurther(p, span.id, depth, 1);
      parent := ParentIn(p, parent.value);
    }
    if parent.Some? && parent.value in p && Acyclic(p) {
      var k: nat :| k <= depth && Climb(p, span.id, k) == parent;
      NoReturn(p, span.id, k, depth + 1);
    }
  }

  lemma NoReturn(p: Parents, id: Id, k: nat, n: nat)
    requires Acyclic(p) && k < n && Climb(p, id, n).Some?
    ensures Climb(p, id, k) != Climb(p, id, n)
  {
    var rank: Id -> nat :| Ranked(p, rank);
    if Climb(p, id, k) == Climb(p, id, n) {
      ClimbFurther(p, id, k, n - k);
      ClimbLowersRank(p, rank, Climb(p, id, k).value, n - k);
    }
  }

  lemma KnownDepthIsUnique(p: Parents, id: Id, d: nat, e: nat)
    requires IsKnownDepth(p, id, d) && IsKnownDepth(p, id, e)
    ensures d == e
  {
    if d < e { DepthStops(p, id, d, e); }
    if e < d { DepthStops(p, id, e, d); }
  }

  lemma DepthStops(p: Parents, id: Id, d: nat, e: nat)
    requires IsKnownDepth(p, id, d) && d < e
    ensures !IsKnownDepth(p, id, e)
  {
    if Climb(p, id, d + 1).None? {
      ClimbEnds(p, id, d + 1, e);
    } else if e > d + 1 {
      ClimbFurther(p, id, d + 1, 1);
      ClimbEnds(p, id, d + 2, e);
    }
  }

  lemma ChildIsOneDeeper(p: Parents, id: Id, d: nat, e: nat)
    requires id in p && p[id].Some? && p[id].value in p
    requires IsKnownDepth(p, id, d) && IsKnownDepth(p, p[id].value, e)
    ensures d == e + 1
  {
    assert Climb(p, id, e + 1) == Climb(p, p[id].value, e);
    assert Climb(p, id, e + 2) == Climb(p, p[id].value, e + 1);
    KnownDepthIsUnique(p, id, d, e + 1);
  }

  // ----------------------------------------------------------------- layout

  type Depths = map<Id, nat>

  ghost predicate DepthsOk(spans: seq<Span>, depths: Depths) {
    && (forall i :: 0 <= i < |spans| ==> spans[i].id in depths && depths[spans[i].id] < |spans|)
    && (Acyclic(ParentsOf(spans)) ==> forall i :: 0 <= i < |spans| ==> IsKnownDepth(ParentsOf(spans), spans[i].id, depths[spans[i].id]))
  }

  predicate AtDepth(s: Span, depths: Depths, d: nat) {
    s.id in depths && depths[s.id] == d
  }

  function Group(spans: seq<Span>, depths: Depths, d: nat): seq<Span> {
    if spans == [] then []
    else
      var last := spans[|spans| - 1];
      Group(spans[..|spans| - 1], depths, d) + if AtDepth(last, depths, d) then [last] else []
  }

  function Layer(group: seq<Span>, d: nat): seq<FlowNode> {
    seq(|group|, i requires 0 <= i < |group| => FlowNode(group[i], i * COLUMN - (|group| - 1) * (COLUMN / 2), d * LAYER))
  }

  function Layers(spans: seq<Span>, depths: Depths, n: nat): seq<FlowNode> {
    if n == 0 then []
    else Layers(spans, depths, n - 1) + Layer(Sorting.Sort(SpanLess, Group(spans, depths, n - 1)), n - 1)
  }

  function EdgesOf(spans: seq<Span>, known: set<Id>): seq<Edge> {
    if spans == [] then []
    else
      var last := spans[|spans| - 1];
      EdgesOf(spans[..|spans| - 1], known)
      + if last.parent.Some? && last.parent.value in known then [Edge(last.parent.value, last.id)] else []
  }

  function SpansIn(nodes: seq<FlowNode>): seq<Span> {
    seq(|nodes|, i requires 0 <= i < |nodes| => nodes[i].span)
  }

  lemma {:induction false} GroupSelects(spans: seq<Span>, depths: Depths, d: nat, s: Span)
    ensures multiset(Group(spans, depths, d))[s] == if AtDepth(s, depths, d) then multiset(spans)[s] else 0
    decreases |spans|
  {
    if spans != [] {
      GroupSelects(spans[..|spans| - 1], depths, d, s);
      assert spans == spans[..|spans| - 1] + [spans[|spans| - 1]];
    }
  }

  lemma SpansInAppended(a: seq<FlowNode>, group: seq<Span>, d: nat)
    ensures SpansIn(a + Layer(group, d)) == SpansIn(a) + group
  {
  }

  lemma {:induction false} LayersHold(spans: seq<Span>, depths: Depths, n: nat, s: Span)
    ensures multiset(SpansIn(Layers(spans, depths, n)))[s] == if s.id in depths && depths[s.id] < n then multiset(spans)[s] else 0
    decreases n
  {
    hide Sorting.Sort, Group, Layer;
    if n > 0 {
      var before, group := Layers(spans, depths, n - 1), Group(spans, depths, n - 1);
      LayersHold(spans, depths, n - 1, s);
      GroupSelects(spans, depths, n - 1, s);
      Sorting.SortKeepsElements(SpanLess, group);
      SpansInAppended(before, Sorting.Sort(SpanLess, group), n - 1);
      hide SpansIn;
    }
  }

  ghost predicate DistinctPositions(nodes: seq<FlowNode>) {
    forall i, j :: 0 <= i < j < |nodes| ==> nodes[i].x != nodes[j].x || nodes[i].y != nodes[j].y
  }

  lemma {:induction false} LayersDoNotOverlap(spans: seq<Span>, depths: Depths, n: nat)
    ensures DistinctPositions(Layers(spans, depths, n))
    ensures forall i :: 0 <= i < |Layers(spans, depths, n)| ==> Layers(spans, depths, n)[i].y < n * LAYER
    decreases n
  {
    if n > 0 { LayersDoNotOverlap(spans, depths, n - 1); }
  }

  /** A node's layer is its span's depth. */
  ghost predicate InOwnLayer(node: FlowNode, depths: Depths) {
    node.span.id in depths && node.y == depths[node.span.id] * LAYER
  }

  lemma {:induction false} LayerIsDepth(spans: seq<Span>, depths: Depths, n: nat, i: nat)
    requires i < |Layers(spans, depths, n)|
    ensures InOwnLayer(Layers(spans, depths, n)[i], depths)
    decreases n
  {
    hide Sorting.Sort, Group;
    var before := Layers(spans, depths, n - 1);
    if i < |before| {
      LayerIsDepth(spans, depths, n - 1, i);
    } else {
      var group := Sorting.Sort(SpanLess, Group(spans, depths, n - 1));
      Sorting.SortKeepsElements(SpanLess, Group(spans, depths, n - 1));
      var s := group[i - |before|];
      assert s in multiset(group);
      GroupSelects(spans, depths, n - 1, s);
    }
  }

  method AllDepths(spans: seq<Span>) returns (depths: Depths)
    requires UniqueIds(spans)
    ensures DepthsOk(spans, depths)
  {
    var p := BuildParents(spans);
    KnownSpanCount(spans);
    depths := map[];
    for i := 0 to |spans|
      invariant forall k :: 0 <= k < i ==> spans[k].id in depths && depths[spans[k].id] < |spans|
      invariant Acyclic(p) ==> forall k :: 0 <= k < i ==> IsKnownDepth(p, spans[k].id, depths[spans[k].id])
    {
      ParentsOfAt(spans, i);
      var d := SpanDepth(spans[i], p);
      depths := depths[spans[i].id := d];
    }
  }

  lemma {:induction false} KnownSpanCount(spans: seq<Span>)
    ensures |ParentsOf(spans)| <= |spans|
  {
    if spans != [] { KnownSpanCount(spans[..|spans| - 1]); }
  }

  method GroupByDepth(spans: seq<Span>, depths: Depths) returns (byDepth: map<nat, seq<Span>>)
    requires forall i :: 0 <= i < |spans| ==> spans[i].id in depths
    ensures forall d: nat :: GroupIn(byDepth, d) == Group(spans, depths, d)
  {
    byDepth := map[];
    for i := 0 to |spans|
      invariant forall d: nat :: GroupIn(byDepth, d) == Group(spans[..i], depths, d)
    {
      assert spans[..i + 1][..i] == spans[..i];
      var d := depths[spans[i].id];
      byDepth := byDepth[d := GroupIn(byDepth, d) + [spans[i]]];
    }
    assert spans[..|spans|] == spans;
  }

  function GroupIn(byDepth: map<nat, seq<Span>>, d: nat): seq<Span> {
    if d in byDepth then byDepth[d] else []
  }

  method PlaceLayers(byDepth: map<nat, seq<Span>>, n: nat, ghost spans: seq<Span>, ghost depths: Depths)
    returns (nodes: seq<FlowNode>)
    requires forall d: nat :: GroupIn(byDepth, d) == Group(spans, depths, d)
    ensures nodes == Layers(spans, depths, n)
  {
    hide Group;
    nodes := [];
    for d := 0 to n
      invariant nodes == Layers(spans, depths, d)
    {
      assert GroupIn(byDepth, d) == Group(spans, depths, d);
      if d in byDepth {
        nodes := nodes + Layer(Sorting.Sort(SpanLess, byDepth[d]), d);
      }
    }
  }

  method Connect(spans: seq<Span>, known: set<Id>) returns (edges: seq<Edge>)
    ensures edges == EdgesOf(spans, known)
  {
    edges := [];
    for i := 0 to |spans|
      invariant edges == EdgesOf(spans[..i], known)
    {
      assert spans[..i + 1][..i] == spans[..i];
      if spans[i].parent.Some? && spans[i].parent.value in known {
        edges := edges + [Edge(spans[i].parent.value, spans[i].id)];
      }
    }
    assert spans[..|spans|] == spans;
  }

  /** Groups the spans by depth, lays the groups out in ascending depth and joins every span to its known parent. */
  method ToTraceFlow(spans: seq<Span>) returns (nodes: seq<FlowNode>, edges: seq<Edge>, ghost depths: Depths)
    requires UniqueIds(spans)
    ensures DepthsOk(spans, depths)
    ensures nodes == Layers(spans, depths, |spans|)
    ensures edges == EdgesOf(spans, set n | n in nodes :: n.span.id)
  {
    hide Group, Layers, EdgesOf;
    var at := AllDepths(spans);
    depths := at;
    var byDepth := GroupByDepth(spans, at);
    nodes := PlaceLayers(byDepth, |spans|, spans, at);
    edges := Connect(spans, set n | n in nodes :: n.span.id);
  }

  // ------------------------------------------------------------ main results

  /** Every span is drawn once, no two at one position, on any parent links. */
  lemma FlowPlacesEverySpanOnce(spans: seq<Span>, depths: Depths)
    requires DepthsOk(spans, depths)
    ensures multiset(SpansIn(Layers(spans, depths, |spans|))) == multiset(spans)
    ensures DistinctPositions(Layers(spans, depths, |spans|))
  {
    var drawn := SpansIn(Layers(spans, depths, |spans|));
    forall s ensures multiset(drawn)[s] == multiset(spans)[s] {
      LayersHold(spans, depths, |spans|, s);
      if s in multiset(spans) {
        assert s in spans;
        var i :| 0 <= i < |spans| && spans[i] == s;
      }
    }
    LayersDoNotOverlap(spans, depths, |spans|);
  }

  /** On acyclic links, an edge leads from the node of a span's parent one layer down to the node of the span. */
  lemma EdgesGoDownOneLayer(spans: seq<Span>, depths: Depths, i: nat, j: nat)
    requires UniqueIds(spans) && DepthsOk(spans, depths) && Acyclic(ParentsOf(spans))
    requires i < |Layers(spans, depths, |spans|)| && j < |Layers(spans, depths, |spans|)|
    requires var nodes := Layers(spans, depths, |spans|); nodes[j].span.parent == Some(nodes[i].span.id)
    ensures var nodes := Layers(spans, depths, |spans|); nodes[j].y == nodes[i].y + LAYER
  {
    var nodes, p := Layers(spans, depths, |spans|), ParentsOf(spans);
    FlowPlacesEverySpanOnce(spans, depths);
    Sorting.SameElements(SpansIn(nodes), spans);
    assert SpansIn(nodes)[i] in spans && SpansIn(nodes)[j] in spans;
    var a :| 0 <= a < |spans| && spans[a] == nodes[i].span;
    var b :| 0 <= b < |spans| && spans[b] == nodes[j].span;
    ParentsOfAt(spans, a);
    ParentsOfAt(spans, b);
    ChildIsOneDeeper(p, spans[b].id, depths[spans[b].id], depths[spans[a].id]);
    LayerIsDepth(spans, depths, |spans|, i);
    LayerIsDepth(spans, depths, |spans|, j);
  }

  /** A span of the trace whose parent is known. */
  predicate IsLink(s: Span, known: set<Id>, e: Edge) {
    s.id == e.target && s.parent == Some(e.source) && e.source in known
  }

  /** The edges are exactly the links between two spans of the trace. */
  lemma {:induction false} EdgesAreLinks(spans: seq<Span>, known: set<Id>, e: Edge)
    ensures e in EdgesOf(spans, known) <==> exists s :: s in spans && IsLink(s, known, e)
    decreases |spans|
  {
    if spans != [] {
      var rest, last := spans[..|spans| - 1], spans[|spans| - 1];
      EdgesAreLinks(rest, known, e);
      assert spans == rest + [last];
      assert e in EdgesOf(spans, known) <==> e in EdgesOf(rest, known) || IsLink(last, known, e);
      hide IsLink, EdgesOf;
    }
  }
}
