/** The span tree stored with a trace: every span once, under its own parent. */
module SpanTree {
  import opened Common
  import opened Forensics

  datatype Tree = Node(id: Id, children: seq<Tree>)

  // ------------------------------------------------------ building the tree

  function KidsOf(spans: seq<Span>, id: Id): seq<Id> {
    if spans == [] then []
    else
      var last := spans[|spans| - 1];
      KidsOf(spans[..|spans| - 1], id) + if last.parent == Some(id) then [last.id] else []
  }

  function IdSet(spans: seq<Span>): set<Id> {
    set s | s in spans :: s.id
  }

  function RootsAmong(spans: seq<Span>, ids: set<Id>): seq<Id> {
    if spans == [] then []
    else
      var last := spans[|spans| - 1];
      RootsAmong(spans[..|spans| - 1], ids) + if last.parent.Some? && last.parent.value in ids then [] else [last.id]
  }

  ghost predicate Built(spans: seq<Span>, children: map<Id, seq<Id>>, roots: seq<Id>) {
    && children.Keys == IdSet(spans)
    && (forall id :: id in children ==> children[id] == KidsOf(spans, id))
    && roots == RootsAmong(spans, IdSet(spans))
  }

  // A single root is shown without a list around it.
  datatype Shown = One(root: Id) | Many(roots: seq<Id>)

  function RootsOf(shown: Shown): seq<Id> {
    if shown.One? then [shown.root] else shown.roots
  }

  /** Links every node into its parent's child list; a span without a known parent becomes a root. */
  method BuildTree(spans: seq<Span>) returns (children: map<Id, seq<Id>>, shown: Shown)
    ensures Built(spans, children, RootsOf(shown)) && (shown.One? <==> |RootsOf(shown)| == 1)
  {
    var ids := IdSet(spans);
    var roots := [];
    children := map id | id in ids :: [];
    for i := 0 to |spans|
      invariant children.Keys == ids
      invariant forall id :: id in ids ==> children[id] == KidsOf(spans[..i], id)
      invariant roots == RootsAmong(spans[..i], ids)
    {
      assert spans[..i + 1][..i] == spans[..i];
      var span := spans[i];
      if span.parent.Some? && span.parent.value in ids {
        children := children[span.parent.value := children[span.parent.value] + [span.id]];
      } else {
        roots := roots + [span.id];
      }
    }
    assert spans[..|spans|] == spans;
    shown := if |roots| == 1 then One(roots[0]) else Many(roots);
  }

  // --------------------------------------------------------- reading it out

  ghost predicate Bounded(children: map<Id, seq<Id>>, rank: Id -> nat, bound: nat) {
    forall id, k :: id in children && 0 <= k < |children[id]| ==>
      children[id][k] in children && rank(id) < rank(children[id][k]) <= bound
  }

  /** The tree a reader of the linked nodes sees below `id`. */
  ghost function Unfold(children: map<Id, seq<Id>>, rank: Id -> nat, bound: nat, id: Id): (t: Tree)
    requires Bounded(children, rank, bound) && id in children
    ensures t.id == id && |t.children| == |children[id]|
    decreases if rank(id) <= bound then bound - rank(id) + 1 else 0
  {
    Node(id, seq(|children[id]|, k requires 0 <= k < |children[id]| =>
      assert rank(id) < rank(children[id][k]) <= bound;
      Unfold(children, rank, bound, children[id][k])))
  }

  function Flatten(t: Tree): seq<Id>
    decreases t, 0
  {
    [t.id] + FlattenAll(t.children)
  }

  function FlattenAll(ts: seq<Tree>): seq<Id>
    decreases ts
  {
    if ts == [] then [] else Flatten(ts[0]) + FlattenAll(ts[1..])
  }

  function Roots(ts: seq<Tree>): seq<Id> {
    seq(|ts|, i requires 0 <= i < |ts| => ts[i].id)
  }

  /** The children of every node of the tree are exactly the spans whose parent it is, once each. */
  ghost predicate Linked(p: Parents, t: Tree)
    decreases t, 0
  {
    && t.id in p
    && (forall x :: multiset(Roots(t.children))[x] == if x in p && p[x] == Some(t.id) then 1 else 0)
    && LinkedAll(p, t.children)
  }

  ghost predicate LinkedAll(p: Parents, ts: seq<Tree>)
    decreases ts
  {
    ts != [] ==> Linked(p, ts[0]) && LinkedAll(p, ts[1..])
  }

  lemma {:induction false} OccursWithParent(p: Parents, t: Tree, x: Id)
    requires Linked(p, t) && x in p
    ensures multiset(Flatten(t))[x] == (if t.id == x then 1 else 0) + (if p[x].Some? then multiset(Flatten(t))[p[x].value] else 0)
    decreases t, 0
  {
    OccursWithParentAll(p, t.children, x);
  }

  /** Apart from roots, a span occurs in a forest as often as its parent does. */
  lemma {:induction false} OccursWithParentAll(p: Parents, ts: seq<Tree>, x: Id)
    requires LinkedAll(p, ts) && x in p
    ensures multiset(FlattenAll(ts))[x] == multiset(Roots(ts))[x] + (if p[x].Some? then multiset(FlattenAll(ts))[p[x].value] else 0)
    decreases ts
  {
    if ts != [] {
      OccursWithParent(p, ts[0], x);
      OccursWithParentAll(p, ts[1..], x);
      assert Roots(ts) == [ts[0].id] + Roots(ts[1..]);
    }
  }

  lemma {:induction false} OnlySpansOccur(p: Parents, t: Tree, x: Id)
    requires Linked(p, t) && x !in p
    ensures x !in Flatten(t)
    decreases t, 0
  {
    OnlySpansOccurAll(p, t.children, x);
  }

  lemma {:induction false} OnlySpansOccurAll(p: Parents, ts: seq<Tree>, x: Id)
    requires LinkedAll(p, ts) && x !in p
    ensures x !in FlattenAll(ts)
    decreases ts
  {
    if ts != [] {
      OnlySpansOccur(p, ts[0], x);
      OnlySpansOccurAll(p, ts[1..], x);
    }
  }

  /** The roots of the forest are the spans whose parent is absent or unknown, once each. */
  ghost predicate RootsCorrect(p: Parents, roots: seq<Id>) {
    forall x :: multiset(roots)[x] == if x in p && !(p[x].Some? && p[x].value in p) then 1 else 0
  }

  lemma {:induction false} OccursOnce(p: Parents, rank: Id -> nat, forest: seq<Tree>, x: Id)
    requires Ranked(p, rank) && LinkedAll(p, forest) && RootsCorrect(p, Roots(forest)) && x in p
    ensures multiset(FlattenAll(forest))[x] == 1
    decreases rank(x)
  {
    OccursWithParentAll(p, forest, x);
    if p[x].Some? {
      if p[x].value in p {
        OccursOnce(p, rank, forest, p[x].value);
      } else {
        OnlySpansOccurAll(p, forest, p[x].value);
      }
    }
  }

  // --------------------------------------------------- the built tree is it

  lemma {:induction false} KidsCorrect(spans: seq<Span>, id: Id, x: Id)
    requires UniqueIds(spans)
    ensures multiset(KidsOf(spans, id))[x] == if x in ParentsOf(spans) && ParentsOf(spans)[x] == Some(id) then 1 else 0
    decreases |spans|
  {
    if spans != [] {
      var rest, last := spans[..|spans| - 1], spans[|spans| - 1];
      KidsCorrect(rest, id, x);
      LastIsNew(spans);
    }
  }

  lemma {:induction false} RootsAmongCorrect(spans: seq<Span>, ids: set<Id>, x: Id)
    requires UniqueIds(spans)
    ensures multiset(RootsAmong(spans, ids))[x] ==
            var p := ParentsOf(spans); if x in p && !(p[x].Some? && p[x].value in ids) then 1 else 0
    decreases |spans|
  {
    if spans != [] {
      RootsAmongCorrect(spans[..|spans| - 1], ids, x);
      LastIsNew(spans);
    }
  }

  lemma LastIsNew(spans: seq<Span>)
    requires UniqueIds(spans) && spans != []
    ensures spans[|spans| - 1].id !in ParentsOf(spans[..|spans| - 1])
  {
    if spans[|spans| - 1].id in ParentsOf(spans[..|spans| - 1]) {
      var i := ParentsOfKeys(spans[..|spans| - 1], spans[|spans| - 1].id);
    }
  }

  lemma ParentsOfDomain(spans: seq<Span>)
    requires UniqueIds(spans)
    ensures ParentsOf(spans).Keys == IdSet(spans)
  {
    forall id ensures id in ParentsOf(spans) <==> id in IdSet(spans) {
      if id in ParentsOf(spans) {
        var i := ParentsOfKeys(spans, id);
        assert spans[i] in spans;
      }
      if id in IdSet(spans) {
        var i :| 0 <= i < |spans| && spans[i].id == id;
        ParentsOfAt(spans, i);
      }
    }
  }

  lemma {:induction false} RankBound(ids: set<Id>, rank: Id -> nat) returns (bound: nat)
    ensures forall id :: id in ids ==> rank(id) <= bound
  {
    bound := 0;
    if ids != {} {
      var id :| id in ids;
      bound := RankBound(ids - {id}, rank);
      bound := if rank(id) > bound then rank(id) else bound;
      assert forall x :: x in ids ==> x == id || x in ids - {id};
    }
  }

  lemma BuiltIsBounded(spans: seq<Span>, children: map<Id, seq<Id>>, roots: seq<Id>, rank: Id -> nat) returns (bound: nat)
    requires UniqueIds(spans) && Ranked(ParentsOf(spans), rank) && Built(spans, children, roots)
    ensures Bounded(children, rank, bound) && (forall k :: 0 <= k < |roots| ==> roots[k] in children)
  {
    bound := RankBound(IdSet(spans), rank);
    ParentsOfDomain(spans);
    forall id, k | id in children && 0 <= k < |children[id]|
      ensures children[id][k] in children && rank(id) < rank(children[id][k]) <= bound
    {
      KidsCorrect(spans, id, children[id][k]);
      assert children[id][k] in multiset(children[id]);
    }
    forall k | 0 <= k < |roots| ensures roots[k] in children {
      RootsAmongCorrect(spans, IdSet(spans), roots[k]);
      assert roots[k] in multiset(roots);
    }
  }

  lemma UnfoldShape(children: map<Id, seq<Id>>, rank: Id -> nat, bound: nat, id: Id)
    requires Bounded(children, rank, bound) && id in children
    ensures var t := Unfold(children, rank, bound, id);
            && (forall k :: 0 <= k < |children[id]| ==> t.children[k] == Unfold(children, rank, bound, children[id][k]))
            && Roots(t.children) == children[id]
  {
    var t := Unfold(children, rank, bound, id);
    forall k | 0 <= k < |children[id]| ensures t.children[k] == Unfold(children, rank, bound, children[id][k]) {
    }
  }

  lemma ChildrenCorrect(spans: seq<Span>, children: map<Id, seq<Id>>, roots: seq<Id>, id: Id)
    requires UniqueIds(spans) && Built(spans, children, roots) && id in children
    ensures id in ParentsOf(spans)
    ensures forall x :: multiset(children[id])[x] == if x in ParentsOf(spans) && ParentsOf(spans)[x] == Some(id) then 1 else 0
  {
    ParentsOfDomain(spans);
    forall x ensures multiset(children[id])[x] == if x in ParentsOf(spans) && ParentsOf(spans)[x] == Some(id) then 1 else 0 {
      KidsCorrect(spans, id, x);
    }
  }

  lemma {:induction false} UnfoldIsLinked(spans: seq<Span>, children: map<Id, seq<Id>>, roots: seq<Id>, rank: Id -> nat, bound: nat, id: Id)
    requires UniqueIds(spans) && Built(spans, children, roots) && Bounded(children, rank, bound) && id in children
    ensures Linked(ParentsOf(spans), Unfold(children, rank, bound, id))
    decreases if rank(id) <= bound then bound - rank(id) + 1 else 0
  {
    hide Built, UniqueIds, Unfold;
    var t := Unfold(children, rank, bound, id);
    UnfoldShape(children, rank, bound, id);
    ChildrenCorrect(spans, children, roots, id);
    forall k | 0 <= k < |t.children| ensures Linked(ParentsOf(spans), t.children[k]) {
      assert rank(id) < rank(children[id][k]) <= bound;
      UnfoldIsLinked(spans, children, roots, rank, bound, children[id][k]);
    }
    AllLinked(ParentsOf(spans), t.children);
  }

  lemma {:induction false} AllLinked(p: Parents, ts: seq<Tree>)
    requires forall k :: 0 <= k < |ts| ==> Linked(p, ts[k])
    ensures LinkedAll(p, ts)
    decreases |ts|
  {
    if ts != [] { AllLinked(p, ts[1..]); }
  }

  ghost function Forest(children: map<Id, seq<Id>>, rank: Id -> nat, bound: nat, roots: seq<Id>): seq<Tree>
    requires Bounded(children, rank, bound) && (forall k :: 0 <= k < |roots| ==> roots[k] in children)
  {
    seq(|roots|, k requires 0 <= k < |roots| => Unfold(children, rank, bound, roots[k]))
  }

  lemma ForestConservesSpans(spans: seq<Span>, children: map<Id, seq<Id>>, roots: seq<Id>, rank: Id -> nat, bound: nat)
    requires UniqueIds(spans) && Ranked(ParentsOf(spans), rank) && Built(spans, children, roots)
    requires Bounded(children, rank, bound) && (forall k :: 0 <= k < |roots| ==> roots[k] in children)
    ensures LinkedAll(ParentsOf(spans), Forest(children, rank, bound, roots))
    ensures forall x :: multiset(FlattenAll(Forest(children, rank, bound, roots)))[x] == if x in IdSet(spans) then 1 else 0
  {
    var p, forest := ParentsOf(spans), Forest(children, rank, bound, roots);
    ParentsOfDomain(spans);
    forall k | 0 <= k < |forest| ensures Linked(p, forest[k]) {
      UnfoldIsLinked(spans, children, roots, rank, bound, roots[k]);
    }
    AllLinked(p, forest);
    assert Roots(forest) == roots;
    forall x ensures multiset(roots)[x] == if x in p && !(p[x].Some? && p[x].value in p) then 1 else 0 {
      RootsAmongCorrect(spans, IdSet(spans), x);
    }
    forall x ensures multiset(FlattenAll(forest))[x] == if x in IdSet(spans) then 1 else 0 {
      if x in p { OccursOnce(p, rank, forest, x); } else { OnlySpansOccurAll(p, forest, x); }
    }
  }

  /**
   On unique ids and acyclic parents, flattening the built tree gives every span exactly once and nothing
   else, and below every node stand exactly the spans whose parent it is.
   */
  lemma TreeConservesSpans(spans: seq<Span>, children: map<Id, seq<Id>>, roots: seq<Id>)
    returns (rank: Id -> nat, bound: nat)
    requires UniqueIds(spans) && Acyclic(ParentsOf(spans)) && Built(spans, children, roots)
    ensures Bounded(children, rank, bound) && (forall k :: 0 <= k < |roots| ==> roots[k] in children)
    ensures LinkedAll(ParentsOf(spans), Forest(children, rank, bound, roots))
    ensures forall x :: multiset(FlattenAll(Forest(children, rank, bound, roots)))[x] == if x in IdSet(spans) then 1 else 0
  {
    rank :| Ranked(ParentsOf(spans), rank);
    bound := BuiltIsBounded(spans, children, roots, rank);
    ForestConservesSpans(spans, children, roots, rank, bound);
  }
}
