/** The seeds of one feature scope: a representative for each cluster, then the most outlying noise. */
module CandidateSeeds {
  import opened Common
  import opened EmbeddingCache
  import opened MinerStore
  import opened Medoid
  import Miner
  import Sorting
  import Strings

  type Seed = Miner.Seed

  /** A label for each row, -1 for noise, and an outlier score where it is finite. */
  datatype Assignments = Assignments(labels: seq<int>, scores: seq<Option<real>>)

  const BLOCK_SIZE := 256

  function Finite(score: Option<real>): real {
    if score.Some? then score.value else 0.0
  }

  /** The positions of a label, in order. */
  function IndicesOf(labels: seq<int>, l: int): seq<nat> {
    if labels == [] then []
    else
      var last: nat := |labels| - 1;
      IndicesOf(labels[..last], l) + if labels[last] == l then [last] else []
  }

  ghost predicate Within(ix: seq<nat>, n: nat) {
    forall k :: 0 <= k < |ix| ==> ix[k] < n
  }

  lemma {:induction false} IndicesMember(labels: seq<int>, l: int, i: nat)
    ensures i in IndicesOf(labels, l) <==> i < |labels| && labels[i] == l
  {
    if labels != [] { IndicesMember(labels[..|labels| - 1], l, i); }
  }

  lemma {:induction false} IndicesAscend(labels: seq<int>, l: int)
    ensures Within(IndicesOf(labels, l), |labels|)
    ensures forall j, k :: 0 <= j < k < |IndicesOf(labels, l)| ==> IndicesOf(labels, l)[j] < IndicesOf(labels, l)[k]
  {
    if labels != [] { IndicesAscend(labels[..|labels| - 1], l); }
  }

  lemma IndicesHold(labels: seq<int>, l: int)
    ensures forall i: nat :: i in IndicesOf(labels, l) <==> i < |labels| && labels[i] == l
    ensures Within(IndicesOf(labels, l), |labels|)
  {
    forall i: nat ensures i in IndicesOf(labels, l) <==> i < |labels| && labels[i] == l { IndicesMember(labels, l, i); }
    IndicesAscend(labels, l);
  }

  function At<T>(s: seq<T>, ix: seq<nat>): seq<T>
    requires forall i :: i in ix ==> i < |s|
  {
    seq(|ix|, k requires 0 <= k < |ix| => (assert ix[k] in ix; s[ix[k]]))
  }

  // --------------------------------------------------------------- examples

  /** Nearer to the representative first, then older, then by trace. */
  predicate Nearer(root: Root, records: seq<LogRow>, vectors: seq<EmbeddingCache.Vec>, r: nat, i: nat, j: nat)
    requires |vectors| == |records| && r < |records| && Rectangular(vectors)
  {
    && i < |records| && j < |records|
    && var di, dj := Distance(root, vectors[i], vectors[r]), Distance(root, vectors[j], vectors[r]);
    di < dj || (di == dj && Miner.Earlier(records[i], records[j]))
  }

  function Without(ix: seq<nat>, r: nat): seq<nat> {
    if ix == [] then [] else Without(ix[..|ix| - 1], r) + if ix[|ix| - 1] == r then [] else [ix[|ix| - 1]]
  }

  function ByNearness(root: Root, records: seq<LogRow>, vectors: seq<EmbeddingCache.Vec>, members: seq<nat>, r: nat): seq<nat>
    requires |vectors| == |records| && r < |records| && Rectangular(vectors)
  {
    Sorting.Sort((i, j) => Nearer(root, records, vectors, r, i, j), Without(members, r))
  }

  function PromptsAt(records: seq<LogRow>, ix: seq<nat>): seq<string>
    requires forall i :: i in ix ==> i < |records|
  {
    Miner.PromptsOf(At(records, ix))
  }

  /** The first prompts whose normal form has not been seen, as many as there is room for. */
  function Pick(normalize: string -> string, prompts: seq<string>, seen: set<string>, room: nat): seq<string>
    decreases |prompts|
  {
    if room == 0 || prompts == [] then []
    else if normalize(prompts[0]) in seen then Pick(normalize, prompts[1..], seen, room)
    else [prompts[0]] + Pick(normalize, prompts[1..], seen + {normalize(prompts[0])}, room - 1)
  }

  /** Examples differ from the representative and from each other in normal form, and stop short only when there is no other. */
  lemma {:induction false} ExamplesAreDistinct(normalize: string -> string, prompts: seq<string>, seen: set<string>, room: nat)
    ensures var picked := Pick(normalize, prompts, seen, room);
            && |picked| <= room
            && (forall k :: 0 <= k < |picked| ==> normalize(picked[k]) !in seen)
            && (forall j, k :: 0 <= j < k < |picked| ==> normalize(picked[j]) != normalize(picked[k]))
            && (|picked| < room ==>
                  forall q :: q in prompts ==> normalize(q) in seen || exists p :: p in picked && normalize(p) == normalize(q))
    decreases |prompts|
  {
    if room > 0 && prompts != [] {
      var first, rest := prompts[0], prompts[1..];
      assert forall q :: q in prompts <==> q == first || q in rest;
      if normalize(first) in seen {
        ExamplesAreDistinct(normalize, rest, seen, room);
      } else {
        var more := seen + {normalize(first)};
        ExamplesAreDistinct(normalize, rest, more, room - 1);
        var others := Pick(normalize, rest, more, room - 1);
        assert first in [first] + others && forall p :: p in others ==> p in [first] + others;
      }
    }
  }

  /** Collects the picks one prompt at a time. */
  method PickExamples(normalize: string -> string, prompts: seq<string>, first: string, maximum: nat) returns (examples: seq<string>)
    ensures examples == Pick(normalize, prompts, {first}, maximum)
  {
    examples := [];
    var seen, k := {first}, 0;
    ghost var all := Pick(normalize, prompts, seen, maximum);
    assert prompts[0..] == prompts;
    while k < |prompts| && |examples| < maximum
      invariant 0 <= k <= |prompts| && |examples| <= maximum
      invariant examples + Pick(normalize, prompts[k..], seen, maximum - |examples|) == all
    {
      assert prompts[k..][1..] == prompts[k + 1..];
      if normalize(prompts[k]) !in seen {
        ghost var later := Pick(normalize, prompts[k + 1..], seen + {normalize(prompts[k])}, maximum - |examples| - 1);
        assert examples + ([prompts[k]] + later) == (examples + [prompts[k]]) + later;
        seen, examples := seen + {normalize(prompts[k])}, examples + [prompts[k]];
      }
      k := k + 1;
    }
  }

  method NearestDistinctExamples(root: Root, normalize: string -> string, records: seq<LogRow>, vectors: seq<EmbeddingCache.Vec>,
                                 members: seq<nat>, r: nat, maximum: int)
    returns (examples: seq<string>)
    requires |vectors| == |records| && Rectangular(vectors) && r < |records| && forall i :: i in members ==> i < |records|
    ensures forall i :: i in ByNearness(root, records, vectors, members, r) ==> i < |records|
    ensures examples == Pick(normalize, PromptsAt(records, ByNearness(root, records, vectors, members, r)),
                             {normalize(records[r].prompt)}, if maximum <= 0 then 0 else maximum)
  {
    NearnessIsOfMembers(root, records, vectors, members, r);
    hide ByNearness, PromptsAt;
    if maximum <= 0 { return []; }
    var prompts := PromptsAt(records, ByNearness(root, records, vectors, members, r));
    examples := PickExamples(normalize, prompts, normalize(records[r].prompt), maximum);
  }

  lemma {:induction false} WithoutMembers(ix: seq<nat>, r: nat)
    ensures forall i :: i in Without(ix, r) <==> i in ix && i != r
  {
    if ix != [] {
      WithoutMembers(ix[..|ix| - 1], r);
      assert ix == ix[..|ix| - 1] + [ix[|ix| - 1]];
    }
  }

  lemma NearnessIsOfMembers(root: Root, records: seq<LogRow>, vectors: seq<EmbeddingCache.Vec>, members: seq<nat>, r: nat)
    requires |vectors| == |records| && r < |records| && Rectangular(vectors)
    ensures forall i :: i in ByNearness(root, records, vectors, members, r) <==> i in members && i != r
  {
    var lt := (i: nat, j: nat) => Nearer(root, records, vectors, r, i, j);
    WithoutMembers(members, r);
    Sorting.SortKeepsElements(lt, Without(members, r));
    Sorting.SameElements(Sorting.Sort(lt, Without(members, r)), Without(members, r));
  }

  // ------------------------------------------------------------------ seeds

  datatype Scope = Scope(
    root: Root, normalize: string -> string, records: seq<LogRow>, vectors: seq<EmbeddingCache.Vec>,
    assignment: Assignments, maxNoise: int, maxExamples: int)

  ghost predicate Aligned(c: Scope) {
    && |c.vectors| == |c.records| == |c.assignment.labels| == |c.assignment.scores|
    && Rectangular(c.vectors)
  }

  lemma {:induction false} MedoidExists(root: Root, vectors: seq<EmbeddingCache.Vec>, n: nat) returns (m: nat)
    requires Rectangular(vectors) && 0 < n <= |vectors|
    ensures m < n
    ensures forall i :: 0 <= i < n ==> TotalDistance(root, vectors, m) <= TotalDistance(root, vectors, i)
    ensures forall i :: 0 <= i < m ==> TotalDistance(root, vectors, m) < TotalDistance(root, vectors, i)
  {
    hide TotalDistance;
    if n == 1 {
      m := 0;
    } else {
      m := MedoidExists(root, vectors, n - 1);
      if TotalDistance(root, vectors, n - 1) < TotalDistance(root, vectors, m) { m := n - 1; }
    }
  }

  ghost function MedoidOf(root: Root, vectors: seq<EmbeddingCache.Vec>): (m: nat)
    requires Rectangular(vectors) && vectors != []
    ensures IsMedoid(root, vectors, m)
  {
    assert exists m :: IsMedoid(root, vectors, m) by { var m := MedoidExists(root, vectors, |vectors|); assert IsMedoid(root, vectors, m); }
    var m :| IsMedoid(root, vectors, m); m
  }

  lemma SubRectangular(vectors: seq<EmbeddingCache.Vec>, ix: seq<nat>)
    requires Rectangular(vectors) && forall i :: i in ix ==> i < |vectors|
    ensures Rectangular(At(vectors, ix))
  {
    var sub := At(vectors, ix);
    forall i, j | 0 <= i < |sub| && 0 <= j < |sub| ensures |sub[i]| == |sub[j]| { assert ix[i] in ix && ix[j] in ix; }
  }

  /** The position of a cluster's representative: the medoid of its vectors. */
  ghost function RepresentativeOf(c: Scope, l: int): (r: nat)
    requires Aligned(c) && l in c.assignment.labels
    ensures r < |c.records| && c.assignment.labels[r] == l
  {
    IndicesHold(c.assignment.labels, l);
    var ix := IndicesOf(c.assignment.labels, l);
    SubRectangular(c.vectors, ix);
    assert ix != [] by { var i: nat :| i < |c.assignment.labels| && c.assignment.labels[i] == l; assert i in ix; }
    var m := MedoidOf(c.root, At(c.vectors, ix));
    assert ix[m] in ix;
    ix[m]
  }

  function ExamplesOf(c: Scope, members: seq<nat>, r: nat): seq<string>
    requires Aligned(c) && r < |c.records| && forall i :: i in members ==> i < |c.records|
  {
    NearnessIsOfMembers(c.root, c.records, c.vectors, members, r);
    Pick(c.normalize, PromptsAt(c.records, ByNearness(c.root, c.records, c.vectors, members, r)),
         {c.normalize(c.records[r].prompt)}, if c.maxExamples <= 0 then 0 else c.maxExamples)
  }

  ghost function ClusterSeed(c: Scope, l: int): Seed
    requires Aligned(c) && l in c.assignment.labels
  {
    IndicesHold(c.assignment.labels, l);
    var members, r := IndicesOf(c.assignment.labels, l), RepresentativeOf(c, l);
    Miner.Seed(c.records[r], At(c.records, members),
               Tag(if l >= 0 then Some(l) else None, false, Some(Finite(c.assignment.scores[r])), |ExamplesOf(c, members, r)|))
  }

  function LabelSet(labels: seq<int>): seq<int> {
    if labels == [] then []
    else
      var before, last := LabelSet(labels[..|labels| - 1]), labels[|labels| - 1];
      if last >= 0 && last !in before then before + [last] else before
  }

  /** The cluster labels in ascending order; negative labels are none. */
  function ClusterLabels(labels: seq<int>): seq<int> {
    Sorting.Sort((a: int, b: int) => a < b, LabelSet(labels))
  }

  lemma {:induction false} LabelSetHolds(labels: seq<int>)
    ensures Distinct(LabelSet(labels)) && forall l :: l in LabelSet(labels) <==> l in labels && l >= 0
  {
    if labels != [] {
      LabelSetHolds(labels[..|labels| - 1]);
      assert labels == labels[..|labels| - 1] + [labels[|labels| - 1]];
    }
  }

  lemma ClusterLabelsHold(labels: seq<int>)
    ensures forall l :: l in ClusterLabels(labels) <==> l in labels && l >= 0
    ensures forall j, k :: 0 <= j < k < |ClusterLabels(labels)| ==> ClusterLabels(labels)[j] < ClusterLabels(labels)[k]
  {
    var lt, set1 := (a: int, b: int) => a < b, LabelSet(labels);
    var sorted := Sorting.Sort(lt, set1);
    LabelSetHolds(labels);
    Sorting.SortSorts(lt, set1);
    Sorting.SortKeepsElements(lt, set1);
    Sorting.SameElements(sorted, set1);
    Sorting.PermutedStaysDistinct(set1, sorted);
    forall j, k | 0 <= j < k < |sorted| ensures sorted[j] < sorted[k] { assert !lt(sorted[k], sorted[j]); }
  }

  /** More outlying first, then older, then by trace. */
  predicate MoreOutlying(c: Scope, i: nat, j: nat) {
    && i < |c.records| == |c.assignment.scores| && j < |c.records|
    && var si, sj := Finite(c.assignment.scores[i]), Finite(c.assignment.scores[j]);
    si > sj || (si == sj && Miner.Earlier(c.records[i], c.records[j]))
  }

  /** The noise rows, most outlying first. */
  function NoiseOrder(c: Scope): seq<nat> {
    Sorting.Sort((i, j) => MoreOutlying(c, i, j), IndicesOf(c.assignment.labels, -1))
  }

  function NoiseCount(c: Scope): nat {
    if c.maxNoise <= 0 then 0 else if c.maxNoise < |NoiseOrder(c)| then c.maxNoise else |NoiseOrder(c)|
  }

  function NoiseSeed(c: Scope, i: nat): Seed
    requires i < |c.records| == |c.assignment.scores|
  {
    Miner.Seed(c.records[i], [c.records[i]], Tag(None, true, Some(Finite(c.assignment.scores[i])), 0))
  }

  lemma NoiseOrderHolds(c: Scope)
    requires Aligned(c)
    ensures forall i: nat :: i in NoiseOrder(c) <==> i < |c.records| && c.assignment.labels[i] == -1
    ensures Within(NoiseOrder(c), |c.records|) && NoiseCount(c) <= |NoiseOrder(c)|
  {
    var lt, ix := (i: nat, j: nat) => MoreOutlying(c, i, j), IndicesOf(c.assignment.labels, -1);
    IndicesHold(c.assignment.labels, -1);
    Sorting.SortKeepsElements(lt, ix);
    Sorting.SameElements(Sorting.Sort(lt, ix), ix);
    forall k | 0 <= k < |NoiseOrder(c)| ensures NoiseOrder(c)[k] < |c.records| { assert NoiseOrder(c)[k] in NoiseOrder(c); }
  }

  ghost function ClusterSeeds(c: Scope, labels: seq<int>): seq<Seed>
    requires Aligned(c) && forall l :: l in labels ==> l in c.assignment.labels
  {
    if labels == [] then []
    else
      var last := labels[|labels| - 1];
      assert last in labels && forall l :: l in labels[..|labels| - 1] ==> l in labels;
      ClusterSeeds(c, labels[..|labels| - 1]) + [ClusterSeed(c, last)]
  }

  ghost function NoiseSeeds(c: Scope, ix: seq<nat>): seq<Seed>
    requires |c.records| == |c.assignment.scores| && Within(ix, |c.records|)
  {
    if ix == [] then [] else NoiseSeeds(c, ix[..|ix| - 1]) + [NoiseSeed(c, ix[|ix| - 1])]
  }

  /** One seed a cluster in ascending order of label, then the most outlying noise rows on their own. */
  ghost function AllSeeds(c: Scope): seq<Seed>
    requires Aligned(c)
  {
    ClusterLabelsHold(c.assignment.labels);
    NoiseOrderHolds(c);
    ClusterSeeds(c, ClusterLabels(c.assignment.labels)) + NoiseSeeds(c, NoiseOrder(c)[..NoiseCount(c)])
  }

  method BuildClusterSeed(c: Scope, l: int) returns (seed: Seed)
    requires Aligned(c) && l in c.assignment.labels && l >= 0
    ensures seed == ClusterSeed(c, l)
  {
    IndicesHold(c.assignment.labels, l);
    var members := IndicesOf(c.assignment.labels, l);
    SubRectangular(c.vectors, members);
    ghost var representative := RepresentativeOf(c, l);
    assert representative in members;
    var medoid := SelectMedoid(c.root, At(c.vectors, members), BLOCK_SIZE);
    MedoidIsUnique(c.root, At(c.vectors, members), medoid.value, MedoidOf(c.root, At(c.vectors, members)));
    var r := members[medoid.value];
    assert r == representative;
    var examples := NearestDistinctExamples(c.root, c.normalize, c.records, c.vectors, members, r, c.maxExamples);
    seed := Miner.Seed(c.records[r], At(c.records, members), Tag(Some(l), false, Some(Finite(c.assignment.scores[r])), |examples|));
  }

  method BuildClusterSeeds(c: Scope, labels: seq<int>) returns (seeds: seq<Seed>)
    requires Aligned(c) && forall l :: l in labels ==> l in c.assignment.labels && l >= 0
    ensures seeds == ClusterSeeds(c, labels)
  {
    hide ClusterSeed, Aligned;
    seeds := [];
    for k := 0 to |labels|
      invariant seeds == ClusterSeeds(c, labels[..k])
    {
      assert labels[..k + 1][..k] == labels[..k] && labels[k] in labels;
      var seed := BuildClusterSeed(c, labels[k]);
      seeds := seeds + [seed];
    }
    assert labels[..|labels|] == labels;
  }

  method BuildNoiseSeeds(c: Scope, ix: seq<nat>) returns (seeds: seq<Seed>)
    requires |c.records| == |c.assignment.scores| && Within(ix, |c.records|)
    ensures seeds == NoiseSeeds(c, ix)
  {
    hide NoiseSeed;
    seeds := [];
    for k := 0 to |ix|
      invariant seeds == NoiseSeeds(c, ix[..k])
    {
      assert ix[..k + 1][..k] == ix[..k];
      seeds := seeds + [NoiseSeed(c, ix[k])];
    }
    assert ix[..|ix|] == ix;
  }

  /** Fails exactly when the assignments do not align with the rows; the inputs decide the seeds. */
  method BuildCandidateSeeds(c: Scope) returns (seeds: Option<seq<Seed>>)
    requires |c.vectors| == |c.records| && Rectangular(c.vectors)
    ensures seeds.Some? <==> |c.assignment.labels| == |c.records| == |c.assignment.scores|
    ensures seeds.Some? ==> seeds.value == AllSeeds(c)
  {
    if |c.assignment.labels| != |c.records| || |c.assignment.scores| != |c.records| { return None; }
    hide ClusterSeeds, ClusterLabels, NoiseOrder, NoiseSeeds;
    ClusterLabelsHold(c.assignment.labels);
    NoiseOrderHolds(c);
    var found := BuildClusterSeeds(c, ClusterLabels(c.assignment.labels));
    NoNoise(c);
    if c.maxNoise > 0 {
      var noise := BuildNoiseSeeds(c, NoiseOrder(c)[..NoiseCount(c)]);
      found := found + noise;
    } else {
      assert NoiseOrder(c)[..NoiseCount(c)] == [];
    }
    seeds := Some(found);
  }

  lemma NoNoise(c: Scope)
    requires |c.records| == |c.assignment.scores|
    ensures NoiseSeeds(c, []) == []
  {
  }

  // ------------------------------------------------------------ main results

  /** Each row with a cluster label is a member of exactly one cluster, that of its label. */
  lemma EveryClusteredRowOnce(labels: seq<int>, i: nat) returns (k: nat)
    requires i < |labels| && labels[i] >= 0
    ensures k < |ClusterLabels(labels)| && i in IndicesOf(labels, ClusterLabels(labels)[k])
    ensures forall j :: 0 <= j < |ClusterLabels(labels)| && j != k ==> i !in IndicesOf(labels, ClusterLabels(labels)[j])
  {
    ClusterLabelsHold(labels);
    var all := ClusterLabels(labels);
    assert labels[i] in all;
    k :| 0 <= k < |all| && all[k] == labels[i];
    IndicesHold(labels, all[k]);
    forall j | 0 <= j < |all| && j != k ensures i !in IndicesOf(labels, all[j]) {
      IndicesHold(labels, all[j]);
      assert all[j] != all[k];
    }
  }

  /** The representative of a cluster is one of its members, and its first medoid. */
  lemma RepresentativeIsMedoid(c: Scope, l: int) returns (ix: seq<nat>, m: nat)
    requires Aligned(c) && l in c.assignment.labels
    ensures ix == IndicesOf(c.assignment.labels, l) && forall i :: i in ix ==> i < |c.vectors|
    ensures Rectangular(At(c.vectors, ix)) && IsMedoid(c.root, At(c.vectors, ix), m)
    ensures m < |ix| && ix[m] < |c.records| && ClusterSeed(c, l).representative == c.records[ix[m]]
    ensures ClusterSeed(c, l).representative in ClusterSeed(c, l).members
  {
    IndicesHold(c.assignment.labels, l);
    ix := IndicesOf(c.assignment.labels, l);
    SubRectangular(c.vectors, ix);
    var r := RepresentativeOf(c, l);
    assert r in ix;
    m := MedoidOf(c.root, At(c.vectors, ix));
    assert ix[m] in ix && At(c.records, ix)[m] == c.records[ix[m]];
  }

  /** No noise row that was left out is more outlying than one that became a seed. */
  lemma NoiseIsMostOutlying(c: Scope, k: nat, j: nat)
    requires Aligned(c) && Miner.UniqueTraces(c.records) && k < NoiseCount(c) <= j < |NoiseOrder(c)|
    ensures NoiseOrder(c)[k] < |c.records| && NoiseOrder(c)[j] < |c.records|
    ensures MoreOutlying(c, NoiseOrder(c)[k], NoiseOrder(c)[j])
    ensures Finite(c.assignment.scores[NoiseOrder(c)[k]]) >= Finite(c.assignment.scores[NoiseOrder(c)[j]])
  {
    var lt, ix, order := (i: nat, j: nat) => MoreOutlying(c, i, j), IndicesOf(c.assignment.labels, -1), NoiseOrder(c);
    IndicesHold(c.assignment.labels, -1);
    IndicesAscend(c.assignment.labels, -1);
    NoiseOrderHolds(c);
    assert order[k] in order && order[j] in order;
    OutlyingOrders(c, ix);
    Sorting.SortSorts(lt, ix);
    Sorting.SortKeepsElements(lt, ix);
    AscendingIsDistinct(ix);
    Sorting.PermutedStaysDistinct(ix, order);
    assert !lt(order[j], order[k]) && order[j] != order[k];
    OutlyingIsTotal(c, order[k], order[j]);
  }

  lemma AscendingIsDistinct(ix: seq<nat>)
    requires forall j, k :: 0 <= j < k < |ix| ==> ix[j] < ix[k]
    ensures Distinct(ix)
  {
  }

  lemma OutlyingIsTotal(c: Scope, i: nat, j: nat)
    requires Aligned(c) && Miner.UniqueTraces(c.records) && i < |c.records| && j < |c.records| && i != j
    ensures MoreOutlying(c, i, j) || MoreOutlying(c, j, i)
  {
    Strings.LessIsTotal(c.records[i].traceId, c.records[j].traceId);
  }

  lemma OutlyingOrders(c: Scope, ix: seq<nat>)
    requires Aligned(c) && Miner.UniqueTraces(c.records) && forall i :: i in ix ==> i < |c.records|
    ensures Sorting.OrdersElements((i: nat, j: nat) => MoreOutlying(c, i, j), ix)
  {
    var lt := (i: nat, j: nat) => MoreOutlying(c, i, j);
    forall x: nat ensures !lt(x, x) { if x < |c.records| { Strings.LessIsIrreflexive(c.records[x].traceId); } }
    forall x: nat, y: nat, z: nat | lt(x, y) && lt(y, z) ensures lt(x, z) { OutlyingIsTransitive(c, x, y, z); }
    forall x: nat, y: nat | x in ix && y in ix ensures x == y || lt(x, y) || lt(y, x) {
      if x != y { OutlyingIsTotal(c, x, y); }
    }
  }

  lemma OutlyingIsTransitive(c: Scope, x: nat, y: nat, z: nat)
    requires MoreOutlying(c, x, y) && MoreOutlying(c, y, z)
    ensures MoreOutlying(c, x, z)
  {
    var a, b, d := c.records[x].traceId, c.records[y].traceId, c.records[z].traceId;
    if Strings.Less(a, b) && Strings.Less(b, d) { Strings.LessIsTransitive(a, b, d); }
  }
}
