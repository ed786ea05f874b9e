/** The blocked medoid of a cluster's vectors. */
module Medoid {
  import opened Common
  import EmbeddingCache

  type Vec = EmbeddingCache.Vec
  type Root = EmbeddingCache.Root

  function Dot(x: Vec, y: Vec): real
    requires |x| == |y|
  {
    if x == [] then 0.0 else Dot(x[..|x| - 1], y[..|y| - 1]) + x[|x| - 1] * y[|y| - 1]
  }

  function SquaredDistance(x: Vec, y: Vec): real
    requires |x| == |y|
  {
    if x == [] then 0.0
    else
      var d := x[|x| - 1] - y[|y| - 1];
      SquaredDistance(x[..|x| - 1], y[..|y| - 1]) + d * d
  }

  /** The Euclidean distance. */
  function Distance(root: Root, x: Vec, y: Vec): real
    requires |x| == |y|
  {
    root(SquaredDistance(x, y))
  }

  ghost predicate Rectangular(vectors: seq<Vec>) {
    forall i, j :: 0 <= i < |vectors| && 0 <= j < |vectors| ==> |vectors[i]| == |vectors[j]|
  }

  /** The sum of the distances from `x` to the first `n` vectors. */
  function DistanceSum(root: Root, vectors: seq<Vec>, x: Vec, n: nat): real
    requires n <= |vectors| && forall j :: 0 <= j < |vectors| ==> |vectors[j]| == |x|
  {
    if n == 0 then 0.0 else DistanceSum(root, vectors, x, n - 1) + Distance(root, x, vectors[n - 1])
  }

  function TotalDistance(root: Root, vectors: seq<Vec>, i: nat): real
    requires i < |vectors| && Rectangular(vectors)
  {
    DistanceSum(root, vectors, vectors[i], |vectors|)
  }

  /** The expanded square is the squared distance, so it is never negative. */
  lemma {:induction false} ExpandedSquare(x: Vec, y: Vec)
    requires |x| == |y|
    ensures Dot(x, x) + Dot(y, y) - 2.0 * Dot(x, y) == SquaredDistance(x, y) >= 0.0
  {
    if x != [] {
      ExpandedSquare(x[..|x| - 1], y[..|y| - 1]);
      var a, b := x[|x| - 1], y[|y| - 1];
      assert a * a + b * b - 2.0 * (a * b) == (a - b) * (a - b);
      assert (a - b) * (a - b) >= 0.0;
    }
  }

  function Max(a: real, b: real): real { if a < b then b else a }

  method SquaredNorms(vectors: seq<Vec>) returns (norms: array<real>)
    ensures norms.Length == |vectors| && forall i :: 0 <= i < |vectors| ==> norms[i] == Dot(vectors[i], vectors[i])
    ensures fresh(norms)
  {
    norms := new real[|vectors|];
    for i := 0 to |vectors|
      invariant forall k :: 0 <= k < i ==> norms[k] == Dot(vectors[k], vectors[k])
    {
      norms[i] := Dot(vectors[i], vectors[i]);
    }
  }

  /** One row of the block: expanded squares, cut off at zero, rooted and summed. */
  method RowSum(root: Root, vectors: seq<Vec>, norms: array<real>, i: nat) returns (sum: real)
    requires i < |vectors| && Rectangular(vectors)
    requires norms.Length == |vectors| && forall k :: 0 <= k < |vectors| ==> norms[k] == Dot(vectors[k], vectors[k])
    ensures sum == TotalDistance(root, vectors, i)
  {
    sum := 0.0;
    for j := 0 to |vectors|
      invariant sum == DistanceSum(root, vectors, vectors[i], j)
    {
      ExpandedSquare(vectors[i], vectors[j]);
      var squared := norms[i] + norms[j] - 2.0 * Dot(vectors[i], vectors[j]);
      sum := sum + root(Max(squared, 0.0));
    }
  }

  /** The sums of all rows, a block of rows at a time. */
  method BlockedSums(root: Root, vectors: seq<Vec>, blockSize: nat) returns (sums: array<real>)
    requires Rectangular(vectors) && blockSize > 0
    ensures sums.Length == |vectors| && forall i :: 0 <= i < |vectors| ==> sums[i] == TotalDistance(root, vectors, i)
    ensures fresh(sums)
  {
    var norms := SquaredNorms(vectors);
    sums := new real[|vectors|];
    var start := 0;
    while start < |vectors|
      invariant 0 <= start
      invariant forall k :: 0 <= k < start && k < |vectors| ==> sums[k] == TotalDistance(root, vectors, k)
      invariant forall k :: 0 <= k < |vectors| ==> norms[k] == Dot(vectors[k], vectors[k])
    {
      var stop := if start + blockSize < |vectors| then start + blockSize else |vectors|;
      for i := start to stop
        invariant forall k :: 0 <= k < i ==> sums[k] == TotalDistance(root, vectors, k)
        invariant forall k :: 0 <= k < |vectors| ==> norms[k] == Dot(vectors[k], vectors[k])
      {
        sums[i] := RowSum(root, vectors, norms, i);
      }
      start := start + blockSize;
    }
  }

  /** The first index whose total distance to all vectors is least. */
  ghost predicate IsMedoid(root: Root, vectors: seq<Vec>, m: nat)
    requires Rectangular(vectors)
  {
    && m < |vectors|
    && (forall i :: 0 <= i < |vectors| ==> TotalDistance(root, vectors, m) <= TotalDistance(root, vectors, i))
    && (forall i :: 0 <= i < m ==> TotalDistance(root, vectors, m) < TotalDistance(root, vectors, i))
  }

  /** Fails exactly on no vectors; the result does not depend on the block size. */
  method SelectMedoid(root: Root, vectors: seq<Vec>, blockSize: nat) returns (m: Option<nat>)
    requires Rectangular(vectors) && blockSize > 0
    ensures m.None? <==> vectors == []
    ensures m.Some? ==> IsMedoid(root, vectors, m.value)
  {
    if vectors == [] { return None; }
    var sums := BlockedSums(root, vectors, blockSize);
    var best := 0;
    for i := 1 to |vectors|
      invariant 0 <= best < i
      invariant forall k :: 0 <= k < i ==> sums[best] <= sums[k]
      invariant forall k :: 0 <= k < best ==> sums[best] < sums[k]
    {
      if sums[i] < sums[best] { best := i; }
    }
    m := Some(best);
  }

  /** There is only one such index. */
  lemma MedoidIsUnique(root: Root, vectors: seq<Vec>, m: nat, n: nat)
    requires Rectangular(vectors) && IsMedoid(root, vectors, m) && IsMedoid(root, vectors, n)
    ensures m == n
  {
    assert TotalDistance(root, vectors, m) <= TotalDistance(root, vectors, n) <= TotalDistance(root, vectors, m);
  }
}
