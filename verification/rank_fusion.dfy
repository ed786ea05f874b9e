/**
 The last stage of hybrid retrieval: the dense and the sparse hits are fused by reciprocal rank, the best of them
 are reranked, and the best of those are returned.  The reranker and the matcher of technical tokens are parameters.
 */
module RankFusion {
  import opened Common
  import Sorting
  import Strings
  import Sums

  datatype Chunk = Chunk(id: string, text: string, source: string, metadata: string)
  datatype SearchHit = SearchHit(chunk: Chunk, score: real)

  // -------------------------------------------------------------- rank fusion

  datatype Fused = Fused(chunk: Chunk, score: real, denseRank: Option<nat>, sparseRank: Option<nat>)

  /** What a hit at a rank (the first is 1) adds. */
  function RankWeight(weight: real, k: nat, rank: nat): real
    requires rank > 0
  {
    weight / (k + rank) as real
  }

  function Slot(fused: map<string, Fused>, chunk: Chunk): Fused {
    if chunk.id in fused then fused[chunk.id] else Fused(chunk, 0.0, None, None)
  }

  function AddDense(fused: map<string, Fused>, hits: seq<SearchHit>, k: nat, weight: real): map<string, Fused> {
    if hits == [] then fused
    else
      var before, hit := AddDense(fused, hits[..|hits| - 1], k, weight), hits[|hits| - 1];
      var slot := Slot(before, hit.chunk);
      before[hit.chunk.id := slot.(denseRank := Some(|hits|), score := slot.score + RankWeight(weight, k, |hits|))]
  }

  function AddSparse(fused: map<string, Fused>, hits: seq<SearchHit>, k: nat, weight: real): map<string, Fused> {
    if hits == [] then fused
    else
      var before, hit := AddSparse(fused, hits[..|hits| - 1], k, weight), hits[|hits| - 1];
      var slot := Slot(before, hit.chunk);
      before[hit.chunk.id := slot.(sparseRank := Some(|hits|), score := slot.score + RankWeight(weight, k, |hits|))]
  }

  function Fuse(dense: seq<SearchHit>, sparse: seq<SearchHit>, k: nat, denseWeight: real, sparseWeight: real): map<string, Fused> {
    AddSparse(AddDense(map[], dense, k, denseWeight), sparse, k, sparseWeight)
  }

  function Ids(hits: seq<SearchHit>): seq<string> {
    seq(|hits|, i requires 0 <= i < |hits| => hits[i].chunk.id)
  }

  /** The order in which a dictionary of the hits' chunks lists its keys. */
  function FusedOrder(dense: seq<SearchHit>, sparse: seq<SearchHit>): seq<string> {
    Strings.FirstMet(Ids(dense) + Ids(sparse))
  }

  /** The table and the order of its keys after hits with these ids. */
  ghost predicate Lists(fused: map<string, Fused>, order: seq<string>, ids: seq<string>) {
    order == Strings.FirstMet(ids) && forall id :: id in fused <==> id in ids
  }

  lemma ListsOneMore(fused: map<string, Fused>, order: seq<string>, ids: seq<string>, n: nat, entry: Fused)
    requires n < |ids| && Lists(fused, order, ids[..n])
    ensures Lists(fused[ids[n] := entry], if ids[n] in fused then order else order + [ids[n]], ids[..n + 1])
  {
    assert ids[..n + 1] == ids[..n] + [ids[n]] && ids[..n + 1][..n] == ids[..n];
    Strings.FirstMetHolds(ids[..n]);
  }

  lemma DenseOneMore(fused: map<string, Fused>, hits: seq<SearchHit>, k: nat, weight: real, i: nat)
    requires i < |hits|
    ensures var before := AddDense(fused, hits[..i], k, weight);
            var slot := Slot(before, hits[i].chunk);
            AddDense(fused, hits[..i + 1], k, weight)
            == before[hits[i].chunk.id := slot.(denseRank := Some(i + 1), score := slot.score + RankWeight(weight, k, i + 1))]
  {
    assert hits[..i + 1][..i] == hits[..i];
  }

  lemma SparseOneMore(fused: map<string, Fused>, hits: seq<SearchHit>, k: nat, weight: real, i: nat)
    requires i < |hits|
    ensures var before := AddSparse(fused, hits[..i], k, weight);
            var slot := Slot(before, hits[i].chunk);
            AddSparse(fused, hits[..i + 1], k, weight)
            == before[hits[i].chunk.id := slot.(sparseRank := Some(i + 1), score := slot.score + RankWeight(weight, k, i + 1))]
  {
    assert hits[..i + 1][..i] == hits[..i];
  }

  /** The fused table, and its keys in the order of their insertion. */
  method RrfCandidates(dense: seq<SearchHit>, sparse: seq<SearchHit>, k: nat, denseWeight: real, sparseWeight: real)
    returns (fused: map<string, Fused>, order: seq<string>)
    ensures fused == Fuse(dense, sparse, k, denseWeight, sparseWeight) && order == FusedOrder(dense, sparse)
  {
    hide *;
    fused, order := map[], [];
    ghost var all, m := Ids(dense) + Ids(sparse), |dense|;
    NothingListed(dense, sparse, k, denseWeight);
    for i := 0 to |dense|
      invariant fused == AddDense(map[], dense[..i], k, denseWeight)
      invariant Lists(fused, order, all[..i])
    {
      DenseOneMore(map[], dense, k, denseWeight, i);
      IdsAt(dense, sparse, i);
      var slot := Slot(fused, dense[i].chunk);
      var entry := slot.(denseRank := Some(i + 1), score := slot.score + RankWeight(denseWeight, k, i + 1));
      ListsOneMore(fused, order, all, i, entry);
      if dense[i].chunk.id !in fused { order := order + [dense[i].chunk.id]; }
      fused := fused[dense[i].chunk.id := entry];
    }
    assert dense[..m] == dense;
    ghost var first := fused;
    SparseOfNone(first, sparse, k, sparseWeight);
    for i := 0 to |sparse|
      invariant fused == AddSparse(first, sparse[..i], k, sparseWeight)
      invariant Lists(fused, order, all[..m + i])
    {
      SparseOneMore(first, sparse, k, sparseWeight, i);
      IdsAt(dense, sparse, m + i);
      var slot := Slot(fused, sparse[i].chunk);
      var entry := slot.(sparseRank := Some(i + 1), score := slot.score + RankWeight(sparseWeight, k, i + 1));
      ListsOneMore(fused, order, all, m + i, entry);
      if sparse[i].chunk.id !in fused { order := order + [sparse[i].chunk.id]; }
      fused := fused[sparse[i].chunk.id := entry];
    }
    assert sparse[..|sparse|] == sparse;
    ListsMeans(fused, order, dense, sparse, k, denseWeight, sparseWeight);
  }

  lemma NothingListed(dense: seq<SearchHit>, sparse: seq<SearchHit>, k: nat, weight: real)
    ensures AddDense(map[], dense[..0], k, weight) == map[]
    ensures Lists(map[], [], (Ids(dense) + Ids(sparse))[..0]) && |Ids(dense) + Ids(sparse)| == |dense| + |sparse|
  {
  }

  lemma IdsAt(dense: seq<SearchHit>, sparse: seq<SearchHit>, i: nat)
    requires i < |dense| + |sparse|
    ensures |Ids(dense) + Ids(sparse)| == |dense| + |sparse|
    ensures (Ids(dense) + Ids(sparse))[i] == if i < |dense| then dense[i].chunk.id else sparse[i - |dense|].chunk.id
  {
  }

  lemma SparseOfNone(fused: map<string, Fused>, hits: seq<SearchHit>, k: nat, weight: real)
    ensures AddSparse(fused, hits[..0], k, weight) == fused
  {
  }

  lemma ListsMeans(fused: map<string, Fused>, order: seq<string>, dense: seq<SearchHit>, sparse: seq<SearchHit>,
                   k: nat, denseWeight: real, sparseWeight: real)
    requires Lists(fused, order, (Ids(dense) + Ids(sparse))[..|dense| + |sparse|])
    ensures order == FusedOrder(dense, sparse)
    ensures Fuse(dense, sparse, k, denseWeight, sparseWeight) == AddSparse(AddDense(map[], dense, k, denseWeight), sparse, k, sparseWeight)
  {
    var all := Ids(dense) + Ids(sparse);
    assert all[..|dense| + |sparse|] == all;
  }

  lemma {:induction false} DenseIds(hits: seq<SearchHit>, k: nat, weight: real, id: string)
    ensures var fused := AddDense(map[], hits, k, weight);
            && (id in fused <==> id in Ids(hits))
            && (id in fused ==> fused[id].chunk.id == id && exists i :: 0 <= i < |hits| && hits[i].chunk == fused[id].chunk)
  {
    if hits != [] {
      var n := |hits| - 1;
      DenseIds(hits[..n], k, weight, id);
      DenseIds(hits[..n], k, weight, hits[n].chunk.id);
      assert Ids(hits) == Ids(hits[..n]) + [hits[n].chunk.id];
      hide RankWeight;
    }
  }

  lemma {:induction false} SparseIds(fused: map<string, Fused>, hits: seq<SearchHit>, k: nat, weight: real, id: string)
    requires forall x :: x in fused ==> fused[x].chunk.id == x
    ensures var after := AddSparse(fused, hits, k, weight);
            && (id in after <==> id in fused || id in Ids(hits))
            && (id in after ==>
                  && after[id].chunk.id == id
                  && if id in fused then after[id].chunk == fused[id].chunk
                     else exists i :: 0 <= i < |hits| && hits[i].chunk == after[id].chunk)
  {
    if hits != [] {
      var n := |hits| - 1;
      SparseIds(fused, hits[..n], k, weight, id);
      SparseIds(fused, hits[..n], k, weight, hits[n].chunk.id);
      assert Ids(hits) == Ids(hits[..n]) + [hits[n].chunk.id];
      hide RankWeight;
    }
  }

  ghost predicate IsChunkOf(hits: seq<SearchHit>, c: Chunk) {
    exists i :: 0 <= i < |hits| && hits[i].chunk == c
  }

  /** The table holds every chunk id that was hit, and nothing else; a dense hit provides the chunk itself. */
  lemma FusedIds(dense: seq<SearchHit>, sparse: seq<SearchHit>, k: nat, denseWeight: real, sparseWeight: real, id: string)
    ensures var fused := Fuse(dense, sparse, k, denseWeight, sparseWeight);
            && (id in fused <==> id in FusedOrder(dense, sparse))
            && (id in fused <==> id in Ids(dense) || id in Ids(sparse))
            && (id in fused ==>
                  && fused[id].chunk.id == id
                  && IsChunkOf(if id in Ids(dense) then dense else sparse, fused[id].chunk))
  {
    var first := AddDense(map[], dense, k, denseWeight);
    forall x ensures (x in first <==> x in Ids(dense)) && (x in first ==> first[x].chunk.id == x) { DenseIds(dense, k, denseWeight, x); }
    DenseIds(dense, k, denseWeight, id);
    SparseIds(first, sparse, k, sparseWeight, id);
    Strings.FirstMetHolds(Ids(dense) + Ids(sparse));
  }

  /** The rank a chunk id has in a hit list: one more than its position. */
  function RankIn(hits: seq<SearchHit>, id: string): Option<nat> {
    if hits == [] then None
    else if hits[|hits| - 1].chunk.id == id then Some(|hits|) else RankIn(hits[..|hits| - 1], id)
  }

  function RankTerm(weight: real, k: nat, rank: Option<nat>): real {
    if rank.Some? && rank.value > 0 then RankWeight(weight, k, rank.value) else 0.0
  }

  ghost predicate UniqueHits(hits: seq<SearchHit>) {
    forall i, j :: 0 <= i < j < |hits| ==> hits[i].chunk.id != hits[j].chunk.id
  }

  lemma {:induction false} RankInHits(hits: seq<SearchHit>, id: string)
    ensures RankIn(hits, id).Some? ==> 0 < RankIn(hits, id).value <= |hits| && hits[RankIn(hits, id).value - 1].chunk.id == id
    ensures RankIn(hits, id).None? ==> forall i :: 0 <= i < |hits| ==> hits[i].chunk.id != id
  {
    if hits != [] { RankInHits(hits[..|hits| - 1], id); }
  }

  lemma RankedIffHit(hits: seq<SearchHit>, id: string)
    ensures RankIn(hits, id).Some? <==> id in Ids(hits)
  {
    RankInHits(hits, id);
    hide RankIn;
    assert forall i :: 0 <= i < |hits| ==> Ids(hits)[i] == hits[i].chunk.id;
    if RankIn(hits, id).Some? { assert Ids(hits)[RankIn(hits, id).value - 1] in Ids(hits); }
  }

  lemma {:induction false} DenseRanks(hits: seq<SearchHit>, k: nat, weight: real, id: string)
    requires UniqueHits(hits)
    ensures var fused := AddDense(map[], hits, k, weight);
            && (id in fused <==> RankIn(hits, id).Some?)
            && (id in fused ==> fused[id].denseRank == RankIn(hits, id) && fused[id].sparseRank == None
                                && fused[id].score == RankTerm(weight, k, RankIn(hits, id)))
  {
    if hits != [] {
      var front := hits[..|hits| - 1];
      DenseRanks(front, k, weight, id);
      RankInHits(front, hits[|hits| - 1].chunk.id);
      RankInHits(front, id);
      hide RankWeight;
    }
  }

  lemma {:induction false} SparseRanks(fused: map<string, Fused>, hits: seq<SearchHit>, k: nat, weight: real, id: string)
    requires UniqueHits(hits)
    requires id in fused ==> fused[id].sparseRank == None
    ensures var after := AddSparse(fused, hits, k, weight);
            && (id in after <==> id in fused || RankIn(hits, id).Some?)
            && (id in after ==>
                  && after[id].sparseRank == RankIn(hits, id)
                  && after[id].denseRank == (if id in fused then fused[id].denseRank else None)
                  && after[id].score == (if id in fused then fused[id].score else 0.0) + RankTerm(weight, k, RankIn(hits, id)))
  {
    if hits != [] {
      var front := hits[..|hits| - 1];
      SparseRanks(fused, front, k, weight, id);
      RankInHits(front, hits[|hits| - 1].chunk.id);
      RankInHits(front, id);
      hide RankWeight;
    }
  }

  /** Fusion keeps every chunk that either ranking found, with the sum of its two weighted reciprocal ranks. */
  lemma FusedIsSumOfRanks(dense: seq<SearchHit>, sparse: seq<SearchHit>, k: nat, denseWeight: real, sparseWeight: real, id: string)
    requires UniqueHits(dense) && UniqueHits(sparse)
    ensures var fused := Fuse(dense, sparse, k, denseWeight, sparseWeight);
            && (id in fused <==> RankIn(dense, id).Some? || RankIn(sparse, id).Some?)
            && (id in fused ==>
                  && fused[id].denseRank == RankIn(dense, id) && fused[id].sparseRank == RankIn(sparse, id)
                  && fused[id].score == RankTerm(denseWeight, k, RankIn(dense, id)) + RankTerm(sparseWeight, k, RankIn(sparse, id)))
  {
    DenseRanks(dense, k, denseWeight, id);
    SparseRanks(AddDense(map[], dense, k, denseWeight), sparse, k, sparseWeight, id);
  }

  /** `a` is at least as high as `b`; no rank is the lowest. */
  predicate NotBelow(a: Option<nat>, b: Option<nat>) {
    b.None? || (a.Some? && a.value <= b.value)
  }

  lemma HigherRankAddsMore(weight: real, k: nat, a: Option<nat>, b: Option<nat>)
    requires weight > 0.0 && NotBelow(a, b) && (a.Some? ==> a.value > 0) && (b.Some? ==> b.value > 0)
    ensures RankTerm(weight, k, a) >= RankTerm(weight, k, b)
    ensures a != b ==> RankTerm(weight, k, a) > RankTerm(weight, k, b)
  {
    if a.Some? && b.Some? {
      SmallerDivisor(weight, (k + a.value) as real, (k + b.value) as real);
    } else if a.Some? {
      Sums.QuotientIsPositive(weight, (k + a.value) as real);
    }
  }

  /** `x` was hit at least as high as `y` by both rankings. */
  predicate Dominates(dense: seq<SearchHit>, sparse: seq<SearchHit>, x: string, y: string) {
    NotBelow(RankIn(dense, x), RankIn(dense, y)) && NotBelow(RankIn(sparse, x), RankIn(sparse, y))
  }

  lemma SameRankSameChunk(hits: seq<SearchHit>, x: string, y: string)
    requires RankIn(hits, x).Some? && RankIn(hits, x) == RankIn(hits, y)
    ensures x == y
  {
    RankInHits(hits, x);
    RankInHits(hits, y);
  }

  /** A chunk that is at least as high in both rankings as another one gets a strictly higher fused score. */
  lemma DominantFusesHigher(dense: seq<SearchHit>, sparse: seq<SearchHit>, k: nat, denseWeight: real, sparseWeight: real, x: string, y: string)
    requires UniqueHits(dense) && UniqueHits(sparse) && denseWeight > 0.0 && sparseWeight > 0.0
    requires Dominates(dense, sparse, x, y) && x != y
    requires y in Fuse(dense, sparse, k, denseWeight, sparseWeight)
    ensures var fused := Fuse(dense, sparse, k, denseWeight, sparseWeight);
            x in fused && fused[x].score > fused[y].score
  {
    FusedIsSumOfRanks(dense, sparse, k, denseWeight, sparseWeight, x);
    FusedIsSumOfRanks(dense, sparse, k, denseWeight, sparseWeight, y);
    RankInHits(dense, x);
    RankInHits(dense, y);
    RankInHits(sparse, x);
    RankInHits(sparse, y);
    hide Fuse, RankIn, RankTerm;
    HigherRankAddsMore(denseWeight, k, RankIn(dense, x), RankIn(dense, y));
    HigherRankAddsMore(sparseWeight, k, RankIn(sparse, x), RankIn(sparse, y));
    if RankIn(dense, x) == RankIn(dense, y) && RankIn(dense, x).Some? { SameRankSameChunk(dense, x, y); }
    if RankIn(sparse, x) == RankIn(sparse, y) && RankIn(sparse, x).Some? { SameRankSameChunk(sparse, x, y); }
  }

  lemma SmallerDivisor(w: real, x: real, y: real)
    requires w > 0.0 && 0.0 < x <= y
    ensures w / x >= w / y && (x < y ==> w / x > w / y)
  {
    var p, q := w / x, w / y;
    assert p * x == w && q * y == w;
    assert p <= 0.0 ==> p * x <= 0.0;
    assert (p - q) * y == p * (y - x);
    assert x < y ==> p * (y - x) > 0.0;
    assert p * (y - x) >= 0.0;
    assert p < q ==> (p - q) * y < 0.0;
    assert p == q ==> (p - q) * y == 0.0;
  }

  // ---------------------------------------------------------------- shortlist

  type Reranker = (string, seq<Chunk>) -> seq<real>

  // How many technical tokens of a query occur in a text.
  type Matcher = (string, string) -> nat

  datatype Settings = Settings(
    k: nat, denseWeight: real, sparseWeight: real, rerankLimit: nat, keywordPriority: bool, matches: Matcher, rerank: Reranker)

  // A fused entry and its place in the table.
  datatype Candidate = Candidate(entry: Fused, place: nat)

  /** The fused entries in the order of their insertion. */
  function Pool(s: Settings, dense: seq<SearchHit>, sparse: seq<SearchHit>): seq<Candidate> {
    var fused := Fuse(dense, sparse, s.k, s.denseWeight, s.sparseWeight);
    Placed(fused, FusedOrder(dense, sparse))
  }

  function Placed(fused: map<string, Fused>, order: seq<string>): seq<Candidate> {
    seq(|order|, i requires 0 <= i < |order| => Candidate(EntryOf(fused, order[i]), i))
  }

  function EntryOf(fused: map<string, Fused>, id: string): Fused {
    if id in fused then fused[id] else Fused(Chunk(id, "", "", ""), 0.0, None, None)
  }

  function SparsePlace(e: Fused): nat {
    if e.sparseRank.Some? && e.sparseRank.value != 0 then e.sparseRank.value else 1_000_000_000
  }

  /** Higher fused scores first, then lexical hits, the better ones first, then the order of insertion. */
  predicate Ahead(a: Candidate, b: Candidate) {
    if a.entry.score != b.entry.score then a.entry.score > b.entry.score
    else if a.entry.sparseRank.Some? != b.entry.sparseRank.Some? then a.entry.sparseRank.Some?
    else if SparsePlace(a.entry) != SparsePlace(b.entry) then SparsePlace(a.entry) < SparsePlace(b.entry)
    else a.place < b.place
  }

  lemma PoolIsOrdered(s: Settings, dense: seq<SearchHit>, sparse: seq<SearchHit>)
    ensures Sorting.OrdersElements(Ahead, Pool(s, dense, sparse)) && Distinct(Pool(s, dense, sparse))
  {
    hide Fuse, FusedOrder, SparsePlace;
  }

  /** The candidates that reach the reranker. */
  ghost predicate IsShortlist(s: Settings, dense: seq<SearchHit>, sparse: seq<SearchHit>, shortlist: seq<Candidate>) {
    Sorting.IsFirst(Ahead, Pool(s, dense, sparse), s.rerankLimit, shortlist)
  }

  // -------------------------------------------------------------- final order

  datatype Scored = Scored(candidate: Candidate, rerank: real, matches: nat)

  function ChunksOf(shortlist: seq<Candidate>): seq<Chunk> {
    seq(|shortlist|, i requires 0 <= i < |shortlist| => shortlist[i].entry.chunk)
  }

  /** With keyword priority the matches of technical tokens come first; equal scores leave the order of the shortlist. */
  predicate Outranks(a: Scored, b: Scored) {
    if a.matches != b.matches then a.matches > b.matches
    else if a.rerank != b.rerank then a.rerank > b.rerank
    else Ahead(a.candidate, b.candidate)
  }

  function MatchesOf(s: Settings, query: string, c: Chunk): nat {
    if s.keywordPriority then s.matches(query, c.text) else 0
  }

  function ScoredOf(s: Settings, query: string, shortlist: seq<Candidate>, scores: seq<real>): seq<Scored>
    requires |scores| == |shortlist|
  {
    seq(|shortlist|, i requires 0 <= i < |shortlist| =>
      Scored(shortlist[i], scores[i], MatchesOf(s, query, shortlist[i].entry.chunk)))
  }

  datatype Retrieved = Retrieved(
    chunk: Chunk, marker: string, score: real, denseRank: Option<nat>, sparseRank: Option<nat>, rrfScore: real)

  function RetrievedOf(x: Scored): Retrieved {
    var e := x.candidate.entry;
    Retrieved(e.chunk, "[" + e.chunk.source + ":" + e.chunk.id + "]", x.rerank, e.denseRank, e.sparseRank, e.score)
  }

  function Results(best: seq<Scored>): seq<Retrieved> {
    seq(|best|, i requires 0 <= i < |best| => RetrievedOf(best[i]))
  }

  lemma ScoredIsOrdered(s: Settings, query: string, pool: seq<Candidate>, n: nat, shortlist: seq<Candidate>, scores: seq<real>)
    requires Sorting.OrdersElements(Ahead, pool) && Sorting.IsFirst(Ahead, pool, n, shortlist) && |scores| == |shortlist|
    ensures Sorting.OrdersElements(Outranks, ScoredOf(s, query, shortlist, scores)) && Distinct(ScoredOf(s, query, shortlist, scores))
  {
    hide Ahead;
    var all := ScoredOf(s, query, shortlist, scores);
    forall i, j | 0 <= i < j < |all| ensures Outranks(all[i], all[j]) || Outranks(all[j], all[i]) {
      assert Ahead(shortlist[i], shortlist[j]);
    }
  }

  /**
   What a search answers from its hits: nothing (`None`) exactly when the reranker does not give every shortlisted
   candidate a score, otherwise the best of the shortlist.
   */
  ghost predicate Answers(s: Settings, query: string, dense: seq<SearchHit>, sparse: seq<SearchHit>, topK: nat, answer: Option<seq<Retrieved>>) {
    exists shortlist :: IsShortlist(s, dense, sparse, shortlist) && AnswersFrom(s, query, shortlist, topK, answer)
  }

  ghost predicate AnswersFrom(s: Settings, query: string, shortlist: seq<Candidate>, topK: nat, answer: Option<seq<Retrieved>>) {
    if shortlist == [] then answer == Some([])
    else
      var scores := s.rerank(query, ChunksOf(shortlist));
      if |scores| != |shortlist| then answer == None
      else answer.Some? && exists best ::
        Sorting.IsFirst(Outranks, ScoredOf(s, query, shortlist, scores), topK, best) && answer.value == Results(best)
  }

  /** Fuses, shortlists, reranks and sorts. */
  method RankHits(s: Settings, query: string, dense: seq<SearchHit>, sparse: seq<SearchHit>, topK: nat) returns (answer: Option<seq<Retrieved>>)
    ensures Answers(s, query, dense, sparse, topK, answer)
  {
    hide Ahead, Outranks, Fuse, FusedOrder, Sorting.IsFirst, Sorting.OrdersElements, Sorting.Sort;
    var fused, order := RrfCandidates(dense, sparse, s.k, s.denseWeight, s.sparseWeight);
    var candidates := Sorting.Sort(Ahead, Placed(fused, order));
    ghost var pool := Pool(s, dense, sparse);
    PoolIsOrdered(s, dense, sparse);
    Sorting.SortedPrefixIsFirst(Ahead, pool, s.rerankLimit);
    var shortlist := if s.rerankLimit < |candidates| then candidates[..s.rerankLimit] else candidates;
    assert IsShortlist(s, dense, sparse, shortlist);
    if shortlist == [] { return Some([]); }
    var scores := s.rerank(query, ChunksOf(shortlist));
    if |scores| != |shortlist| { return None; }
    var scored := ScoredOf(s, query, shortlist, scores);
    ScoredIsOrdered(s, query, pool, s.rerankLimit, shortlist, scores);
    Sorting.SortedPrefixIsFirst(Outranks, scored, topK);
    var ranked := Sorting.Sort(Outranks, scored);
    var best := if topK < |ranked| then ranked[..topK] else ranked;
    answer := Some(Results(best));
    assert AnswersFrom(s, query, shortlist, topK, answer);
  }

  // ------------------------------------------------------------- main results

  /** The table's keys are those of its order, each once, and its entries carry them. */
  ghost predicate Keyed(fused: map<string, Fused>, order: seq<string>) {
    Distinct(order) && forall id :: (id in fused <==> id in order) && (id in fused ==> fused[id].chunk.id == id)
  }

  lemma FusedIsKeyed(dense: seq<SearchHit>, sparse: seq<SearchHit>, k: nat, denseWeight: real, sparseWeight: real)
    ensures Keyed(Fuse(dense, sparse, k, denseWeight, sparseWeight), FusedOrder(dense, sparse))
  {
    var fused, order := Fuse(dense, sparse, k, denseWeight, sparseWeight), FusedOrder(dense, sparse);
    Strings.FirstMetHolds(Ids(dense) + Ids(sparse));
    hide Fuse, IsChunkOf;
    forall id ensures (id in fused <==> id in order) && (id in fused ==> fused[id].chunk.id == id) {
      FusedIds(dense, sparse, k, denseWeight, sparseWeight, id);
    }
  }

  lemma PlacedHolds(fused: map<string, Fused>, order: seq<string>)
    requires Keyed(fused, order)
    ensures forall c :: c in Placed(fused, order) ==> c.entry.chunk.id in fused && fused[c.entry.chunk.id] == c.entry
    ensures forall id :: id in fused ==> exists c :: c in Placed(fused, order) && c.entry == fused[id]
    ensures forall c, d :: c in Placed(fused, order) && d in Placed(fused, order) && c.entry.chunk.id == d.entry.chunk.id ==> c == d
  {
    var pool := Placed(fused, order);
    assert forall i :: 0 <= i < |order| ==> order[i] in order && pool[i] == Candidate(fused[order[i]], i);
    forall id | id in fused ensures exists c :: c in pool && c.entry == fused[id] {
      var i :| 0 <= i < |order| && order[i] == id;
      assert pool[i] in pool;
    }
    forall c, d | c in pool && d in pool && c.entry.chunk.id == d.entry.chunk.id ensures c == d {
      var i :| 0 <= i < |order| && pool[i] == c;
      var j :| 0 <= j < |order| && pool[j] == d;
      assert order[i] == order[j];
    }
  }

  /** The pool holds every fused entry exactly once, under its chunk id. */
  lemma PoolHolds(s: Settings, dense: seq<SearchHit>, sparse: seq<SearchHit>)
    ensures var pool, fused := Pool(s, dense, sparse), Fuse(dense, sparse, s.k, s.denseWeight, s.sparseWeight);
            && (forall c :: c in pool ==> c.entry.chunk.id in fused && fused[c.entry.chunk.id] == c.entry)
            && (forall id :: id in fused ==> exists c :: c in pool && c.entry == fused[id])
            && (forall c, d :: c in pool && d in pool && c.entry.chunk.id == d.entry.chunk.id ==> c == d)
  {
    var fused, order := Fuse(dense, sparse, s.k, s.denseWeight, s.sparseWeight), FusedOrder(dense, sparse);
    FusedIsKeyed(dense, sparse, s.k, s.denseWeight, s.sparseWeight);
    hide Fuse, FusedOrder, Keyed, Placed;
    PlacedHolds(fused, order);
  }

  /** Whoever is shortlisted, a chunk that both rankings put at least as high is shortlisted before it. */
  lemma ShortlistKeepsDominant(s: Settings, dense: seq<SearchHit>, sparse: seq<SearchHit>, shortlist: seq<Candidate>, x: string, j: nat)
    requires UniqueHits(dense) && UniqueHits(sparse) && s.denseWeight > 0.0 && s.sparseWeight > 0.0
    requires IsShortlist(s, dense, sparse, shortlist) && j < |shortlist|
    requires Dominates(dense, sparse, x, shortlist[j].entry.chunk.id) && x != shortlist[j].entry.chunk.id
    ensures exists i :: 0 <= i < j && shortlist[i].entry.chunk.id == x
  {
    var y := shortlist[j];
    PoolHolds(s, dense, sparse);
    assert y in shortlist;
    DominantFusesHigher(dense, sparse, s.k, s.denseWeight, s.sparseWeight, x, y.entry.chunk.id);
    var fused := Fuse(dense, sparse, s.k, s.denseWeight, s.sparseWeight);
    FusedIds(dense, sparse, s.k, s.denseWeight, s.sparseWeight, x);
    PoolIsOrdered(s, dense, sparse);
    hide Fuse, Pool, Dominates, FusedOrder;
    var pool := Pool(s, dense, sparse);
    var c :| c in pool && c.entry == fused[x];
    Sorting.OnlyPrefixBefore(Ahead, pool, s.rerankLimit, shortlist, c, j);
    var i :| 0 <= i < j && shortlist[..j][i] == c;
    assert shortlist[i] == c;
  }

  /** `a` does not belong behind `b`. */
  predicate NotBehind(s: Settings, query: string, a: Retrieved, b: Retrieved) {
    var m, n := MatchesOf(s, query, a.chunk), MatchesOf(s, query, b.chunk);
    m > n || (m == n && (a.score > b.score || (a.score == b.score && a.rrfScore >= b.rrfScore)))
  }

  /** A result is a hit, with its ranks in both rankings and the sum of what they add. */
  ghost predicate IsHit(s: Settings, dense: seq<SearchHit>, sparse: seq<SearchHit>, r: Retrieved) {
    && IsChunkOf(if r.denseRank.Some? then dense else sparse, r.chunk)
    && r.denseRank == RankIn(dense, r.chunk.id) && r.sparseRank == RankIn(sparse, r.chunk.id)
    && r.rrfScore == RankTerm(s.denseWeight, s.k, r.denseRank) + RankTerm(s.sparseWeight, s.k, r.sparseRank)
  }

  lemma EntryIsHit(s: Settings, dense: seq<SearchHit>, sparse: seq<SearchHit>, x: Scored)
    requires UniqueHits(dense) && UniqueHits(sparse) && x.candidate in Pool(s, dense, sparse)
    ensures IsHit(s, dense, sparse, RetrievedOf(x))
  {
    var id := x.candidate.entry.chunk.id;
    PoolHolds(s, dense, sparse);
    FusedIds(dense, sparse, s.k, s.denseWeight, s.sparseWeight, id);
    FusedIsSumOfRanks(dense, sparse, s.k, s.denseWeight, s.sparseWeight, id);
    RankedIffHit(dense, id);
    hide Fuse, Pool, FusedOrder, IsChunkOf, RankIn, RankTerm, Ids, UniqueHits;
  }

  lemma PoolIsEmpty(s: Settings, dense: seq<SearchHit>, sparse: seq<SearchHit>)
    ensures Pool(s, dense, sparse) == [] <==> dense == [] && sparse == []
  {
    Strings.FirstMetHolds(Ids(dense) + Ids(sparse));
    if dense != [] { assert (Ids(dense) + Ids(sparse))[0] in Ids(dense) + Ids(sparse); }
    if sparse != [] { assert (Ids(dense) + Ids(sparse))[|dense|] in Ids(dense) + Ids(sparse); }
  }

  /**
   The results are distinct hits in an order that matches, scores and fused scores justify, and there is one
   whenever there is a hit and both limits allow it.
   */
  lemma AnswerMeans(s: Settings, query: string, dense: seq<SearchHit>, sparse: seq<SearchHit>, topK: nat, results: seq<Retrieved>)
    requires UniqueHits(dense) && UniqueHits(sparse)
    requires Answers(s, query, dense, sparse, topK, Some(results))
    ensures |results| <= topK && |results| <= s.rerankLimit
    ensures results == [] <==> topK == 0 || s.rerankLimit == 0 || (dense == [] && sparse == [])
    ensures forall i :: 0 <= i < |results| ==> IsHit(s, dense, sparse, results[i])
    ensures forall i, j :: 0 <= i < j < |results| ==>
              results[i].chunk.id != results[j].chunk.id && NotBehind(s, query, results[i], results[j])
  {
    var shortlist :| IsShortlist(s, dense, sparse, shortlist) && AnswersFrom(s, query, shortlist, topK, Some(results));
    PoolIsEmpty(s, dense, sparse);
    PoolHolds(s, dense, sparse);
    hide Fuse, Pool, FusedOrder, IsHit, UniqueHits;
    if shortlist != [] {
      var scored := ScoredOf(s, query, shortlist, s.rerank(query, ChunksOf(shortlist)));
      var best :| Sorting.IsFirst(Outranks, scored, topK, best) && results == Results(best);
      BestMeans(s, query, dense, sparse, shortlist, scored, topK, best);
    }
  }

  lemma BestMeans(s: Settings, query: string, dense: seq<SearchHit>, sparse: seq<SearchHit>, shortlist: seq<Candidate>,
                  scored: seq<Scored>, topK: nat, best: seq<Scored>)
    requires UniqueHits(dense) && UniqueHits(sparse) && IsShortlist(s, dense, sparse, shortlist)
    requires |s.rerank(query, ChunksOf(shortlist))| == |shortlist|
    requires scored == ScoredOf(s, query, shortlist, s.rerank(query, ChunksOf(shortlist)))
    requires Sorting.IsFirst(Outranks, scored, topK, best)
    ensures forall i :: 0 <= i < |best| ==> IsHit(s, dense, sparse, RetrievedOf(best[i]))
    ensures forall i, j :: 0 <= i < j < |best| ==>
              && best[i].candidate.entry.chunk.id != best[j].candidate.entry.chunk.id
              && NotBehind(s, query, RetrievedOf(best[i]), RetrievedOf(best[j]))
  {
    PoolHolds(s, dense, sparse);
    hide Fuse, Pool, FusedOrder, IsHit, UniqueHits;
    var pool := Pool(s, dense, sparse);
    forall i | 0 <= i < |best|
      ensures best[i].candidate in pool && IsHit(s, dense, sparse, RetrievedOf(best[i]))
      ensures best[i].matches == MatchesOf(s, query, best[i].candidate.entry.chunk)
    {
      assert best[i] in scored;
      var k :| 0 <= k < |scored| && scored[k] == best[i];
      assert shortlist[k] in shortlist;
      EntryIsHit(s, dense, sparse, best[i]);
    }
    forall i, j | 0 <= i < j < |best|
      ensures best[i].candidate.entry.chunk.id != best[j].candidate.entry.chunk.id
      ensures NotBehind(s, query, RetrievedOf(best[i]), RetrievedOf(best[j]))
    {
      assert Outranks(best[i], best[j]);
      SameCandidateSameScore(s, query, shortlist, scored, best[i], best[j]);
    }
  }

  lemma SameCandidateSameScore(s: Settings, query: string, shortlist: seq<Candidate>, scored: seq<Scored>, a: Scored, b: Scored)
    requires forall i, j :: 0 <= i < j < |shortlist| ==> Ahead(shortlist[i], shortlist[j])
    requires |s.rerank(query, ChunksOf(shortlist))| == |shortlist|
    requires scored == ScoredOf(s, query, shortlist, s.rerank(query, ChunksOf(shortlist)))
    requires a in scored && b in scored
    ensures a.candidate == b.candidate ==> a == b
  {
    var i :| 0 <= i < |scored| && scored[i] == a;
    var j :| 0 <= j < |scored| && scored[j] == b;
    assert i < j ==> Ahead(shortlist[i], shortlist[j]);
    assert j < i ==> Ahead(shortlist[j], shortlist[i]);
  }

  lemma AnswerFromIsUnique(s: Settings, query: string, pool: seq<Candidate>, n: nat, shortlist: seq<Candidate>, topK: nat,
                           a: Option<seq<Retrieved>>, b: Option<seq<Retrieved>>)
    requires Sorting.OrdersElements(Ahead, pool) && Sorting.IsFirst(Ahead, pool, n, shortlist)
    requires AnswersFrom(s, query, shortlist, topK, a) && AnswersFrom(s, query, shortlist, topK, b)
    ensures a == b
  {
    var scores := s.rerank(query, ChunksOf(shortlist));
    hide Ahead, Outranks, Results, Sorting.IsFirst, Sorting.OrdersElements;
    if shortlist != [] && |scores| == |shortlist| {
      var scored := ScoredOf(s, query, shortlist, scores);
      var x :| Sorting.IsFirst(Outranks, scored, topK, x) && a.value == Results(x);
      var y :| Sorting.IsFirst(Outranks, scored, topK, y) && b.value == Results(y);
      ScoredIsOrdered(s, query, pool, n, shortlist, scores);
      Sorting.FirstIsUnique(Outranks, scored, topK, x, y);
    }
  }

  /** The hits decide the answer: nothing is left to the order in which tables or equal scores come. */
  lemma AnswerIsUnique(s: Settings, query: string, dense: seq<SearchHit>, sparse: seq<SearchHit>, topK: nat,
                       a: Option<seq<Retrieved>>, b: Option<seq<Retrieved>>)
    requires Answers(s, query, dense, sparse, topK, a) && Answers(s, query, dense, sparse, topK, b)
    ensures a == b
  {
    var x :| IsShortlist(s, dense, sparse, x) && AnswersFrom(s, query, x, topK, a);
    var y :| IsShortlist(s, dense, sparse, y) && AnswersFrom(s, query, y, topK, b);
    var pool := Pool(s, dense, sparse);
    PoolIsOrdered(s, dense, sparse);
    hide Pool, Ahead, AnswersFrom, Sorting.IsFirst, Sorting.OrdersElements;
    Sorting.FirstIsUnique(Ahead, pool, s.rerankLimit, x, y);
    AnswerFromIsUnique(s, query, pool, s.rerankLimit, x, topK, a, b);
  }
}
