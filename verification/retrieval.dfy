/**
 Hybrid retrieval: the persisted dense store, the process-local sparse index rebuilt from it,
 lexical search and rank fusion.  Tokenizer, logarithm and primary scorer are parameters.
 */
module Retrieval {
  import opened Common
  import opened Bm25
  import opened RankFusion
  import opened Sums
  import Sorting
  import Strings

  type Tokenizer = string -> Doc

  // A primary scorer may give any scores, negative ones included.
  type Primary = (seq<Doc>, seq<string>) -> seq<real>

  // ------------------------------------------------------- keyed chunk lists

  ghost predicate UniqueChunks(s: seq<Chunk>) {
    forall i, j :: 0 <= i < j < |s| ==> s[i].id != s[j].id
  }

  function AsMap(s: seq<Chunk>): map<string, Chunk> {
    if s == [] then map[] else AsMap(s[..|s| - 1])[s[|s| - 1].id := s[|s| - 1]]
  }

  /** An insertion-ordered dictionary: a new value takes the place of the old one of its key. */
  function Put(s: seq<Chunk>, c: Chunk): seq<Chunk> {
    if s == [] then [c] else if s[0].id == c.id then [c] + s[1..] else [s[0]] + Put(s[1..], c)
  }

  function PutAll(s: seq<Chunk>, more: seq<Chunk>): seq<Chunk> {
    if more == [] then s else Put(PutAll(s, more[..|more| - 1]), more[|more| - 1])
  }

  ghost predicate HasId(s: seq<Chunk>, id: string) {
    exists i :: 0 <= i < |s| && s[i].id == id
  }

  lemma {:induction false} AsMapLookup(s: seq<Chunk>, id: string)
    ensures id in AsMap(s) <==> HasId(s, id)
    ensures id in AsMap(s) ==> AsMap(s)[id].id == id && AsMap(s)[id] in s
    ensures UniqueChunks(s) ==> forall i :: 0 <= i < |s| ==> s[i].id in AsMap(s) && AsMap(s)[s[i].id] == s[i]
  {
    if s != [] {
      var front, last := s[..|s| - 1], s[|s| - 1];
      AsMapLookup(front, id);
      if HasId(s, id) && last.id != id {
        var i :| 0 <= i < |s| && s[i].id == id;
        assert front[i].id == id;
      }
      if HasId(front, id) {
        var i :| 0 <= i < |front| && front[i].id == id;
        assert s[i].id == id;
      }
      assert HasId(s, last.id);
    }
  }

  lemma {:induction false} PutKeepsOthers(s: seq<Chunk>, c: Chunk)
    requires UniqueChunks(s)
    ensures UniqueChunks(Put(s, c))
    ensures forall d :: d in Put(s, c) <==> d == c || (d in s && d.id != c.id)
  {
    if s != [] {
      var rest := s[1..];
      assert s == [s[0]] + rest;
      assert forall d :: d in rest ==> d.id != s[0].id by {
        forall d | d in rest ensures d.id != s[0].id { var i :| 0 <= i < |rest| && rest[i] == d; assert s[i + 1] == d; }
      }
      if s[0].id != c.id {
        PutKeepsOthers(rest, c);
        assert forall d :: d in Put(rest, c) ==> d.id != s[0].id;
      }
    }
  }

  lemma SameChunksSameMap(s: seq<Chunk>, m: map<string, Chunk>)
    requires UniqueChunks(s)
    requires forall d :: d in s <==> d.id in m && m[d.id] == d
    requires forall id :: id in m ==> m[id].id == id
    ensures AsMap(s) == m
  {
    forall id ensures id in AsMap(s) <==> id in m { AsMapLookup(s, id); if id in m { var c := m[id]; assert c in s; } }
    forall id | id in m ensures AsMap(s)[id] == m[id] {
      AsMapLookup(s, id);
      assert m[id] in s;
    }
  }

  lemma MapMembers(s: seq<Chunk>)
    requires UniqueChunks(s)
    ensures forall d :: d in s <==> d.id in AsMap(s) && AsMap(s)[d.id] == d
    ensures forall id :: id in AsMap(s) ==> AsMap(s)[id].id == id
  {
    forall d ensures d in s <==> d.id in AsMap(s) && AsMap(s)[d.id] == d { AsMapLookup(s, d.id); }
    forall id | id in AsMap(s) ensures AsMap(s)[id].id == id { AsMapLookup(s, id); }
  }

  lemma PutAsMap(s: seq<Chunk>, c: Chunk)
    requires UniqueChunks(s)
    ensures UniqueChunks(Put(s, c)) && AsMap(Put(s, c)) == AsMap(s)[c.id := c]
  {
    PutKeepsOthers(s, c);
    MapMembers(s);
    hide AsMap, Put, UniqueChunks;
    SameChunksSameMap(Put(s, c), AsMap(s)[c.id := c]);
  }

  lemma OverlayOneMore(a: map<string, Chunk>, b: map<string, Chunk>, c: Chunk)
    ensures (a + b)[c.id := c] == a + b[c.id := c]
    ensures a + map[] == a
  {
  }

  lemma {:induction false} PutAllAsMap(s: seq<Chunk>, more: seq<Chunk>)
    requires UniqueChunks(s)
    ensures UniqueChunks(PutAll(s, more)) && AsMap(PutAll(s, more)) == AsMap(s) + AsMap(more)
  {
    hide UniqueChunks, Put;
    if more == [] {
      OverlayOneMore(AsMap(s), map[], Chunk("", "", "", ""));
    } else {
      var front, last := more[..|more| - 1], more[|more| - 1];
      PutAllAsMap(s, front);
      PutAsMap(PutAll(s, front), last);
      OverlayOneMore(AsMap(s), AsMap(front), last);
    }
  }

  /** Lists of unique chunks with the same map hold the same chunks. */
  lemma SameMapSameChunks(a: seq<Chunk>, b: seq<Chunk>)
    requires UniqueChunks(a) && UniqueChunks(b) && AsMap(a) == AsMap(b)
    ensures multiset(a) == multiset(b)
  {
    MapMembers(a);
    MapMembers(b);
    Sorting.SameSetSameElements(a, b);
  }

  // ------------------------------------------------------------ sparse index

  function Tokens(tokenize: Tokenizer, s: seq<Chunk>): seq<Doc> {
    seq(|s|, i requires 0 <= i < |s| => tokenize(s[i].text))
  }

  datatype Rank = Rank(index: nat, score: real)

  /** Higher scores first, equal ones in the order of the corpus. */
  predicate Before(a: Rank, b: Rank) {
    a.score > b.score || (a.score == b.score && a.index < b.index)
  }

  function Ranks(scores: seq<real>): seq<Rank> {
    seq(|scores|, i requires 0 <= i < |scores| => Rank(i, scores[i]))
  }

  /** `best` are the positive scores that come first, at most `limit` of them. */
  ghost predicate IsTop(scores: seq<real>, limit: nat, best: seq<Rank>) {
    && (forall r :: r in best ==> r.index < |scores| && r.score == scores[r.index] && r.score > 0.0)
    && (forall i, j :: 0 <= i < j < |best| ==> Before(best[i], best[j]))
    && |best| <= limit
    && (forall i :: 0 <= i < |scores| && scores[i] > 0.0 && Rank(i, scores[i]) !in best ==>
          |best| == limit && forall r :: r in best ==> Before(r, Rank(i, scores[i])))
  }

  ghost predicate AnyPositive(scores: seq<real>) {
    exists i :: 0 <= i < |scores| && scores[i] > 0.0
  }

  lemma RanksAreOrdered(scores: seq<real>)
    ensures Sorting.OrdersElements(Before, Ranks(scores))
  {
  }

  lemma SortedRanks(scores: seq<real>) returns (ranked: seq<Rank>)
    ensures ranked == Sorting.Sort(Before, Ranks(scores)) && |ranked| == |scores|
    ensures forall r :: r in ranked <==> r.index < |scores| && r.score == scores[r.index]
    ensures forall i, j :: 0 <= i < j < |ranked| ==> Before(ranked[i], ranked[j])
  {
    var ranks := Ranks(scores);
    ranked := Sorting.Sort(Before, ranks);
    RanksAreOrdered(scores);
    Sorting.SortsStrictly(Before, ranks);
    forall r ensures r in ranked <==> r.index < |scores| && r.score == scores[r.index] {
      if r.index < |scores| && r.score == scores[r.index] { assert ranks[r.index] == r; }
    }
  }

  /** `best` are the positive ones among the first `n` of the ranking. */
  ghost predicate PositiveAmong(ranked: seq<Rank>, n: nat, best: seq<Rank>)
    requires n <= |ranked|
  {
    && |best| <= n
    && (forall r :: r in best <==> r in ranked[..n] && r.score > 0.0)
    && (forall i, j :: 0 <= i < j < |best| ==> Before(best[i], best[j]))
    && ((forall r :: r in ranked[..n] ==> r.score > 0.0) ==> |best| == n)
  }

  lemma OneMorePositive(ranked: seq<Rank>, n: nat, best: seq<Rank>)
    requires n < |ranked| && PositiveAmong(ranked, n, best)
    requires forall i, j :: 0 <= i < j < |ranked| ==> Before(ranked[i], ranked[j])
    ensures PositiveAmong(ranked, n + 1, if ranked[n].score > 0.0 then best + [ranked[n]] else best)
  {
    assert ranked[..n + 1] == ranked[..n] + [ranked[n]];
    assert forall r :: r in ranked[..n] ==> Before(r, ranked[n]);
    hide Before;
  }

  /** The positive ones among the first `limit` are the top: whatever is missing comes after all of them. */
  lemma PositiveIsTop(scores: seq<real>, limit: nat, ranked: seq<Rank>, n: nat, best: seq<Rank>)
    requires |ranked| == |scores| && n == (if limit < |ranked| then limit else |ranked|)
    requires forall r :: r in ranked <==> r.index < |scores| && r.score == scores[r.index]
    requires forall i, j :: 0 <= i < j < |ranked| ==> Before(ranked[i], ranked[j])
    requires PositiveAmong(ranked, n, best)
    ensures IsTop(scores, limit, best)
  {
    assert forall k :: 0 <= k < n ==> ranked[k] in ranked[..n];
    forall i | 0 <= i < |scores| && scores[i] > 0.0 && Rank(i, scores[i]) !in best
      ensures |best| == limit && forall r :: r in best ==> Before(r, Rank(i, scores[i]))
    {
      var x := Rank(i, scores[i]);
      assert x in ranked;
      var k :| 0 <= k < |ranked| && ranked[k] == x;
      assert forall r :: r in ranked[..n] ==> Before(r, x);
    }
  }

  /** The first `limit` of the ranking, without those that are not positive. */
  method TopPositive(scores: seq<real>, limit: nat) returns (best: seq<Rank>)
    ensures IsTop(scores, limit, best)
  {
    hide Sorting.Sort, Before, IsTop;
    var ranked := Sorting.Sort(Before, Ranks(scores));
    ghost var same := SortedRanks(scores);
    best := [];
    var n := if limit < |ranked| then limit else |ranked|;
    for k := 0 to n
      invariant PositiveAmong(ranked, k, best)
    {
      OneMorePositive(ranked, k, best);
      hide PositiveAmong;
      if ranked[k].score > 0.0 { best := best + [ranked[k]]; }
    }
    PositiveIsTop(scores, limit, ranked, n, best);
  }

  class SparseIndex {
    const log: Log
    const tokenize: Tokenizer
    const primary: Primary
    var chunks: seq<Chunk>
    var tokenized: seq<Doc>
    var fallback: SimpleBm25?

    ghost predicate Valid()
      reads this
    {
      && tokenized == Tokens(tokenize, chunks)
      && (if fallback == null then chunks == [] else fallback.Models(log, tokenized))
    }

    constructor (log: Log, tokenize: Tokenizer, primary: Primary)
      ensures Valid() && chunks == [] && this.log == log && this.tokenize == tokenize && this.primary == primary
    {
      this.log, this.tokenize, this.primary := log, tokenize, primary;
      chunks, tokenized, fallback := [], [], null;
    }

    method Rebuild()
      modifies this`tokenized, this`fallback
      ensures Valid()
    {
      tokenized := Tokens(tokenize, chunks);
      fallback := new SimpleBm25(log, tokenized);
    }

    method IndexChunks(more: seq<Chunk>)
      modifies this`chunks, this`tokenized, this`fallback
      ensures Valid() && chunks == more
    {
      chunks := more;
      Rebuild();
    }

    /** Merges by id: a known chunk is replaced in its place, a new one appended. */
    method UpsertChunks(more: seq<Chunk>)
      requires Valid() && UniqueChunks(chunks)
      modifies this`chunks, this`tokenized, this`fallback
      ensures Valid() && UniqueChunks(chunks) && AsMap(chunks) == AsMap(old(chunks)) + AsMap(more)
      ensures chunks == PutAll(old(chunks), more)
    {
      var merged := chunks;
      for i := 0 to |more|
        invariant merged == PutAll(chunks, more[..i])
      {
        assert more[..i + 1][..i] == more[..i];
        merged := Put(merged, more[i]);
      }
      assert more[..|more|] == more;
      PutAllAsMap(chunks, more);
      chunks := merged;
      Rebuild();
    }

    /** The scores a search ranks by: the primary ones if any is positive, else the fallback's. */
    ghost function ScoresFor(query: string): seq<real>
      reads this
    {
      var q := tokenize(query);
      var first := primary(tokenized, q);
      if AnyPositive(first) then first
      else seq(|tokenized|, i requires 0 <= i < |tokenized| reads this => Score(log, tokenized, tokenized[i], q))
    }

    method Search(query: string, limit: nat) returns (hits: seq<SearchHit>)
      requires Valid() && |primary(tokenized, tokenize(query))| == |tokenized|
      ensures |ScoresFor(query)| == |chunks|
      ensures exists best :: IsTop(ScoresFor(query), limit, best) && AreHits(chunks, best, hits)
    {
      hits := [];
      if |chunks| == 0 || fallback == null {
        assert ScoresFor(query) == [] && IsTop([], limit, []);
        return;
      }
      var q := tokenize(query);
      var scores := primary(tokenized, q);
      var any := false;
      for i := 0 to |scores|
        invariant any <==> exists k :: 0 <= k < i && scores[k] > 0.0
      {
        if scores[i] > 0.0 { any := true; }
      }
      if !any {
        scores := fallback.GetScores(log, tokenized, q);
      }
      assert scores == ScoresFor(query);
      var top := TopPositive(scores, limit);
      for k := 0 to |top|
        invariant |hits| == k
        invariant forall j :: 0 <= j < k ==> top[j].index < |chunks| && hits[j] == SearchHit(chunks[top[j].index], top[j].score)
      {
        assert top[k] in top;
        hits := hits + [SearchHit(chunks[top[k].index], top[k].score)];
      }
    }
  }

  /** The chunks at the ranked places of the corpus, with their scores. */
  ghost predicate AreHits(corpus: seq<Chunk>, best: seq<Rank>, hits: seq<SearchHit>) {
    && |hits| == |best|
    && forall k :: 0 <= k < |hits| ==> best[k].index < |corpus| && hits[k] == SearchHit(corpus[best[k].index], best[k].score)
  }

  /**
   Whatever the primary scorer says, a search finds something exactly when its limit allows it and the
   primary scorer is positive somewhere or some chunk shares a token with the query.
   */
  lemma SearchFinds(log: Log, primary: seq<real>, corpus: seq<Doc>, query: seq<string>, scores: seq<real>, limit: nat, best: seq<Rank>)
    requires IsLog(log) && |primary| == |corpus| == |scores|
    requires if AnyPositive(primary) then scores == primary
             else forall i :: 0 <= i < |corpus| ==> scores[i] == Score(log, corpus, corpus[i], query)
    requires IsTop(scores, limit, best)
    ensures best != [] <==>
            limit > 0 && (AnyPositive(primary) || exists i :: 0 <= i < |corpus| && SharesToken(corpus[i], query))
    ensures !AnyPositive(primary) ==> forall r :: r in best ==> SharesToken(corpus[r.index], query)
  {
    forall i | 0 <= i < |corpus| ensures Score(log, corpus, corpus[i], query) > 0.0 <==> SharesToken(corpus[i], query) {
      PositiveIffSharesToken(log, corpus, corpus[i], query);
    }
    hide Score, SharesToken;
    if best != [] { assert best[0] in best; }
  }

  // ------------------------------------------------------------- dense store

  class DenseIndex {
    var points: map<string, Chunk>

    /** The constructor of an empty collection; a restart keeps the collection it had. */
    constructor ()
      ensures points == map[]
    {
      points := map[];
    }

    /** One point a chunk id; the vectors are not modelled. */
    method Upsert(chunks: seq<Chunk>)
      modifies this
      ensures points == old(points) + AsMap(chunks)
    {
      for i := 0 to |chunks|
        invariant points == old(points) + AsMap(chunks[..i])
      {
        assert chunks[..i + 1][..i] == chunks[..i];
        points := points[chunks[i].id := chunks[i]];
      }
      assert chunks[..|chunks|] == chunks;
    }

    /** All points, in ascending order of their chunk id. */
    method LoadChunks() returns (chunks: seq<Chunk>)
      requires forall id :: id in points ==> points[id].id == id
      ensures UniqueChunks(chunks) && AsMap(chunks) == points
      ensures forall i, j :: 0 <= i < j < |chunks| ==> Strings.Less(chunks[i].id, chunks[j].id)
    {
      var keys := Strings.CollectKeys(points);
      var sorted := Strings.SortKeys(keys);
      var stored := points;
      chunks := seq(|sorted|, i requires 0 <= i < |sorted| => (assert sorted[i] in sorted; stored[sorted[i]]));
      forall k | 0 <= k < |chunks| ensures sorted[k] in points && chunks[k] == points[sorted[k]] && chunks[k].id == sorted[k] {
        assert sorted[k] in sorted;
      }
      forall d ensures d in chunks <==> d.id in points && points[d.id] == d {
        if d.id in points && points[d.id] == d {
          assert d.id in sorted;
          var k :| 0 <= k < |sorted| && sorted[k] == d.id;
          assert chunks[k] == d;
        }
      }
      SameChunksSameMap(chunks, points);
    }
  }

  // ---------------------------------------------------------- hybrid retriever

  /** The persisted points, the sparse corpus of the running process and whether it counts as hydrated. */
  datatype State = State(points: map<string, Chunk>, corpus: seq<Chunk>, hydrated: bool)

  /** Points are stored under their own id, and a sparse corpus that is in use is the persisted one. */
  ghost predicate Agrees(s: State) {
    && (forall id :: id in s.points ==> s.points[id].id == id)
    && UniqueChunks(s.corpus)
    && (s.hydrated || s.corpus != [] ==> AsMap(s.corpus) == s.points)
  }

  ghost predicate Hydrates(s: State, t: State) {
    && t.points == s.points && t.hydrated && UniqueChunks(t.corpus)
    && if s.hydrated || s.corpus != [] then t.corpus == s.corpus else AsMap(t.corpus) == s.points
  }

  ghost predicate IsIndexed(s: State, chunks: seq<Chunk>, t: State) {
    if chunks == [] then t == s
    else exists m :: Hydrates(s, m) && t == State(m.points + AsMap(chunks), PutAll(m.corpus, chunks), true)
  }

  class HybridRetriever {
    const dense: DenseIndex
    const sparse: SparseIndex
    var hydrated: bool

    ghost function Abstract(): State
      reads this, dense, sparse
    {
      State(dense.points, sparse.chunks, hydrated)
    }

    ghost predicate Valid()
      reads this, dense, sparse
    {
      sparse.Valid() && Agrees(Abstract())
    }

    /** A start of the process: the dense store is what earlier processes left, the sparse index is new. */
    constructor (dense: DenseIndex, sparse: SparseIndex)
      requires sparse.Valid() && sparse.chunks == []
      requires forall id :: id in dense.points ==> dense.points[id].id == id
      ensures this.dense == dense && this.sparse == sparse && Valid() && Abstract() == State(dense.points, [], false)
    {
      this.dense, this.sparse, hydrated := dense, sparse, |sparse.chunks| != 0;
    }

    method EnsureSparseHydrated()
      requires Valid()
      modifies this`hydrated, sparse`chunks, sparse`tokenized, sparse`fallback
      ensures Valid() && Hydrates(old(Abstract()), Abstract())
    {
      if hydrated || |sparse.chunks| != 0 {
        hydrated := true;
        return;
      }
      var chunks := dense.LoadChunks();
      sparse.IndexChunks(chunks);
      hydrated := true;
    }

    /** `embedded` and `written` tell whether the provider and the dense store answered; an exception ends the call. */
    method IndexChunks(chunks: seq<Chunk>, embedded: bool, written: bool) returns (ok: bool)
      requires Valid()
      modifies this`hydrated, dense, sparse`chunks, sparse`tokenized, sparse`fallback
      ensures Valid()
      ensures ok <==> chunks == [] || (embedded && written)
      ensures if ok then IsIndexed(old(Abstract()), chunks, Abstract()) else Hydrates(old(Abstract()), Abstract())
    {
      if |chunks| == 0 { return true; }
      EnsureSparseHydrated();
      if !embedded || !written { return false; }
      ghost var middle := Abstract();
      dense.Upsert(chunks);
      sparse.UpsertChunks(chunks);
      hydrated := true;
      forall id | id in dense.points ensures dense.points[id].id == id { AsMapLookup(chunks, id); }
      assert Abstract() == State(middle.points + AsMap(chunks), PutAll(middle.corpus, chunks), true);
      ok := true;
    }

    /**
     `found` is what the store answers to the embedded query, or `None` if the provider or the store fails.  The answer
     is `None` on such a failure and on the error of a reranker that miscounts.
     */
    method Search(settings: Settings, query: string, topK: int, found: Option<seq<SearchHit>>, sparseLimit: nat)
      returns (answer: Option<seq<Retrieved>>)
      requires Valid()
      requires forall corpus, q :: |sparse.primary(corpus, q)| == |corpus|
      modifies this`hydrated, sparse`chunks, sparse`tokenized, sparse`fallback
      ensures Valid()
      ensures if topK <= 0 then Abstract() == old(Abstract()) && answer == Some([]) else Hydrates(old(Abstract()), Abstract())
      ensures topK > 0 && found.None? ==> answer == None
      ensures topK > 0 && found.Some? ==> exists best, hits ::
                && IsTop(sparse.ScoresFor(query), sparseLimit, best) && AreHits(sparse.chunks, best, hits)
                && Answers(settings, query, found.value, hits, topK, answer)
    {
      answer := Some([]);
      if topK <= 0 { return; }
      EnsureSparseHydrated();
      if found.None? { return None; }
      var sparseHits := sparse.Search(query, sparseLimit);
      answer := RankHits(settings, query, found.value, sparseHits, topK);
    }
  }

  lemma HitsAreUnique(corpus: seq<Chunk>, scores: seq<real>, limit: nat, best: seq<Rank>, hits: seq<SearchHit>)
    requires UniqueChunks(corpus) && IsTop(scores, limit, best) && AreHits(corpus, best, hits)
    ensures UniqueHits(hits)
  {
    assert forall i, j :: 0 <= i < j < |best| ==> best[i] in best && best[j] in best && Before(best[i], best[j]);
  }

  /**
   From the corpus to the results: whatever the primary scorer and the dense store answer, a search whose limits
   allow it finds something if the store did, a primary score is positive or some chunk shares a token with the query.
   */
  lemma HybridSearchFinds(log: Log, tokenize: Tokenizer, primary: seq<real>, corpus: seq<Chunk>, query: string, scores: seq<real>,
                          sparseLimit: nat, best: seq<Rank>, hits: seq<SearchHit>, s: Settings, dense: seq<SearchHit>,
                          topK: nat, results: seq<Retrieved>)
    requires IsLog(log) && UniqueChunks(corpus) && |primary| == |corpus| == |scores|
    requires if AnyPositive(primary) then scores == primary
             else forall i :: 0 <= i < |corpus| ==>
                    scores[i] == Score(log, Tokens(tokenize, corpus), tokenize(corpus[i].text), tokenize(query))
    requires IsTop(scores, sparseLimit, best) && AreHits(corpus, best, hits)
    requires UniqueHits(dense) && topK > 0 && s.rerankLimit > 0 && Answers(s, query, dense, hits, topK, Some(results))
    ensures results != [] <==>
              || dense != []
              || (sparseLimit > 0 && (AnyPositive(primary)
                                      || exists c :: c in corpus && SharesToken(tokenize(c.text), tokenize(query))))
    ensures forall r :: r in results ==> IsHit(s, dense, hits, r) && (r.chunk in corpus || IsChunkOf(dense, r.chunk))
  {
    var docs := Tokens(tokenize, corpus);
    HitsAreUnique(corpus, scores, sparseLimit, best, hits);
    SearchFinds(log, primary, docs, tokenize(query), scores, sparseLimit, best);
    AnswerMeans(s, query, dense, hits, topK, results);
    hide Answers, IsTop, Score, UniqueHits, UniqueChunks;
    assert forall i :: 0 <= i < |docs| ==> docs[i] == tokenize(corpus[i].text) && corpus[i] in corpus;
    hide SharesToken;
    forall r | r in results ensures IsHit(s, dense, hits, r) && (r.chunk in corpus || IsChunkOf(dense, r.chunk)) {
      var i :| 0 <= i < |results| && results[i] == r;
      assert IsHit(s, dense, hits, results[i]);
      if r.denseRank.None? {
        var k :| 0 <= k < |hits| && hits[k].chunk == r.chunk;
      }
    }
  }

  // --------------------------------------------------------------- whole runs

  datatype Op = IndexOp(chunks: seq<Chunk>, ok: bool) | SearchOp(topK: int) | RestartOp

  ghost predicate Steps(s: State, op: Op, t: State) {
    match op
    case IndexOp(chunks, ok) => if ok then IsIndexed(s, chunks, t) else Hydrates(s, t)
    case SearchOp(topK) => if topK <= 0 then t == s else Hydrates(s, t)
    case RestartOp => t == State(s.points, [], false)
  }

  ghost predicate Runs(s: State, ops: seq<Op>, t: State)
    decreases |ops|
  {
    if ops == [] then s == t else exists m :: Steps(s, ops[0], m) && Runs(m, ops[1..], t)
  }

  /** Everything that was ever indexed, later versions over earlier ones. */
  function Indexed(points: map<string, Chunk>, ops: seq<Op>): map<string, Chunk>
    decreases |ops|
  {
    if ops == [] then points
    else Indexed(if ops[0].IndexOp? && ops[0].ok then points + AsMap(ops[0].chunks) else points, ops[1..])
  }

  lemma AgreesStep(s: State, op: Op, t: State)
    requires Agrees(s) && Steps(s, op, t)
    ensures Agrees(t)
    ensures t.points == if op.IndexOp? && op.ok then s.points + AsMap(op.chunks) else s.points
  {
    if op.IndexOp? && op.ok {
      var chunks := op.chunks;
      if chunks == [] {
        assert s.points + AsMap(chunks) == s.points;
      } else {
        var m :| Hydrates(s, m) && t == State(m.points + AsMap(chunks), PutAll(m.corpus, chunks), true);
        PutAllAsMap(m.corpus, chunks);
        forall id | id in t.points ensures t.points[id].id == id { AsMapLookup(chunks, id); }
      }
    }
  }

  /**
   After any sequence of uploads, searches and restarts the corpus of a hydrated process is, as a map from
   chunk id to chunk, what the dense store persists: everything ever indexed.
   */
  lemma {:induction false} HydratedCorpusIsPersisted(s: State, ops: seq<Op>, t: State)
    requires Agrees(s) && Runs(s, ops, t)
    ensures Agrees(t) && t.points == Indexed(s.points, ops)
    ensures t.hydrated ==> AsMap(t.corpus) == Indexed(s.points, ops)
    decreases |ops|
  {
    if ops != [] {
      var m :| Steps(s, ops[0], m) && Runs(m, ops[1..], t);
      AgreesStep(s, ops[0], m);
      HydratedCorpusIsPersisted(m, ops[1..], t);
    }
  }

  lemma TokensRemoved(tokenize: Tokenizer, s: seq<Chunk>, j: nat)
    requires j < |s|
    ensures multiset(Tokens(tokenize, s)) == multiset(Tokens(tokenize, RemoveAt(s, j))) + multiset{tokenize(s[j].text)}
  {
    var tokens := Tokens(tokenize, s);
    assert Tokens(tokenize, RemoveAt(s, j)) == RemoveAt(tokens, j);
    RemovedFromMultiset(tokens, j);
    assert tokens[j] in multiset(tokens);
  }

  lemma {:induction false} TokensOfPermutation(tokenize: Tokenizer, a: seq<Chunk>, b: seq<Chunk>)
    requires multiset(a) == multiset(b)
    ensures multiset(Tokens(tokenize, a)) == multiset(Tokens(tokenize, b))
    decreases |a|
  {
    if a == [] {
      assert |multiset(b)| == 0;
    } else {
      var last: nat := |a| - 1;
      assert a[last] in multiset(b);
      var j :| 0 <= j < |b| && b[j] == a[last];
      RemovedFromMultiset(a, last);
      RemovedFromMultiset(b, j);
      TokensRemoved(tokenize, a, last);
      TokensRemoved(tokenize, b, j);
      hide Tokens;
      TokensOfPermutation(tokenize, RemoveAt(a, last), RemoveAt(b, j));
    }
  }

  /** Rebuilding the corpus from the store, in whatever order, leaves every chunk's score for every query as it was. */
  lemma RebuildKeepsScores(log: Log, tokenize: Tokenizer, s: State, rebuilt: seq<Chunk>, c: Chunk, query: string)
    requires Agrees(s) && s.hydrated && UniqueChunks(rebuilt) && AsMap(rebuilt) == s.points && c in s.corpus
    ensures c in rebuilt
    ensures Score(log, Tokens(tokenize, s.corpus), tokenize(c.text), tokenize(query))
            == Score(log, Tokens(tokenize, rebuilt), tokenize(c.text), tokenize(query))
  {
    SameMapSameChunks(s.corpus, rebuilt);
    Sorting.SameElements(s.corpus, rebuilt);
    TokensOfPermutation(tokenize, s.corpus, rebuilt);
    ScoreIgnoresCorpusOrder(log, Tokens(tokenize, s.corpus), Tokens(tokenize, rebuilt), tokenize(c.text), tokenize(query));
  }
}
