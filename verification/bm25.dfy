/** The BM25 fallback scorer.  The logarithm is a parameter. */
module Bm25 {
  import opened Common
  import opened Sums

  type Doc = seq<string>
  type Log = real -> real

  const K1 := 1.5
  const B := 0.75

  ghost predicate IsLog(log: Log) {
    forall x :: x > 1.0 ==> log(x) > 0.0
  }

  function Freq(doc: Doc, token: string): nat {
    multiset(doc)[token]
  }

  function Length(doc: Doc): real { |doc| as real }

  function Has(token: string): Doc -> real {
    doc => if token in doc then 1.0 else 0.0
  }

  /** How many documents hold the token. */
  function DocumentFrequency(corpus: seq<Doc>, token: string): real {
    Sum(Has(token), corpus)
  }

  function AverageLength(corpus: seq<Doc>): real {
    if corpus == [] then 0.0 else Sum(Length, corpus) / |corpus| as real
  }

  function Rarity(docs: real, frequency: real): real
    requires frequency + 0.5 != 0.0
  {
    1.0 + (docs - frequency + 0.5) / (frequency + 0.5)
  }

  lemma {:induction false} FrequencyBounds(corpus: seq<Doc>, token: string)
    ensures 0.0 <= DocumentFrequency(corpus, token) <= |corpus| as real
  {
    if corpus != [] { FrequencyBounds(corpus[..|corpus| - 1], token); }
  }

  function Idf(log: Log, corpus: seq<Doc>, token: string): real {
    FrequencyBounds(corpus, token);
    log(Rarity(|corpus| as real, DocumentFrequency(corpus, token)))
  }

  /** The divisor of the average length: an average of zero counts as one. */
  function Norm(average: real): real {
    if average == 0.0 then 1.0 else average
  }

  function Saturation(frequency: nat, length: real, average: real): real {
    if Norm(average) == 0.0 then 0.0 else frequency as real + K1 * (1.0 - B + B * length / Norm(average))
  }

  function Contribution(idf: real, frequency: nat, denominator: real): real {
    if frequency == 0 || denominator == 0.0 then 0.0 else idf * frequency as real * (K1 + 1.0) / denominator
  }

  function TermScore(log: Log, corpus: seq<Doc>, doc: Doc, token: string): real {
    Contribution(Idf(log, corpus, token), Freq(doc, token), Saturation(Freq(doc, token), |doc| as real, AverageLength(corpus)))
  }

  function TermScores(log: Log, corpus: seq<Doc>, doc: Doc): string -> real {
    token => TermScore(log, corpus, doc, token)
  }

  function Score(log: Log, corpus: seq<Doc>, doc: Doc, query: seq<string>): real {
    Sum(TermScores(log, corpus, doc), query)
  }

  predicate SharesToken(doc: Doc, query: seq<string>) {
    exists token :: token in query && token in doc
  }

  // --------------------------------------------------------------- positivity

  lemma RarityAboveOne(docs: real, frequency: real)
    requires 0.0 <= frequency <= docs
    ensures Rarity(docs, frequency) > 1.0
  {
    QuotientIsPositive(docs - frequency + 0.5, frequency + 0.5);
  }

  lemma SaturationIsPositive(frequency: nat, length: real, average: real)
    requires frequency > 0 && length >= 0.0 && average >= 0.0
    ensures Saturation(frequency, length, average) > 0.0
  {
    QuotientIsPositive(B * length, Norm(average));
  }

  lemma {:induction false} TotalLengthIsNotNegative(corpus: seq<Doc>)
    ensures Sum(Length, corpus) >= 0.0
  {
    if corpus != [] { TotalLengthIsNotNegative(corpus[..|corpus| - 1]); }
  }

  lemma AverageIsNotNegative(corpus: seq<Doc>)
    ensures AverageLength(corpus) >= 0.0
  {
    TotalLengthIsNotNegative(corpus);
    if corpus != [] { QuotientIsPositive(Sum(Length, corpus), |corpus| as real); }
  }

  lemma ProductIsPositive(a: real, b: real)
    requires a > 0.0 && b > 0.0
    ensures a * b > 0.0
  {
  }

  lemma TermScoreSign(log: Log, corpus: seq<Doc>, doc: Doc, token: string)
    requires IsLog(log)
    ensures token in doc ==> TermScore(log, corpus, doc, token) > 0.0
    ensures token !in doc ==> TermScore(log, corpus, doc, token) == 0.0
  {
    assert token in doc <==> Freq(doc, token) > 0;
    if token in doc {
      FrequencyBounds(corpus, token);
      RarityAboveOne(|corpus| as real, DocumentFrequency(corpus, token));
      AverageIsNotNegative(corpus);
      SaturationIsPositive(Freq(doc, token), |doc| as real, AverageLength(corpus));
      var idf, f, d := Idf(log, corpus, token), Freq(doc, token) as real, Saturation(Freq(doc, token), |doc| as real, AverageLength(corpus));
      hide Idf, Freq, Saturation;
      ProductIsPositive(idf, f);
      ProductIsPositive(idf * f, K1 + 1.0);
      QuotientIsPositive(idf * f * (K1 + 1.0), d);
    }
  }

  /** A document scores above zero exactly when it holds a token of the query, and never below. */
  lemma PositiveIffSharesToken(log: Log, corpus: seq<Doc>, doc: Doc, query: seq<string>)
    requires IsLog(log)
    ensures Score(log, corpus, doc, query) >= 0.0
    ensures Score(log, corpus, doc, query) > 0.0 <==> SharesToken(doc, query)
  {
    var f := TermScores(log, corpus, doc);
    forall token ensures f(token) >= 0.0 && (f(token) > 0.0 <==> token in doc) { TermScoreSign(log, corpus, doc, token); }
    hide TermScores;
    SumIsNotNegative(f, query);
    if !SharesToken(doc, query) { SumIsZero(f, query); }
  }

  // ------------------------------------------------------------ corpus order

  lemma AverageIgnoresOrder(a: seq<Doc>, b: seq<Doc>)
    requires multiset(a) == multiset(b)
    ensures |a| == |b| && AverageLength(a) == AverageLength(b)
  {
    assert |a| == |multiset(a)| && |multiset(b)| == |b|;
    SumOfPermutation(Length, a, b);
    hide Sum;
  }

  lemma IdfIgnoresOrder(log: Log, a: seq<Doc>, b: seq<Doc>, token: string)
    requires multiset(a) == multiset(b)
    ensures Idf(log, a, token) == Idf(log, b, token)
  {
    AverageIgnoresOrder(a, b);
    SumOfPermutation(Has(token), a, b);
    hide Sum, Rarity;
  }

  lemma TermIgnoresOrder(log: Log, a: seq<Doc>, b: seq<Doc>, doc: Doc, token: string)
    requires multiset(a) == multiset(b)
    ensures TermScores(log, a, doc)(token) == TermScores(log, b, doc)(token)
  {
    AverageIgnoresOrder(a, b);
    IdfIgnoresOrder(log, a, b, token);
    hide Idf, AverageLength, Saturation, Freq, Contribution;
  }

  /** The scores do not depend on the order in which the corpus is listed. */
  lemma ScoreIgnoresCorpusOrder(log: Log, a: seq<Doc>, b: seq<Doc>, doc: Doc, query: seq<string>)
    requires multiset(a) == multiset(b)
    ensures Score(log, a, doc, query) == Score(log, b, doc, query)
  {
    hide TermScores;
    var f, g := TermScores(log, a, doc), TermScores(log, b, doc);
    forall token ensures f(token) == g(token) { TermIgnoresOrder(log, a, b, doc, token); }
    SumOfEqualTerms(f, g, query);
  }

  lemma {:induction false} SumOfEqualTerms(f: string -> real, g: string -> real, s: seq<string>)
    requires forall x :: f(x) == g(x)
    ensures Sum(f, s) == Sum(g, s)
  {
    if s != [] { SumOfEqualTerms(f, g, s[..|s| - 1]); }
  }

  // ------------------------------------------------------------------ scorer

  function TokenCount(counts: map<string, nat>, token: string): nat {
    if token in counts then counts[token] else 0
  }

  lemma FreqAppended(doc: Doc, token: string, t: string)
    ensures Freq(doc + [token], t) == Freq(doc, t) + if t == token then 1 else 0
  {
  }

  method CountTokens(doc: Doc) returns (counts: map<string, nat>)
    ensures forall t :: TokenCount(counts, t) == Freq(doc, t)
    ensures forall t :: t in counts <==> t in doc
  {
    counts := map[];
    for i := 0 to |doc|
      invariant forall t :: TokenCount(counts, t) == Freq(doc[..i], t)
      invariant forall t :: t in counts <==> t in doc[..i]
    {
      assert doc[..i + 1] == doc[..i] + [doc[i]];
      forall t { FreqAppended(doc[..i], doc[i], t); }
      hide Freq;
      counts := counts[doc[i] := TokenCount(counts, doc[i]) + 1];
    }
    assert doc[..|doc|] == doc;
  }

  /** Counts in how many documents each token occurs. */
  method CountDocuments(corpus: seq<Doc>) returns (counts: map<string, nat>)
    ensures forall t :: TokenCount(counts, t) as real == DocumentFrequency(corpus, t)
    ensures forall doc, t :: doc in corpus && t in doc ==> t in counts
  {
    counts := map[];
    for i := 0 to |corpus|
      invariant forall t :: TokenCount(counts, t) as real == DocumentFrequency(corpus[..i], t)
      invariant forall doc, t :: doc in corpus[..i] && t in doc ==> t in counts
    {
      assert corpus[..i + 1][..i] == corpus[..i];
      var doc := corpus[i];
      counts := CountDocument(counts, doc);
      assert corpus[..i + 1] == corpus[..i] + [doc];
      forall t ensures DocumentFrequency(corpus[..i + 1], t) == DocumentFrequency(corpus[..i], t) + Has(t)(doc) { }
    }
    assert corpus[..|corpus|] == corpus;
  }

  method CountDocument(before: map<string, nat>, doc: Doc) returns (counts: map<string, nat>)
    ensures forall t :: TokenCount(counts, t) == TokenCount(before, t) + if t in doc then 1 else 0
    ensures forall t :: t in counts <==> t in before || t in doc
  {
    var tokens := set t | t in doc;
    counts := before;
    while tokens != {}
      invariant forall t :: t in tokens ==> t in doc
      invariant forall t :: TokenCount(counts, t) == TokenCount(before, t) + if t in doc && t !in tokens then 1 else 0
      invariant forall t :: t in counts <==> t in before || (t in doc && t !in tokens)
      decreases |tokens|
    {
      var t :| t in tokens;
      counts := counts[t := TokenCount(counts, t) + 1];
      tokens := tokens - {t};
    }
  }

  class SimpleBm25 {
    const docCount: nat
    const docLengths: seq<nat>
    const avgdl: real
    const termFreqs: seq<map<string, nat>>
    const idf: map<string, real>

    /** The tables are those of the corpus. */
    ghost predicate Models(log: Log, corpus: seq<Doc>) {
      && docCount == |corpus| == |docLengths| == |termFreqs|
      && avgdl == AverageLength(corpus)
      && (forall i :: 0 <= i < |corpus| ==> docLengths[i] == |corpus[i]|)
      && (forall i, t :: 0 <= i < |corpus| ==> TokenCount(termFreqs[i], t) == Freq(corpus[i], t))
      && (forall doc, t :: doc in corpus && t in doc ==> t in idf)
      && (forall t :: t in idf ==> idf[t] == Idf(log, corpus, t))
    }

    constructor (log: Log, corpus: seq<Doc>)
      ensures Models(log, corpus)
    {
      var lengths: seq<nat>, freqs: seq<map<string, nat>>, total := [], [], 0.0;
      for i := 0 to |corpus|
        invariant |lengths| == |freqs| == i
        invariant forall k :: 0 <= k < i ==> lengths[k] == |corpus[k]|
        invariant forall k, t :: 0 <= k < i ==> TokenCount(freqs[k], t) == Freq(corpus[k], t)
        invariant total == Sum(Length, corpus[..i])
      {
        assert corpus[..i + 1][..i] == corpus[..i];
        var counts := CountTokens(corpus[i]);
        lengths, freqs, total := lengths + [|corpus[i]|], freqs + [counts], total + |corpus[i]| as real;
      }
      assert corpus[..|corpus|] == corpus;
      var frequencies := CountDocuments(corpus);
      forall t ensures TokenCount(frequencies, t) as real == DocumentFrequency(corpus, t) { }
      docCount, docLengths, termFreqs := |corpus|, lengths, freqs;
      avgdl := if |corpus| != 0 then total / |corpus| as real else 0.0;
      idf := map t | t in frequencies :: log(Rarity(|corpus| as real, frequencies[t] as real));
    }

    /** What one token of the query adds to the score of document `i`. */
    method TermOf(log: Log, ghost corpus: seq<Doc>, i: nat, token: string) returns (score: real)
      requires Models(log, corpus) && i < |corpus|
      ensures score == TermScore(log, corpus, corpus[i], token)
    {
      hide Idf, AverageLength;
      var frequency := TokenCount(termFreqs[i], token);
      assert frequency == Freq(corpus[i], token);
      if frequency == 0 { return 0.0; }
      AverageIsNotNegative(corpus);
      SaturationIsPositive(frequency, |corpus[i]| as real, AverageLength(corpus));
      assert corpus[i] in corpus && token in corpus[i];
      var denominator := frequency as real + K1 * (1.0 - B + B * docLengths[i] as real / (if avgdl == 0.0 then 1.0 else avgdl));
      assert denominator == Saturation(frequency, |corpus[i]| as real, AverageLength(corpus));
      score := (if token in idf then idf[token] else 0.0) * frequency as real * (K1 + 1.0) / denominator;
    }

    method ScoreOf(log: Log, ghost corpus: seq<Doc>, i: nat, query: seq<string>) returns (score: real)
      requires Models(log, corpus) && i < |corpus|
      ensures score == Score(log, corpus, corpus[i], query)
    {
      hide TermScore, Models;
      score := 0.0;
      for j := 0 to |query|
        invariant score == Score(log, corpus, corpus[i], query[..j])
      {
        assert query[..j + 1][..j] == query[..j];
        var term := TermOf(log, corpus, i, query[j]);
        score := score + term;
      }
      assert query[..|query|] == query;
    }

    method GetScores(log: Log, ghost corpus: seq<Doc>, query: seq<string>) returns (scores: seq<real>)
      requires Models(log, corpus)
      ensures |scores| == |corpus|
      ensures forall i :: 0 <= i < |corpus| ==> scores[i] == Score(log, corpus, corpus[i], query)
    {
      hide Score;
      scores := [];
      for i := 0 to docCount
        invariant |scores| == i
        invariant forall k :: 0 <= k < i ==> scores[k] == Score(log, corpus, corpus[k], query)
      {
        var score := ScoreOf(log, corpus, i, query);
        scores := scores + [score];
      }
    }
  }
}
