/** Token-frequency cosine scoring of chunks.  The square root is a parameter. */
module LexicalReranker {
  import opened Common
  import opened Sums
  import Bm25
  import EmbeddingCache
  import Sorting
  import Strings

  type Doc = Bm25.Doc
  type Root = EmbeddingCache.Root

  function Product(f: string -> real, g: string -> real): string -> real {
    t => f(t) * g(t)
  }

  function Counts(doc: Doc): string -> real {
    t => Bm25.Freq(doc, t) as real
  }

  function Times(a: Doc, b: Doc): string -> real {
    Product(Counts(a), Counts(b))
  }

  /** The inner product of two token counts, over the tokens of the first. */
  function DotProduct(a: Doc, b: Doc): real {
    Sum(Times(a, b), Strings.FirstMet(a))
  }

  function NormOf(root: Root, doc: Doc): real {
    root(DotProduct(doc, doc))
  }

  function Ratio(dot: real, r: real, s: real): real {
    if r == 0.0 || s == 0.0 || r * s == 0.0 then 0.0 else dot / (r * s)
  }

  function Cosine(root: Root, query: Doc, doc: Doc): real {
    Ratio(DotProduct(query, doc), NormOf(root, query), NormOf(root, doc))
  }

  // ------------------------------------------------------------ Cauchy-Schwarz

  lemma QuadraticForm(a: real, b: real, s: real, x: real, y: real)
    requires a >= 0.0 && b >= 0.0 && s * s <= a * b
    ensures 2.0 * (s * (x * y)) <= a * (y * y) + b * (x * x)
  {
    var form := a * (y * y) + b * (x * x) - 2.0 * (s * (x * y));
    if a == 0.0 {
      SquareIsZero(s, s * s);
      assert b * (x * x) >= 0.0;
    } else {
      var d := a * y - s * x;
      assert d * d >= 0.0;
      assert a * form == d * d + (a * b - s * s) * (x * x) by {
        assert d * d == (a * y) * (a * y) - 2.0 * ((a * y) * (s * x)) + (s * x) * (s * x);
        assert (a * y) * (a * y) == a * (a * (y * y));
        assert (a * y) * (s * x) == a * (s * (x * y));
        assert (s * x) * (s * x) == (s * s) * (x * x);
        assert (a * b - s * s) * (x * x) == a * (b * (x * x)) - (s * s) * (x * x);
      }
      assert (a * b - s * s) * (x * x) >= 0.0;
      assert form < 0.0 ==> a * form < 0.0;
    }
  }

  lemma SameSigns(x: real, y: real, product: real)
    requires (x > 0.0 && y > 0.0) || (x < 0.0 && y < 0.0)
    requires product == x * y
    ensures product > 0.0
  {
  }

  lemma SquareIsZero(s: real, square: real)
    requires square == s * s && square <= 0.0
    ensures s == 0.0
  {
    if s != 0.0 { SameSigns(s, s, square); }
  }

  lemma {:induction false} CauchySchwarz(f: string -> real, g: string -> real, keys: seq<string>)
    ensures Sum(Product(f, f), keys) >= 0.0 && Sum(Product(g, g), keys) >= 0.0
    ensures Sum(Product(f, g), keys) * Sum(Product(f, g), keys) <= Sum(Product(f, f), keys) * Sum(Product(g, g), keys)
  {
    if keys != [] {
      var front, t := keys[..|keys| - 1], keys[|keys| - 1];
      CauchySchwarz(f, g, front);
      var s, a, b := Sum(Product(f, g), front), Sum(Product(f, f), front), Sum(Product(g, g), front);
      var x, y := f(t), g(t);
      hide Sum;
      QuadraticForm(a, b, s, x, y);
      OneMoreTerm(a, b, s, x, y);
    }
  }

  lemma OneMoreTerm(a: real, b: real, s: real, x: real, y: real)
    requires a >= 0.0 && b >= 0.0 && s * s <= a * b
    requires 2.0 * (s * (x * y)) <= a * (y * y) + b * (x * x)
    ensures a + x * x >= 0.0 && b + y * y >= 0.0
    ensures (s + x * y) * (s + x * y) <= (a + x * x) * (b + y * y)
  {
    assert (s + x * y) * (s + x * y) == s * s + 2.0 * (s * (x * y)) + (x * y) * (x * y);
    assert (a + x * x) * (b + y * y) == a * b + a * (y * y) + b * (x * x) + (x * x) * (y * y);
    assert (x * y) * (x * y) == (x * x) * (y * y);
  }

  // -------------------------------------------------------------- main result

  lemma {:induction false} SameTerms(f: string -> real, g: string -> real, keys: seq<string>)
    requires forall t :: f(t) == g(t)
    ensures Sum(f, keys) == Sum(g, keys)
  {
    if keys != [] { SameTerms(f, g, keys[..|keys| - 1]); }
  }

  lemma TimesIsNotNegative(a: Doc, b: Doc)
    ensures forall t :: Times(a, b)(t) >= 0.0
    ensures forall t :: t !in a || t !in b ==> Times(a, b)(t) == 0.0
  {
    forall t ensures Times(a, b)(t) >= 0.0 && (t !in a || t !in b ==> Times(a, b)(t) == 0.0) { TimesSign(a, b, t); }
  }

  /** Tokens of the chunk that the query lacks only add to the chunk's norm. */
  lemma NormWithinKeys(doc: Doc, keys: seq<string>)
    requires Distinct(keys)
    ensures 0.0 <= Sum(Times(doc, doc), keys) <= DotProduct(doc, doc)
  {
    Strings.FirstMetHolds(doc);
    TimesIsNotNegative(doc, doc);
    hide Times, Strings.FirstMet;
    SumIsNotNegative(Times(doc, doc), keys);
    SumWithin(Times(doc, doc), keys, Strings.FirstMet(doc));
  }

  lemma ProductOfCounts(query: Doc, doc: Doc)
    ensures DotProduct(query, doc) == Sum(Product(Counts(query), Counts(doc)), Strings.FirstMet(query))
    ensures Sum(Product(Counts(doc), Counts(doc)), Strings.FirstMet(query)) == Sum(Times(doc, doc), Strings.FirstMet(query))
  {
  }

  lemma DotIsNotNegative(query: Doc, doc: Doc)
    ensures 0.0 <= DotProduct(query, doc)
  {
    TimesIsNotNegative(query, doc);
    hide Times, Strings.FirstMet;
    SumIsNotNegative(Times(query, doc), Strings.FirstMet(query));
  }

  /** The inner product is bounded by the product of the squared norms. */
  lemma DotIsBounded(query: Doc, doc: Doc)
    ensures 0.0 <= DotProduct(query, doc) && 0.0 <= DotProduct(query, query) && 0.0 <= DotProduct(doc, doc)
    ensures DotProduct(query, doc) * DotProduct(query, doc) <= DotProduct(query, query) * DotProduct(doc, doc)
  {
    hide *;
    ProductOfCounts(query, doc);
    ProductOfCounts(query, query);
    DotIsNotNegative(query, doc);
    DotIsNotNegative(query, query);
    DotIsNotNegative(doc, doc);
    Strings.FirstMetHolds(query);
    CauchySchwarz(Counts(query), Counts(doc), Strings.FirstMet(query));
    NormWithinKeys(doc, Strings.FirstMet(query));
    Widen(DotProduct(query, doc), DotProduct(query, query), Sum(Times(doc, doc), Strings.FirstMet(query)), DotProduct(doc, doc));
  }

  lemma Widen(s: real, a: real, b: real, c: real)
    requires a >= 0.0 && b <= c && s * s <= a * b
    ensures s * s <= a * c
  {
    Smaller(a, b, c);
  }

  lemma Smaller(a: real, b: real, c: real)
    requires a >= 0.0 && b <= c
    ensures a * b <= a * c
  {
  }

  lemma TimesSign(query: Doc, doc: Doc, t: string)
    ensures Times(query, doc)(t) >= 0.0
    ensures Times(query, doc)(t) > 0.0 <==> t in query && t in doc
  {
    assert t in query <==> Bm25.Freq(query, t) > 0;
    assert t in doc <==> Bm25.Freq(doc, t) > 0;
    var x, y := Bm25.Freq(query, t) as real, Bm25.Freq(doc, t) as real;
    hide Bm25.Freq;
    if x > 0.0 && y > 0.0 { SameSigns(x, y, x * y); }
  }

  lemma SharedTokenCounts(query: Doc, doc: Doc)
    ensures DotProduct(query, doc) > 0.0 <==> Bm25.SharesToken(doc, query)
  {
    var keys, f := Strings.FirstMet(query), Times(query, doc);
    Strings.FirstMetHolds(query);
    forall t ensures f(t) >= 0.0 && (f(t) > 0.0 <==> t in query && t in doc) { TimesSign(query, doc, t); }
    hide Times, Strings.FirstMet;
    SumIsNotNegative(f, keys);
    if !Bm25.SharesToken(doc, query) { SumIsZero(f, keys); }
  }

  lemma RatioBounds(dot: real, p: real, q: real, r: real, s: real)
    requires dot >= 0.0 && r > 0.0 && s > 0.0 && r * r == p && s * s == q && dot * dot <= p * q
    ensures 0.0 <= Ratio(dot, r, s) <= 1.0 && (Ratio(dot, r, s) > 0.0 <==> dot > 0.0)
  {
    var n := r * s;
    SameSigns(r, s, n);
    SquareOfNorms(r, s, n, p, q);
    NotAbove(dot, n);
    QuotientBounds(dot, n);
  }

  lemma SquareOfNorms(r: real, s: real, n: real, p: real, q: real)
    requires n == r * s && r * r == p && s * s == q
    ensures n * n == p * q
  {
    assert n * n == (r * s) * (r * s) == (r * r) * (s * s);
  }

  lemma NotAbove(a: real, b: real)
    requires a >= 0.0 && b > 0.0 && a * a <= b * b
    ensures a <= b
  {
    var d := a - b;
    assert a * a - b * b == d * (a + b);
    if d > 0.0 { SameSigns(d, a + b, d * (a + b)); }
  }

  lemma QuotientBounds(a: real, b: real)
    requires 0.0 <= a <= b && b > 0.0
    ensures 0.0 <= a / b <= 1.0 && (a / b > 0.0 <==> a > 0.0)
  {
    var c := a / b;
    assert c * b == a;
    assert c > 1.0 ==> c * b > b;
    assert c < 0.0 ==> c * b < 0.0;
    assert c > 0.0 ==> c * b > 0.0;
  }

  lemma NormIsPositive(root: Root, doc: Doc)
    requires EmbeddingCache.IsRoot(root)
    ensures NormOf(root, doc) == 0.0 <==> doc == []
    ensures NormOf(root, doc) >= 0.0 && NormOf(root, doc) * NormOf(root, doc) == DotProduct(doc, doc)
  {
    SharedTokenCounts(doc, doc);
    DotIsBounded(doc, doc);
    if doc != [] { assert doc[0] in doc; }
  }

  /** The norm of a document with tokens, and its square. */
  lemma NormSquared(root: Root, doc: Doc)
    requires EmbeddingCache.IsRoot(root) && doc != []
    ensures NormOf(root, doc) > 0.0 && NormOf(root, doc) * NormOf(root, doc) == DotProduct(doc, doc)
  {
    NormIsPositive(root, doc);
  }

  lemma CosineOfEmpty(root: Root, query: Doc, doc: Doc)
    requires EmbeddingCache.IsRoot(root) && (query == [] || doc == [])
    ensures Cosine(root, query, doc) == 0.0 && !Bm25.SharesToken(doc, query)
  {
    NormIsPositive(root, query);
    NormIsPositive(root, doc);
    hide NormOf, DotProduct;
  }

  lemma CosineIsRatio(root: Root, query: Doc, doc: Doc)
    ensures Cosine(root, query, doc) == Ratio(DotProduct(query, doc), NormOf(root, query), NormOf(root, doc))
  {
  }

  /** Every score lies between 0 and 1; it is positive exactly for a chunk that shares a token with the query. */
  lemma CosineBounds(root: Root, query: Doc, doc: Doc)
    requires EmbeddingCache.IsRoot(root)
    ensures 0.0 <= Cosine(root, query, doc) <= 1.0
    ensures Cosine(root, query, doc) > 0.0 <==> Bm25.SharesToken(doc, query)
  {
    hide *;
    if query == [] || doc == [] {
      CosineOfEmpty(root, query, doc);
    } else {
      NormSquared(root, query);
      NormSquared(root, doc);
      DotIsBounded(query, doc);
      SharedTokenCounts(query, doc);
      RatioBounds(DotProduct(query, doc), DotProduct(query, query), DotProduct(doc, doc), NormOf(root, query), NormOf(root, doc));
      CosineIsRatio(root, query, doc);
    }
  }

  lemma SameCountsSameProducts(query: Doc, doc: Doc)
    requires multiset(query) == multiset(doc)
    ensures DotProduct(query, doc) == DotProduct(query, query) == DotProduct(doc, doc)
  {
    Strings.FirstMetHolds(query);
    Strings.FirstMetHolds(doc);
    forall t ensures t in query <==> t in doc {
      assert t in query <==> t in multiset(query);
      assert t in doc <==> t in multiset(doc);
    }
    var keys, others := Strings.FirstMet(query), Strings.FirstMet(doc);
    SameCountsSameTerms(query, doc);
    var f, g, h := Times(query, doc), Times(query, query), Times(doc, doc);
    Sorting.SameSetSameElements(keys, others);
    hide Strings.FirstMet, Times, Sum;
    SumOfPermutation(h, keys, others);
    SameTerms(f, g, keys);
    SameTerms(g, h, keys);
  }

  lemma SameCountsSameTerms(query: Doc, doc: Doc)
    requires multiset(query) == multiset(doc)
    ensures forall t :: Times(query, doc)(t) == Times(query, query)(t) == Times(doc, doc)(t)
  {
  }

  /** A chunk with the query's own token counts scores exactly 1. */
  lemma SameCountsScoreOne(root: Root, query: Doc, doc: Doc)
    requires EmbeddingCache.IsRoot(root) && query != [] && multiset(query) == multiset(doc)
    ensures Cosine(root, query, doc) == 1.0
  {
    hide *;
    SameCountsSameProducts(query, doc);
    SameNorms(root, query, doc);
    NormSquared(root, query);
    CosineIsRatio(root, query, doc);
    RatioIsOne(DotProduct(query, doc), NormOf(root, query));
  }

  lemma SameNorms(root: Root, query: Doc, doc: Doc)
    requires DotProduct(query, query) == DotProduct(doc, doc)
    ensures NormOf(root, query) == NormOf(root, doc)
  {
    hide DotProduct;
  }

  lemma RatioIsOne(dot: real, norm: real)
    requires norm > 0.0 && norm * norm == dot
    ensures Ratio(dot, norm, norm) == 1.0
  {
    SameSigns(norm, norm, dot);
    EmbeddingCache.QuotientIs(dot, dot, 1.0);
  }

  // ------------------------------------------------------------------ scoring

  /** The sum over a counter's items of the products with another counter. */
  method SumProducts(a: map<string, nat>, b: map<string, nat>, ghost left: Doc, ghost right: Doc) returns (sum: real)
    requires forall t :: Bm25.TokenCount(a, t) == Bm25.Freq(left, t)
    requires forall t :: t in a <==> t in left
    requires forall t :: Bm25.TokenCount(b, t) == Bm25.Freq(right, t)
    ensures sum == DotProduct(left, right)
  {
    var keys := Strings.CollectKeys(a);
    sum := 0.0;
    for i := 0 to |keys|
      invariant sum == Sum(Times(left, right), keys[..i])
    {
      assert keys[..i + 1][..i] == keys[..i];
      assert keys[i] in keys;
      sum := sum + (a[keys[i]] as real) * (Bm25.TokenCount(b, keys[i]) as real);
    }
    assert keys[..|keys|] == keys;
    Strings.FirstMetHolds(left);
    Sorting.SameSetSameElements(keys, Strings.FirstMet(left));
    SumOfPermutation(Times(left, right), keys, Strings.FirstMet(left));
  }

  method Score(root: Root, tokenize: string -> Doc, query: string, texts: seq<string>) returns (scores: seq<real>)
    requires EmbeddingCache.IsRoot(root)
    ensures |scores| == |texts|
    ensures forall i :: 0 <= i < |texts| ==> scores[i] == Cosine(root, tokenize(query), tokenize(texts[i]))
    ensures forall i :: 0 <= i < |texts| ==> 0.0 <= scores[i] <= 1.0
  {
    hide DotProduct;
    var q := tokenize(query);
    var queryCounts := Bm25.CountTokens(q);
    var querySquares := SumProducts(queryCounts, queryCounts, q, q);
    var queryNorm := root(querySquares);
    if queryNorm == 0.0 {
      return seq(|texts|, _ => 0.0);
    }
    NormIsPositive(root, q);
    scores := [];
    for i := 0 to |texts|
      invariant |scores| == i
      invariant forall k :: 0 <= k < i ==> scores[k] == Cosine(root, q, tokenize(texts[k])) && 0.0 <= scores[k] <= 1.0
    {
      var doc := tokenize(texts[i]);
      CosineBounds(root, q, doc);
      NormIsPositive(root, doc);
      var counts := Bm25.CountTokens(doc);
      var squares := SumProducts(counts, counts, doc, doc);
      var norm := root(squares);
      if norm == 0.0 {
        scores := scores + [0.0];
        continue;
      }
      var dot := SumProducts(queryCounts, counts, q, doc);
      assert queryNorm * norm != 0.0 by { assert queryNorm > 0.0 && norm > 0.0; }
      scores := scores + [dot / (queryNorm * norm)];
    }
  }
}
