/**
 Embedding of prompts through a persisted cache.  The provider, the normal form of a
 prompt, the hash and the square root are parameters.
 */
module EmbeddingCache {
  import opened Common

  /** A stored number may be anything that a double can hold. */
  datatype Num = Finite(value: real) | NonFinite
  type Raw = seq<Num>
  type Vec = seq<real>
  type Root = real -> real

  datatype Profile = Profile(provider: string, model: string, inputVersion: string)
  datatype CacheRow = CacheRow(fingerprint: string, profile: Profile, dimensions: nat, values: Raw)

  // A provider that raises is one that answers `None`.
  type Provider = seq<string> -> Option<seq<Raw>>

  // -------------------------------------------------------- normalization

  function SumOfSquares(v: Vec): real {
    if v == [] then 0.0 else SumOfSquares(v[..|v| - 1]) + v[|v| - 1] * v[|v| - 1]
  }

  ghost predicate IsRoot(root: Root) {
    && root(0.0) == 0.0
    && forall x :: x > 0.0 ==> root(x) > 0.0 && root(x) * root(x) == x
  }

  function Values(raw: Raw): Vec
    requires forall n :: n in raw ==> n.Finite?
  {
    seq(|raw|, i requires 0 <= i < |raw| => raw[i].value)
  }

  function Stored(v: Vec): Raw {
    seq(|v|, i requires 0 <= i < |v| => Finite(v[i]))
  }

  function Scaled(v: Vec, n: real): Vec
    requires n != 0.0
  {
    seq(|v|, i requires 0 <= i < |v| => v[i] / n)
  }

  /** The unit vector of a usable embedding: not empty, finite and not zero. */
  function Unit(root: Root, raw: Raw): Option<Vec> {
    if raw == [] || exists n :: n in raw && n.NonFinite? then None
    else
      var norm := root(SumOfSquares(Values(raw)));
      if norm <= 0.0 then None else Some(Scaled(Values(raw), norm))
  }

  ghost predicate IsUnit(root: Root, v: Vec) {
    exists raw: Raw :: Unit(root, raw) == Some(v)
  }

  /** One usable vector a prompt, all of one width. */
  ghost predicate Usable(root: Root, raw: seq<Raw>, expected: nat) {
    && |raw| == expected > 0
    && (forall i :: 0 <= i < |raw| ==> Unit(root, raw[i]).Some?)
    && (forall i, j :: 0 <= i < |raw| && 0 <= j < |raw| ==> |raw[i]| == |raw[j]|)
  }

  method ValidateAndNormalize(root: Root, raw: seq<Raw>, expected: nat) returns (matrix: Option<seq<Vec>>)
    ensures matrix.Some? <==> Usable(root, raw, expected)
    ensures matrix.Some? ==> |matrix.value| == |raw| == expected
    ensures matrix.Some? ==> forall i :: 0 <= i < expected ==> Some(matrix.value[i]) == Unit(root, raw[i])
  {
    if |raw| != expected || |raw| == 0 { return None; }
    var rows := [];
    for i := 0 to |raw|
      invariant |rows| == i
      invariant forall k :: 0 <= k < i ==> Some(rows[k]) == Unit(root, raw[k]) && |raw[k]| == |raw[0]|
    {
      var unit := Unit(root, raw[i]);
      if |raw[i]| != |raw[0]| || unit.None? { return None; }
      rows := rows + [unit.value];
    }
    matrix := Some(rows);
  }

  lemma {:induction false} ScaledSquares(v: Vec, n: real, square: real)
    requires n != 0.0 && square > 0.0 && square == n * n
    ensures SumOfSquares(Scaled(v, n)) == SumOfSquares(v) / square
  {
    if v == [] {
      QuotientIs(0.0, square, 0.0);
    } else {
      var front, x := v[..|v| - 1], v[|v| - 1];
      ScaledSquares(front, n, square);
      ScaledSplit(v, n);
      SquareOfQuotient(x, n, square, SumOfSquares(front));
      hide Scaled;
      SumOfSquaresSplit(Scaled(v, n), Scaled(front, n), x / n);
    }
  }

  lemma ScaledSplit(v: Vec, n: real)
    requires v != [] && n != 0.0
    ensures Scaled(v, n) == Scaled(v[..|v| - 1], n) + [v[|v| - 1] / n]
  {
  }

  lemma SumOfSquaresSplit(v: Vec, front: Vec, x: real)
    requires v == front + [x]
    ensures SumOfSquares(v) == SumOfSquares(front) + x * x
  {
    assert v[..|v| - 1] == front;
  }

  lemma SquareOfQuotient(x: real, n: real, square: real, rest: real)
    requires n != 0.0 && square > 0.0 && square == n * n
    ensures rest / square + (x / n) * (x / n) == (rest + x * x) / square
  {
    var q, r := x / n, rest / square;
    assert q * n == x && r * square == rest;
    SquareOfProduct(q, n, x, square);
    Distribute(r, q * q, square, rest, x * x);
    QuotientIs(rest + x * x, square, r + q * q);
  }

  lemma SquareOfProduct(q: real, n: real, x: real, square: real)
    requires q * n == x && square == n * n
    ensures (q * q) * square == x * x
  {
    assert x * x == (q * n) * x == (q * n) * (q * n);
    assert (q * n) * (q * n) == (q * q) * (n * n);
  }

  lemma Distribute(a: real, b: real, c: real, x: real, y: real)
    requires a * c == x && b * c == y
    ensures (a + b) * c == x + y
  {
  }

  lemma QuotientIs(a: real, b: real, q: real)
    requires b != 0.0 && q * b == a
    ensures a / b == q
  {
    var d := a / b;
    assert d * b == a;
    assert (d - q) * b == 0.0;
  }

  /** The squares of a scaled vector sum to one if the divisor is the root of their sum. */
  lemma UnitHasSquaresOne(v: Vec, norm: real, total: real)
    requires norm > 0.0 && total > 0.0 && total == norm * norm && total == SumOfSquares(v)
    ensures SumOfSquares(Scaled(v, norm)) == 1.0
  {
    ScaledSquares(v, norm, total);
    QuotientIs(total, total, 1.0);
  }

  /** A unit vector is its own unit vector, so normalizing twice is normalizing once. */
  lemma UnitIsIdempotent(root: Root, raw: Raw)
    requires IsRoot(root) && Unit(root, raw).Some?
    ensures Unit(root, Stored(Unit(root, raw).value)) == Unit(root, raw)
  {
    var v, unit := Values(raw), Unit(root, raw).value;
    var total := SumOfSquares(v);
    var norm := root(total);
    NonNegative(v);
    assert total > 0.0 && norm > 0.0 && norm * norm == total;
    UnitHasSquaresOne(v, norm, total);
    RootOfOne(root);
    StoredValues(unit);
    hide SumOfSquares;
    assert Scaled(unit, 1.0) == unit;
  }

  lemma StoredValues(v: Vec)
    ensures forall n :: n in Stored(v) ==> n.Finite?
    ensures Values(Stored(v)) == v && |Stored(v)| == |v|
  {
  }

  lemma RootOfOne(root: Root)
    requires IsRoot(root)
    ensures root(1.0) == 1.0
  {
    var r := root(1.0);
    assert r > 0.0 && r * r == 1.0;
    assert (r - 1.0) * (r + 1.0) == 0.0;
  }

  lemma {:induction false} NonNegative(v: Vec)
    ensures SumOfSquares(v) >= 0.0
  {
    if v != [] { NonNegative(v[..|v| - 1]); }
  }

  // ----------------------------------------------------------- the table

  function Select(rows: seq<CacheRow>, fingerprint: string, profile: Profile): seq<CacheRow> {
    if rows == [] then []
    else
      var last := rows[|rows| - 1];
      Select(rows[..|rows| - 1], fingerprint, profile)
      + if last.fingerprint == fingerprint && last.profile == profile then [last] else []
  }

  function Without(rows: seq<CacheRow>, fingerprint: string, profile: Profile): seq<CacheRow> {
    if rows == [] then []
    else
      var last := rows[|rows| - 1];
      Without(rows[..|rows| - 1], fingerprint, profile)
      + if last.fingerprint == fingerprint && last.profile == profile then [] else [last]
  }

  lemma SelectAppended(rows: seq<CacheRow>, row: CacheRow, fingerprint: string, profile: Profile)
    ensures Select(rows + [row], fingerprint, profile)
            == Select(rows, fingerprint, profile) + if row.fingerprint == fingerprint && row.profile == profile then [row] else []
  {
    assert (rows + [row])[..|rows|] == rows;
  }

  lemma {:induction false} SelectWithout(rows: seq<CacheRow>, f: string, p: Profile, g: string, q: Profile)
    ensures Select(Without(rows, f, p), g, q) == if f == g && p == q then [] else Select(rows, g, q)
  {
    if rows != [] {
      var front, last := rows[..|rows| - 1], rows[|rows| - 1];
      SelectWithout(front, f, p, g, q);
      SelectAppended(Without(front, f, p), last, g, q);
      assert Without(front, f, p) + [] == Without(front, f, p);
    }
  }

  function NewRow(fingerprint: string, profile: Profile, v: Vec): CacheRow {
    CacheRow(fingerprint, profile, |v|, Stored(v))
  }

  lemma ReplacedRows(rows: seq<CacheRow>, f: string, profile: Profile, v: Vec)
    ensures forall g, q :: Select(Without(rows, f, profile) + [NewRow(f, profile, v)], g, q) ==
              if q == profile && g == f then [NewRow(f, profile, v)] else Select(rows, g, q)
  {
    forall g, q ensures Select(Without(rows, f, profile) + [NewRow(f, profile, v)], g, q) ==
                   if q == profile && g == f then [NewRow(f, profile, v)] else Select(rows, g, q) {
      SelectWithout(rows, f, profile, g, q);
      SelectAppended(Without(rows, f, profile), NewRow(f, profile, v), g, q);
    }
  }

  class Table {
    var rows: seq<CacheRow>

    /** The rows of each fingerprint that has any. */
    method Load(fingerprints: seq<string>, profile: Profile) returns (found: map<string, seq<CacheRow>>)
      ensures forall f :: f in fingerprints ==> (if f in found then found[f] else []) == Select(rows, f, profile)
    {
      found := map[];
      for i := 0 to |rows|
        invariant forall f :: f in fingerprints ==> (if f in found then found[f] else []) == Select(rows[..i], f, profile)
      {
        assert rows[..i + 1][..i] == rows[..i];
        var row := rows[i];
        if row.fingerprint in fingerprints && row.profile == profile {
          found := found[row.fingerprint := (if row.fingerprint in found then found[row.fingerprint] else []) + [row]];
        }
      }
      assert rows[..|rows|] == rows;
    }

    /** Replaces the rows of the given fingerprints; an empty vector, or a claim that is no longer held, rolls back. */
    method Store(claimHeld: bool, profile: Profile, embeddings: map<string, Vec>) returns (ok: bool)
      modifies this
      ensures ok <==> embeddings == map[] || (claimHeld && forall f :: f in embeddings ==> embeddings[f] != [])
      ensures !ok ==> rows == old(rows)
      ensures ok ==>
                forall f, p :: Select(rows, f, p) ==
                  if p == profile && f in embeddings then [NewRow(f, profile, embeddings[f])] else Select(old(rows), f, p)
    {
      if embeddings == map[] { return true; }
      if !claimHeld { return false; }
      var updated, rest := rows, embeddings.Keys;
      while rest != {}
        invariant rest <= embeddings.Keys && rows == old(rows)
        invariant forall f :: f in embeddings && f !in rest ==> embeddings[f] != []
        invariant forall f, p :: Select(updated, f, p) ==
                    if p == profile && f in embeddings && f !in rest then [NewRow(f, profile, embeddings[f])] else Select(rows, f, p)
        decreases |rest|
      {
        var f :| f in rest;
        assert f in embeddings;
        if embeddings[f] == [] { return false; }
        ReplacedRows(updated, f, profile, embeddings[f]);
        updated := Without(updated, f, profile) + [NewRow(f, profile, embeddings[f])];
        rest := rest - {f};
      }
      rows := updated;
      ok := true;
    }
  }

  // ------------------------------------------------------------ embedding

  datatype Settings = Settings(
    root: Root, normalize: string -> string, hash: string -> string, provider: Provider, profile: Profile)

  function Canonical(s: Settings, prompt: string): string {
    s.normalize(prompt)
  }

  function Print(s: Settings, canonical: string): string {
    s.hash(s.normalize(canonical))
  }

  function PrintOf(s: Settings, prompt: string): string {
    Print(s, Canonical(s, prompt))
  }

  /** Two prompts of different normal form share a fingerprint. */
  ghost predicate Collision(s: Settings, prompts: seq<string>) {
    exists p, q :: p in prompts && q in prompts && PrintOf(s, p) == PrintOf(s, q) && Canonical(s, p) != Canonical(s, q)
  }

  /** The fingerprints of some prompts: their normal forms, each once in order of appearance, and one a prompt. */
  ghost predicate Fingerprinted(s: Settings, prompts: seq<string>, byPrint: map<string, string>, unique: seq<string>, prints: seq<string>) {
    && |prints| == |prompts|
    && (forall i :: 0 <= i < |prompts| ==> prints[i] == PrintOf(s, prompts[i]) && prints[i] in byPrint
                                           && byPrint[prints[i]] == Canonical(s, prompts[i]))
    && (forall f :: f in byPrint ==> f in prints && f == Print(s, byPrint[f]))
    && Distinct(unique) && (forall f :: f in unique <==> f in byPrint)
  }

  method Fingerprint(s: Settings, prompts: seq<string>)
    returns (collided: bool, byPrint: map<string, string>, unique: seq<string>, prints: seq<string>)
    ensures collided <==> Collision(s, prompts)
    ensures !collided ==> Fingerprinted(s, prompts, byPrint, unique, prints)
  {
    collided, byPrint, unique, prints := false, map[], [], [];
    for i := 0 to |prompts|
      invariant Fingerprinted(s, prompts[..i], byPrint, unique, prints)
    {
      var canonical := Canonical(s, prompts[i]);
      var print1 := Print(s, canonical);
      if print1 in byPrint && byPrint[print1] != canonical {
        var k :| 0 <= k < |prints| && prints[k] == print1;
        assert prompts[..i][k] == prompts[k];
        assert prompts[i] in prompts && prompts[k] in prompts;
        collided := true;
        return;
      }
      assert prompts[..i + 1] == prompts[..i] + [prompts[i]];
      if print1 !in byPrint { byPrint, unique := byPrint[print1 := canonical], unique + [print1]; }
      prints := prints + [print1];
    }
    assert prompts[..|prompts|] == prompts;
    forall p, q | p in prompts && q in prompts && PrintOf(s, p) == PrintOf(s, q) ensures Canonical(s, p) == Canonical(s, q) {
      var i :| 0 <= i < |prompts| && prompts[i] == p;
      var j :| 0 <= j < |prompts| && prompts[j] == q;
    }
  }

  /** The usable cached vector of a fingerprint: a single row, of the width it claims, of finite values, not zero. */
  function ValidVector(s: Settings, rows: seq<CacheRow>, fingerprint: string): Option<Vec> {
    var found := Select(rows, fingerprint, s.profile);
    if |found| != 1 || |found[0].values| != found[0].dimensions then None else Unit(s.root, found[0].values)
  }

  ghost predicate IsCached(s: Settings, rows: seq<CacheRow>, unique: seq<string>, cached: map<string, Vec>) {
    && (forall f :: f in cached ==> f in unique)
    && (forall f :: f in unique ==> (if f in cached then Some(cached[f]) else None) == ValidVector(s, rows, f))
  }

  ghost predicate OneWidth(vectors: map<string, Vec>, width: nat) {
    forall f :: f in vectors ==> |vectors[f]| == width
  }

  lemma {:induction false} SelectedRows(rows: seq<CacheRow>, f: string, p: Profile, row: CacheRow)
    requires row in Select(rows, f, p)
    ensures row.fingerprint == f && row.profile == p
  {
    var last := rows[|rows| - 1];
    if row in Select(rows[..|rows| - 1], f, p) { SelectedRows(rows[..|rows| - 1], f, p, row); }
  }

  /** The usable vector among the rows of one fingerprint. */
  method ReadOne(s: Settings, f: string, rows: seq<CacheRow>, ghost all: seq<CacheRow>) returns (vector: Option<Vec>)
    requires rows == Select(all, f, s.profile)
    ensures vector == ValidVector(s, all, f)
  {
    hide Unit;
    vector := None;
    if |rows| == 1 {
      var row := rows[0];
      SelectedRows(all, f, s.profile, row);
      if row.fingerprint == f && row.profile == s.profile && |row.values| == row.dimensions {
        var normalized := ValidateAndNormalize(s.root, [row.values], 1);
        assert [row.values][0] == row.values;
        if normalized.Some? { vector := Some(normalized.value[0]); }
      }
    }
  }

  method ReadCache(s: Settings, table: Table, unique: seq<string>) returns (cached: map<string, Vec>)
    ensures IsCached(s, table.rows, unique, cached)
  {
    hide ValidVector, Select;
    var found := table.Load(unique, s.profile);
    cached := map[];
    for i := 0 to |unique|
      invariant IsCached(s, table.rows, unique[..i], cached)
    {
      var f := unique[i];
      assert unique[..i + 1] == unique[..i] + [f];
      var vector := ReadOne(s, f, if f in found then found[f] else [], table.rows);
      if vector.Some? { cached := cached[f := vector.value]; }
    }
    assert unique[..|unique|] == unique;
  }

  /** A provider that answers every prompt by a usable vector of one width. */
  ghost predicate Faithful(s: Settings, embed: string -> Raw, width: nat) {
    && (forall prompts :: s.provider(prompts) == Some(seq(|prompts|, i requires 0 <= i < |prompts| => embed(prompts[i]))))
    && (forall p :: Unit(s.root, embed(p)).Some? && |embed(p)| == width)
  }

  ghost predicate FromProvider(s: Settings, embed: string -> Raw, byPrint: map<string, string>, vectors: map<string, Vec>) {
    forall f :: f in vectors ==> f in byPrint && Some(vectors[f]) == Unit(s.root, embed(byPrint[f]))
  }

  lemma FaithfulIsUsable(s: Settings, embed: string -> Raw, width: nat, sent: seq<string>)
    requires Faithful(s, embed, width) && sent != []
    ensures s.provider(sent).Some? && Usable(s.root, s.provider(sent).value, |sent|)
    ensures forall i :: 0 <= i < |sent| ==> s.provider(sent).value[i] == embed(sent[i])
  {
    hide Unit;
    var raw := s.provider(sent);
    assert raw == Some(seq(|sent|, i requires 0 <= i < |sent| => embed(sent[i])));
    assert forall i :: 0 <= i < |sent| ==> raw.value[i] == embed(sent[i]);
  }

  method Keyed(prints: seq<string>, matrix: seq<Vec>) returns (m: map<string, Vec>)
    requires |matrix| == |prints| && Distinct(prints)
    ensures forall f :: f in m <==> f in prints
    ensures forall i :: 0 <= i < |prints| ==> prints[i] in m && m[prints[i]] == matrix[i]
  {
    m := map[];
    for i := 0 to |prints|
      invariant forall f :: f in m <==> f in prints[..i]
      invariant forall k :: 0 <= k < i ==> prints[k] in m && m[prints[k]] == matrix[k]
    {
      assert prints[..i + 1] == prints[..i] + [prints[i]];
      m := m[prints[i] := matrix[i]];
    }
    assert prints[..|prints|] == prints;
  }

  lemma UnitWidth(root: Root, raw: Raw)
    ensures Unit(root, raw).Some? ==> raw != [] && |Unit(root, raw).value| == |raw|
  {
  }

  function Prompts(byPrint: map<string, string>, prints: seq<string>): seq<string>
    requires forall f :: f in prints ==> f in byPrint
  {
    seq(|prints|, i requires 0 <= i < |prints| => (assert prints[i] in prints; byPrint[prints[i]]))
  }

  /** Asks the provider for the normal forms behind some fingerprints. */
  method EmbedPrints(s: Settings, byPrint: map<string, string>, prints: seq<string>, activeBefore: bool, activeAfter: bool,
                     ghost embed: string -> Raw, ghost width: nat)
    returns (vectors: Option<map<string, Vec>>, sent: seq<string>)
    requires forall f :: f in prints ==> f in byPrint
    requires Distinct(prints)
    ensures sent == if activeBefore then Prompts(byPrint, prints) else []
    ensures prints == [] ==> vectors == Some(map[])
    ensures vectors.Some? ==> (forall f :: f in vectors.value <==> f in prints) && (prints != [] ==> activeBefore)
    ensures vectors.Some? ==> forall f :: f in vectors.value ==> vectors.value[f] != [] && IsUnit(s.root, vectors.value[f])
    ensures activeBefore && activeAfter && Faithful(s, embed, width) ==> vectors.Some?
    ensures vectors.Some? && Faithful(s, embed, width) ==>
              FromProvider(s, embed, byPrint, vectors.value) && OneWidth(vectors.value, width)
  {
    hide Unit, Usable, Faithful;
    sent := [];
    if prints == [] { return Some(map[]), []; }
    if !activeBefore { return None, []; }
    sent := Prompts(byPrint, prints);
    var raw := s.provider(sent);
    if Faithful(s, embed, width) { FaithfulIsUsable(s, embed, width, sent); }
    if !activeAfter || raw.None? { return None, sent; }
    var matrix := ValidateAndNormalize(s.root, raw.value, |prints|);
    if matrix.None? { return None, sent; }
    var m := Keyed(prints, matrix.value);
    forall i | 0 <= i < |prints|
      ensures Some(m[prints[i]]) == Unit(s.root, raw.value[i]) && m[prints[i]] != [] && |m[prints[i]]| == |raw.value[i]|
      ensures IsUnit(s.root, m[prints[i]])
    {
      UnitWidth(s.root, raw.value[i]);
    }
    if Faithful(s, embed, width) { FaithfulWidth(s, embed, width); }
    vectors := Some(m);
  }

  lemma FaithfulWidth(s: Settings, embed: string -> Raw, width: nat)
    requires Faithful(s, embed, width)
    ensures forall p :: |embed(p)| == width
  {
  }

  function Widths(vectors: map<string, Vec>): set<nat> {
    set f | f in vectors :: |vectors[f]|
  }

  /** Those of `prints` that are (or are not) in `keys`, in order. */
  method Filter(prints: seq<string>, keys: set<string>, inside: bool) returns (kept: seq<string>)
    requires Distinct(prints)
    ensures Distinct(kept)
    ensures forall f :: f in kept <==> f in prints && (f in keys) == inside
  {
    kept := [];
    for i := 0 to |prints|
      invariant Distinct(kept)
      invariant forall f :: f in kept <==> f in prints[..i] && (f in keys) == inside
    {
      assert prints[..i + 1] == prints[..i] + [prints[i]];
      if (prints[i] in keys) == inside { kept := kept + [prints[i]]; }
    }
    assert prints[..|prints|] == prints;
  }

  /** The cached vectors are of one width. */
  ghost predicate Uniform(cached: map<string, Vec>) {
    forall f, g :: f in cached && g in cached ==> |cached[f]| == |cached[g]|
  }

  lemma UniformWidths(cached: map<string, Vec>)
    ensures |Widths(cached)| > 1 <==> !Uniform(cached)
    ensures forall w: nat :: cached != map[] && OneWidth(cached, w) ==> Widths(cached) == {w}
  {
    var widths := Widths(cached);
    if |widths| > 1 {
      var v :| v in widths;
      var rest := widths - {v};
      assert |rest| == |widths| - 1;
      var w :| w in rest;
      var f :| f in cached && |cached[f]| == v;
      var g :| g in cached && |cached[g]| == w;
    }
    if !Uniform(cached) {
      var f, g :| f in cached && g in cached && |cached[f]| != |cached[g]|;
      assert {|cached[f]|, |cached[g]|} <= widths;
      SubsetIsSmaller({|cached[f]|, |cached[g]|}, widths);
    }
    forall w: nat | cached != map[] && OneWidth(cached, w) ensures widths == {w} {
      var f :| f in cached;
      assert |cached[f]| in widths;
    }
  }

  /** Cached vectors of the provider's width are what the provider would answer. */
  ghost predicate Agrees(s: Settings, embed: string -> Raw, width: nat, byPrint: map<string, string>, cached: map<string, Vec>) {
    forall f :: f in cached && f in byPrint && |cached[f]| == width ==> Some(cached[f]) == Unit(s.root, embed(byPrint[f]))
  }

  /** Every fingerprint is cached, all of one width, and that width is no longer the provider's. */
  ghost predicate Stale(unique: seq<string>, cached: map<string, Vec>, width: nat) {
    && (forall f :: f in unique ==> f in cached)
    && Uniform(cached)
    && exists f :: f in unique && f in cached && |cached[f]| != width
  }

  /** What the collected vectors are, given a faithful provider and an agreeing cache. */
  ghost predicate Collected(s: Settings, embed: string -> Raw, width: nat, byPrint: map<string, string>, unique: seq<string>,
                            cached: map<string, Vec>, vectors: map<string, Vec>, asked: seq<string>)
  {
    if Stale(unique, cached, width) then asked == [] && vectors == cached
    else
      && FromProvider(s, embed, byPrint, vectors) && OneWidth(vectors, width)
      && forall f :: f in vectors && f !in asked ==> f in cached && cached[f] == vectors[f]
  }

  /** The cached vectors that are considered at all. */
  ghost predicate Considered(found: map<string, Vec>, cached: map<string, Vec>) {
    cached == if Uniform(found) then found else map[]
  }

  /** Nothing but the missing ones was asked for: the widths agree, or only one side has any vector. */
  lemma KeptIsCollected(s: Settings, embed: string -> Raw, width: nat, byPrint: map<string, string>, unique: seq<string>,
                        found: map<string, Vec>, cached: map<string, Vec>, added: map<string, Vec>, missing: seq<string>)
    requires Considered(found, cached) && Agrees(s, embed, width, byPrint, found)
    requires (forall f :: f in unique <==> f in byPrint) && forall f :: f in found ==> f in unique
    requires forall f :: f in missing <==> f in unique && f !in cached
    requires forall f :: f in added <==> f in missing
    requires FromProvider(s, embed, byPrint, added) && OneWidth(added, width)
    requires cached == map[] || added == map[] || Widths(added) == Widths(cached)
    ensures Collected(s, embed, width, byPrint, unique, found, cached + added, missing)
  {
    hide Unit;
    UniformWidths(cached);
    UniformWidths(added);
    if Stale(unique, found, width) {
      HasElement(missing);
      assert added == map[];
      assert cached + added == cached;
    } else {
      forall f | f in cached ensures |cached[f]| == width {
        if added != map[] {
          assert |cached[f]| in Widths(cached);
        } else {
          assert forall g :: g in unique ==> g in found by {
            forall g | g in unique ensures g in found { assert g !in missing; }
          }
          assert f in unique && f in found;
        }
      }
    }
  }

  /** The width changed: everything was asked for. */
  lemma RecomputedIsCollected(s: Settings, embed: string -> Raw, width: nat, byPrint: map<string, string>, unique: seq<string>,
                              found: map<string, Vec>, again: map<string, Vec>, added: map<string, Vec>, asked: seq<string>)
    requires FromProvider(s, embed, byPrint, added) && OneWidth(added, width)
    requires FromProvider(s, embed, byPrint, again) && OneWidth(again, width)
    requires (exists f :: f in unique && f !in found) || !Uniform(found)
    requires forall f :: f in again || f in added ==> f in asked
    ensures Collected(s, embed, width, byPrint, unique, found, again + added, asked)
  {
    hide Unit;
    assert !Stale(unique, found, width);
  }

  lemma NothingMissing(unique: seq<string>, found: map<string, Vec>, cached: map<string, Vec>, missing: seq<string>)
    requires Considered(found, cached) && forall f :: f in missing <==> f in unique && f !in cached
    ensures (forall f :: f in unique ==> f in found) && Uniform(found) ==> missing == [] && cached == found
    ensures missing != [] ==> (exists f :: f in unique && f !in found) || !Uniform(found)
  {
    if missing != [] {
      assert missing[0] in missing;
      assert missing[0] in unique;
    }
  }

  lemma HasElement(prints: seq<string>)
    ensures prints == [] || exists f :: f in prints
  {
    if prints != [] { assert prints[0] in prints; }
  }

  lemma NoPrompts(byPrint: map<string, string>)
    ensures Prompts(byPrint, []) == [] && Distinct<string>([])
  {
  }

  lemma PromptsJoined(byPrint: map<string, string>, a: seq<string>, b: seq<string>)
    requires (forall f :: f in a ==> f in byPrint) && forall f :: f in b ==> f in byPrint
    requires Distinct(a) && Distinct(b) && forall f :: f in a ==> f !in b
    ensures forall f :: f in a + b <==> f in a || f in b
    ensures Prompts(byPrint, a + b) == Prompts(byPrint, a) + Prompts(byPrint, b)
    ensures Distinct(a + b)
  {
    assert forall f :: f in a + b ==> f in byPrint;
    forall i, j | 0 <= i < j < |a + b| ensures (a + b)[i] != (a + b)[j] {
      if i < |a| <= j { assert a[i] in a && b[j - |a|] in b; }
    }
  }

  /** Every vector is a unit vector of a new answer or the cached one. */
  ghost predicate Sourced(s: Settings, found: map<string, Vec>, vectors: map<string, Vec>, asked: seq<string>) {
    forall f :: f in vectors ==> if f in asked then IsUnit(s.root, vectors[f]) else f in found && vectors[f] == found[f]
  }

  /** Keeps what the cache has, unless its widths are mixed or no longer the provider's, and asks for the rest. */
  method CollectVectors(s: Settings, byPrint: map<string, string>, unique: seq<string>, found: map<string, Vec>,
                        active: nat -> bool, ghost embed: string -> Raw, ghost width: nat)
    returns (vectors: Option<map<string, Vec>>, asked: seq<string>, sent: seq<string>)
    requires Distinct(unique) && forall f :: f in unique <==> f in byPrint
    requires forall f :: f in found ==> f in unique && found[f] != []
    ensures Distinct(asked) && (forall f :: f in asked ==> f in unique)
    ensures forall f :: f in asked ==> f in byPrint
    ensures sent == Prompts(byPrint, asked)
    ensures vectors.Some? ==> forall f :: f in vectors.value <==> f in unique
    ensures vectors.Some? ==> forall f :: f in vectors.value ==> vectors.value[f] != []
    ensures vectors.Some? ==> Sourced(s, found, vectors.value, asked)
    ensures (forall f :: f in unique ==> f in found) && Uniform(found) ==> asked == [] && vectors == Some(found)
    ensures (forall k :: active(k)) && Faithful(s, embed, width) ==> vectors.Some?
    ensures vectors.Some? && Faithful(s, embed, width) && Agrees(s, embed, width, byPrint, found) ==>
              Collected(s, embed, width, byPrint, unique, found, vectors.value, asked)
  {
    hide Unit, Faithful, Usable, Uniform, Widths, Collected, Agrees, FromProvider, OneWidth, Prompts, Distinct, IsRoot, IsUnit;
    UniformWidths(found);
    var cached := if |Widths(found)| > 1 then map[] else found;
    var missing := Filter(unique, cached.Keys, false);
    NothingMissing(unique, found, cached, missing);
    NoPrompts(byPrint);
    var added, first := EmbedPrints(s, byPrint, missing, active(1), active(2), embed, width);
    if added.None? { return None, if active(1) then missing else [], first; }
    var changed := cached != map[] && added.value != map[] && Widths(added.value) != Widths(cached);
    if changed {
      var again;
      again, asked, sent := Recompute(s, byPrint, unique, cached, missing, first, active, embed, width);
      if again.None? { return None, asked, sent; }
      vectors := Some(again.value + added.value);
      if Faithful(s, embed, width) {
        RecomputedIsCollected(s, embed, width, byPrint, unique, found, again.value, added.value, asked);
      }
      return;
    }
    assert missing == [] ==> cached + added.value == cached;
    if Faithful(s, embed, width) && Agrees(s, embed, width, byPrint, found) {
      KeptIsCollected(s, embed, width, byPrint, unique, found, cached, added.value, missing);
    }
    vectors, asked, sent := Some(cached + added.value), missing, first;
  }

  /** Asks for the considered cached vectors as well. */
  method Recompute(s: Settings, byPrint: map<string, string>, unique: seq<string>, cached: map<string, Vec>,
                   missing: seq<string>, first: seq<string>, active: nat -> bool, ghost embed: string -> Raw, ghost width: nat)
    returns (again: Option<map<string, Vec>>, asked: seq<string>, sent: seq<string>)
    requires Distinct(unique) && Distinct(missing) && forall f :: f in unique <==> f in byPrint
    requires forall f :: f in cached ==> f in unique
    requires forall f :: f in missing <==> f in unique && f !in cached
    requires first == Prompts(byPrint, missing)
    ensures Distinct(asked) && (forall f :: f in asked ==> f in unique) && (forall f :: f in missing ==> f in asked)
    ensures sent == Prompts(byPrint, asked)
    ensures again.Some? ==> (forall f :: f in again.value <==> f in cached) && (forall f :: f in again.value ==> f in asked)
    ensures again.Some? ==> forall f :: f in again.value ==> again.value[f] != [] && IsUnit(s.root, again.value[f])
    ensures (forall k :: active(k)) && Faithful(s, embed, width) ==> again.Some?
    ensures again.Some? && Faithful(s, embed, width) ==>
              FromProvider(s, embed, byPrint, again.value) && OneWidth(again.value, width)
  {
    hide Unit, Faithful, Usable, Prompts, Distinct, FromProvider, OneWidth, IsUnit;
    var keys := Filter(unique, cached.Keys, true);
    var second;
    again, second := EmbedPrints(s, byPrint, keys, active(3), active(4), embed, width);
    asked, sent := missing, first + second;
    if active(3) {
      PromptsJoined(byPrint, missing, keys);
      asked := missing + keys;
    } else {
      assert first + [] == first;
    }
  }

  datatype Result = Embedded(matrix: seq<Vec>) | Failed

  /** The rows computed without any cache. */
  ghost predicate IsDirect(s: Settings, embed: string -> Raw, prompts: seq<string>, matrix: seq<Vec>) {
    && |matrix| == |prompts|
    && forall i :: 0 <= i < |prompts| ==> Some(matrix[i]) == Unit(s.root, embed(Canonical(s, prompts[i])))
  }

  /** The cache agrees with the provider on every usable vector of the provider's width. */
  ghost predicate CacheAgrees(s: Settings, rows: seq<CacheRow>, embed: string -> Raw, width: nat, prompts: seq<string>) {
    forall p :: p in prompts ==>
      var v := ValidVector(s, rows, PrintOf(s, p));
      v.Some? && |v.value| == width ==> v == Unit(s.root, embed(Canonical(s, p)))
  }

  /** Every prompt is cached and all cached vectors share a width the provider no longer has. */
  ghost predicate CacheIsStale(s: Settings, rows: seq<CacheRow>, width: nat, prompts: seq<string>) {
    exists w: nat :: w != width && CachedAtWidth(s, rows, w, prompts)
  }

  ghost predicate CachedAtWidth(s: Settings, rows: seq<CacheRow>, w: nat, prompts: seq<string>) {
    forall p :: p in prompts ==>
      var v := ValidVector(s, rows, PrintOf(s, p)); v.Some? && |v.value| == w
  }

  /** Every prompt has exactly one row, and it holds the provider's vector. */
  ghost predicate CacheIsComplete(s: Settings, rows: seq<CacheRow>, embed: string -> Raw, prompts: seq<string>) {
    forall p :: p in prompts ==>
      && |Select(rows, PrintOf(s, p), s.profile)| == 1
      && ValidVector(s, rows, PrintOf(s, p)).Some?
      && ValidVector(s, rows, PrintOf(s, p)) == Unit(s.root, embed(Canonical(s, p)))
  }

  /** A square root, a faithful provider, and a cache that agrees with it. */
  ghost predicate Sound(s: Settings, rows: seq<CacheRow>, embed: string -> Raw, width: nat, prompts: seq<string>) {
    IsRoot(s.root) && Faithful(s, embed, width) && CacheAgrees(s, rows, embed, width, prompts)
  }

  /** Every prompt is cached, all at one width. */
  ghost predicate Cached(s: Settings, rows: seq<CacheRow>, prompts: seq<string>) {
    exists w: nat :: CachedAtWidth(s, rows, w, prompts)
  }

  /** The rows of the matrix are the cached vectors of the prompts. */
  ghost predicate MatrixIsCached(s: Settings, rows: seq<CacheRow>, prompts: seq<string>, matrix: seq<Vec>) {
    && |matrix| == |prompts|
    && forall i :: 0 <= i < |prompts| ==> Some(matrix[i]) == ValidVector(s, rows, PrintOf(s, prompts[i]))
  }

  /** The cached vectors of the asked fingerprints, as they are to be stored. */
  method ToStore(vectors: map<string, Vec>, asked: seq<string>) returns (m: map<string, Vec>)
    requires forall f :: f in asked ==> f in vectors
    ensures forall f :: f in m <==> f in asked
    ensures forall f :: f in m ==> f in vectors && m[f] == vectors[f]
  {
    m := map f | f in asked :: vectors[f];
  }

  method Lookup(s: Settings, vectors: map<string, Vec>, prints: seq<string>) returns (matrix: Option<seq<Vec>>)
    requires forall f :: f in prints ==> f in vectors
    ensures IsRoot(s.root) && (forall f :: f in vectors ==> IsUnit(s.root, vectors[f])) && Uniform(vectors) && prints != [] ==> matrix.Some?
    ensures IsRoot(s.root) && (forall f :: f in vectors ==> IsUnit(s.root, vectors[f])) && matrix.Some? ==>
              && |matrix.value| == |prints| && SameWidth(matrix.value)
              && forall i :: 0 <= i < |prints| ==> prints[i] in vectors && matrix.value[i] == vectors[prints[i]]
  {
    var raw := seq(|prints|, i requires 0 <= i < |prints| => (assert prints[i] in prints; Stored(vectors[prints[i]])));
    hide Unit;
    matrix := ValidateAndNormalize(s.root, raw, |prints|);
    if IsRoot(s.root) && forall f :: f in vectors ==> IsUnit(s.root, vectors[f]) {
      forall i | 0 <= i < |prints| ensures prints[i] in vectors && Unit(s.root, raw[i]) == Some(vectors[prints[i]]) {
        assert prints[i] in prints;
        var source: Raw :| Unit(s.root, source) == Some(vectors[prints[i]]);
        UnitIsIdempotent(s.root, source);
      }
    }
  }

  ghost predicate SameWidth(matrix: seq<Vec>) {
    forall i, j :: 0 <= i < |matrix| && 0 <= j < |matrix| ==> |matrix[i]| == |matrix[j]|
  }

  lemma SourceOfPrint(s: Settings, prompts: seq<string>, byPrint: map<string, string>, unique: seq<string>, prints: seq<string>, f: string)
    returns (p: string)
    requires Fingerprinted(s, prompts, byPrint, unique, prints) && f in unique
    ensures p in prompts && PrintOf(s, p) == f && byPrint[f] == Canonical(s, p)
  {
    assert f in byPrint && f in prints;
    var i :| 0 <= i < |prints| && prints[i] == f;
    p := prompts[i];
  }

  lemma PrintOfSource(s: Settings, prompts: seq<string>, byPrint: map<string, string>, unique: seq<string>, prints: seq<string>, p: string)
    requires Fingerprinted(s, prompts, byPrint, unique, prints) && p in prompts
    ensures PrintOf(s, p) in unique && PrintOf(s, p) in byPrint && byPrint[PrintOf(s, p)] == Canonical(s, p)
  {
    var i :| 0 <= i < |prompts| && prompts[i] == p;
    assert prints[i] in byPrint;
  }

  lemma AgreementOfFound(s: Settings, prompts: seq<string>, byPrint: map<string, string>, unique: seq<string>, prints: seq<string>,
                         rows: seq<CacheRow>, found: map<string, Vec>, embed: string -> Raw, width: nat)
    requires Fingerprinted(s, prompts, byPrint, unique, prints) && IsCached(s, rows, unique, found)
    requires CacheAgrees(s, rows, embed, width, prompts)
    ensures Agrees(s, embed, width, byPrint, found)
  {
    hide Unit, ValidVector, Fingerprinted;
    forall f | f in found && f in byPrint && |found[f]| == width ensures Some(found[f]) == Unit(s.root, embed(byPrint[f])) {
      var p := SourceOfPrint(s, prompts, byPrint, unique, prints, f);
      assert ValidVector(s, rows, f) == Some(found[f]);
    }
  }

  lemma CachedAtWidthOfFound(s: Settings, prompts: seq<string>, byPrint: map<string, string>, unique: seq<string>, prints: seq<string>,
                             rows: seq<CacheRow>, found: map<string, Vec>, w: nat)
    requires Fingerprinted(s, prompts, byPrint, unique, prints) && IsCached(s, rows, unique, found)
    ensures CachedAtWidth(s, rows, w, prompts) <==> (forall f :: f in unique ==> f in found) && OneWidth(found, w)
  {
    hide Unit, ValidVector, Fingerprinted;
    if CachedAtWidth(s, rows, w, prompts) {
      forall f | f in unique ensures f in found && |found[f]| == w {
        var p := SourceOfPrint(s, prompts, byPrint, unique, prints, f);
      }
    }
    if (forall f :: f in unique ==> f in found) && OneWidth(found, w) {
      forall p | p in prompts ensures var v := ValidVector(s, rows, PrintOf(s, p)); v.Some? && |v.value| == w {
        PrintOfSource(s, prompts, byPrint, unique, prints, p);
      }
    }
  }

  lemma StaleOfFound(s: Settings, prompts: seq<string>, byPrint: map<string, string>, unique: seq<string>, prints: seq<string>,
                     rows: seq<CacheRow>, found: map<string, Vec>, width: nat)
    requires Fingerprinted(s, prompts, byPrint, unique, prints) && IsCached(s, rows, unique, found) && prompts != []
    ensures CacheIsStale(s, rows, width, prompts) <==> Stale(unique, found, width)
  {
    PrintOfSource(s, prompts, byPrint, unique, prints, prompts[0]);
    var f := PrintOf(s, prompts[0]);
    hide Unit, ValidVector, Fingerprinted, CachedAtWidth;
    if CacheIsStale(s, rows, width, prompts) {
      var w: nat :| w != width && CachedAtWidth(s, rows, w, prompts);
      CachedAtWidthOfFound(s, prompts, byPrint, unique, prints, rows, found, w);
      assert f in unique && |found[f]| != width;
    }
    if Stale(unique, found, width) {
      var g :| g in unique && g in found && |found[g]| != width;
      CachedAtWidthOfFound(s, prompts, byPrint, unique, prints, rows, found, |found[g]|);
    }
  }

  lemma CollectedAreUnits(s: Settings, rows: seq<CacheRow>, embed: string -> Raw, width: nat, byPrint: map<string, string>,
                          unique: seq<string>, found: map<string, Vec>, vectors: map<string, Vec>, asked: seq<string>)
    requires Collected(s, embed, width, byPrint, unique, found, vectors, asked) && IsCached(s, rows, unique, found)
    ensures Uniform(vectors) && forall f :: f in vectors ==> IsUnit(s.root, vectors[f])
  {
    hide Unit;
    forall f | f in vectors ensures IsUnit(s.root, vectors[f]) {
      if Stale(unique, found, width) {
        assert ValidVector(s, rows, f) == Some(vectors[f]);
      }
    }
  }

  /** The stored rows of a fingerprint after the run. */
  ghost predicate StoredAs(s: Settings, before: seq<CacheRow>, after: seq<CacheRow>, vectors: map<string, Vec>, asked: seq<string>) {
    forall f, p :: Select(after, f, p) ==
      if p == s.profile && f in asked && f in vectors then [NewRow(f, s.profile, vectors[f])] else Select(before, f, p)
  }

  lemma CompleteAfterwards(s: Settings, prompts: seq<string>, byPrint: map<string, string>, unique: seq<string>, prints: seq<string>,
                           before: seq<CacheRow>, after: seq<CacheRow>, found: map<string, Vec>, vectors: map<string, Vec>,
                           asked: seq<string>, embed: string -> Raw, width: nat)
    requires Fingerprinted(s, prompts, byPrint, unique, prints) && IsCached(s, before, unique, found) && IsRoot(s.root)
    requires Collected(s, embed, width, byPrint, unique, found, vectors, asked) && !Stale(unique, found, width)
    requires forall f :: f in vectors <==> f in unique
    requires StoredAs(s, before, after, vectors, asked)
    ensures CacheIsComplete(s, after, embed, prompts)
  {
    forall p | p in prompts
      ensures |Select(after, PrintOf(s, p), s.profile)| == 1
      ensures ValidVector(s, after, PrintOf(s, p)).Some?
      ensures ValidVector(s, after, PrintOf(s, p)) == Unit(s.root, embed(Canonical(s, p)))
    {
      var f := PrintOf(s, p);
      PrintOfSource(s, prompts, byPrint, unique, prints, p);
      hide Unit, Fingerprinted;
      assert Some(vectors[f]) == Unit(s.root, embed(byPrint[f]));
      if f in asked {
        assert Select(after, f, s.profile) == [NewRow(f, s.profile, vectors[f])];
        UnitIsIdempotent(s.root, embed(byPrint[f]));
      } else {
        assert Select(after, f, s.profile) == Select(before, f, s.profile);
        assert ValidVector(s, before, f) == Some(found[f]);
      }
    }
  }

  lemma SentOnce(s: Settings, prompts: seq<string>, byPrint: map<string, string>, unique: seq<string>, prints: seq<string>, asked: seq<string>)
    requires Fingerprinted(s, prompts, byPrint, unique, prints) && Distinct(asked)
    requires forall f :: f in asked ==> f in unique
    ensures forall f :: f in asked ==> f in byPrint
    ensures Distinct(Prompts(byPrint, asked))
    ensures forall c :: c in Prompts(byPrint, asked) ==> IsNormalFormOf(s, prompts, c)
  {
    var sent := Prompts(byPrint, asked);
    forall i, j | 0 <= i < j < |sent| ensures sent[i] != sent[j] {
      assert asked[i] in asked && asked[j] in asked;
      assert asked[i] == Print(s, sent[i]) && asked[j] == Print(s, sent[j]);
    }
    forall c | c in sent ensures IsNormalFormOf(s, prompts, c) {
      var i :| 0 <= i < |sent| && sent[i] == c;
      assert asked[i] in asked;
      var p := SourceOfPrint(s, prompts, byPrint, unique, prints, asked[i]);
      assert p in prompts;
    }
  }

  predicate IsNormalFormOf(s: Settings, prompts: seq<string>, canonical: string) {
    exists p :: p in prompts && Canonical(s, p) == canonical
  }

  function Prints(s: Settings, prompts: seq<string>): set<string> {
    set p | p in prompts :: PrintOf(s, p)
  }

  /** Looks the collected vectors up once they are stored. */
  method StoreCollected(s: Settings, table: Table, vectors: map<string, Vec>, asked: seq<string>, active: bool, claimHeld: bool) returns (ok: bool)
    requires forall f :: f in asked ==> f in vectors
    requires forall f :: f in vectors ==> vectors[f] != []
    modifies table
    ensures ok <==> asked == [] || (active && claimHeld)
    ensures asked == [] || !ok ==> table.rows == old(table.rows)
    ensures ok ==> StoredAs(s, old(table.rows), table.rows, vectors, asked)
  {
    HasElement(asked);
    if asked == [] { return true; }
    if !active { return false; }
    var m := ToStore(vectors, asked);
    ok := table.Store(claimHeld, s.profile, m);
  }

  lemma MatrixIsDirect(s: Settings, prompts: seq<string>, byPrint: map<string, string>, unique: seq<string>, prints: seq<string>,
                       found: map<string, Vec>, vectors: map<string, Vec>, asked: seq<string>, embed: string -> Raw, width: nat, matrix: seq<Vec>)
    requires Fingerprinted(s, prompts, byPrint, unique, prints) && Faithful(s, embed, width) && prompts != []
    requires Collected(s, embed, width, byPrint, unique, found, vectors, asked)
    requires |matrix| == |prints|
    requires forall i :: 0 <= i < |prints| ==> prints[i] in vectors && matrix[i] == vectors[prints[i]]
    ensures IsDirect(s, embed, prompts, matrix) <==> !Stale(unique, found, width)
  {
    hide Unit;
    if !Stale(unique, found, width) {
      forall i | 0 <= i < |prompts| ensures Some(matrix[i]) == Unit(s.root, embed(Canonical(s, prompts[i]))) {
        assert byPrint[prints[i]] == Canonical(s, prompts[i]);
      }
    } else {
      var f :| f in unique && |found[f]| != width;
      assert prints[0] in byPrint && prints[0] in unique && |vectors[prints[0]]| == |found[f]|;
      UnitWidth(s.root, embed(Canonical(s, prompts[0])));
      assert Unit(s.root, embed(Canonical(s, prompts[0]))).Some?;
    }
  }

  /** Embeds the prompts through the cache; `sent` is what the provider was asked and `counted` what a run reports of it. */
  method EmbedRecords(s: Settings, table: Table, prompts: seq<string>, active: nat -> bool, claimHeld: bool,
                      ghost embed: string -> Raw, ghost width: nat)
    returns (result: Result, sent: seq<string>, counted: nat)
    modifies table
    ensures counted in {0, |sent|} && (result.Embedded? ==> counted == |sent|)
    ensures Distinct(sent) && forall c :: c in sent ==> IsNormalFormOf(s, prompts, c)
    ensures forall f, p :: p != s.profile || f !in Prints(s, prompts) ==> Select(table.rows, f, p) == Select(old(table.rows), f, p)
    ensures Sound(s, old(table.rows), embed, width, prompts) && !Collision(s, prompts) && claimHeld && (forall k :: active(k)) ==>
              result.Embedded?
    ensures Sound(s, old(table.rows), embed, width, prompts) && result.Embedded? ==>
              (IsDirect(s, embed, prompts, result.matrix) <==> prompts == [] || !CacheIsStale(s, old(table.rows), width, prompts))
    ensures Sound(s, old(table.rows), embed, width, prompts) && result.Embedded? ==>
              if prompts != [] && CacheIsStale(s, old(table.rows), width, prompts) then sent == [] && table.rows == old(table.rows)
              else CacheIsComplete(s, table.rows, embed, prompts)
    ensures IsRoot(s.root) && result.Embedded? ==>
              Cached(s, table.rows, prompts) && MatrixIsCached(s, table.rows, prompts, result.matrix)
    ensures Cached(s, old(table.rows), prompts) ==> sent == [] && table.rows == old(table.rows)
  {
    hide *;
    ghost var before, sound := table.rows, Sound(s, table.rows, embed, width, prompts);
    if sound { SoundMeans(s, before, embed, width, prompts); }
    sent, counted := [], 0;
    if prompts == [] {
      NoPromptsAtAll(s, table.rows, embed);
      return Embedded([]), [], 0;
    }
    var collided, byPrint, unique, prints := Fingerprint(s, prompts);
    NoPrompts(map[]);
    if collided || !active(0) { return Failed, [], 0; }
    FingerprintedMeans(s, prompts, byPrint, unique, prints);
    var found := ReadCache(s, table, unique);
    FoundMeans(s, before, unique, found);
    CachedMeans(s, prompts, byPrint, unique, prints, before, found);
    StaleOfFound(s, prompts, byPrint, unique, prints, before, found, width);
    if sound { AgreementOfFound(s, prompts, byPrint, unique, prints, before, found, embed, width); }
    var vectors, asked;
    vectors, asked, sent := CollectVectors(s, byPrint, unique, found, active, embed, width);
    NoPrompts(byPrint);
    SentOnce(s, prompts, byPrint, unique, prints, asked);
    if vectors.None? { return Failed, sent, 0; }
    if sound { CollectedMeans(s, before, embed, width, byPrint, unique, found, vectors.value, asked); }
    SourcedAreUnits(s, before, unique, found, vectors.value, asked);
    var ok := StoreCollected(s, table, vectors.value, asked, active(5), claimHeld);
    if !ok { return Failed, sent, 0; }
    counted := |sent|;
    StoredMeans(s, prompts, byPrint, unique, prints, before, table.rows, vectors.value, asked);
    var matrix := Lookup(s, vectors.value, prints);
    result := if matrix.Some? then Embedded(matrix.value) else Failed;
    if matrix.Some? && IsRoot(s.root) {
      MatrixOfStored(s, prompts, byPrint, unique, prints, before, table.rows, found, vectors.value, asked, matrix.value);
    }
    if sound {
      MatrixIsDirect(s, prompts, byPrint, unique, prints, found, vectors.value, asked, embed, width, matrix.value);
      if !Stale(unique, found, width) {
        CompleteAfterwards(s, prompts, byPrint, unique, prints, before, table.rows, found, vectors.value, asked, embed, width);
      }
    }
  }

  lemma SourcedAreUnits(s: Settings, rows: seq<CacheRow>, unique: seq<string>, found: map<string, Vec>, vectors: map<string, Vec>, asked: seq<string>)
    requires IsCached(s, rows, unique, found) && Sourced(s, found, vectors, asked)
    ensures forall f :: f in vectors ==> IsUnit(s.root, vectors[f])
  {
    hide Unit;
    forall f | f in vectors ensures IsUnit(s.root, vectors[f]) {
      assert f !in asked ==> ValidVector(s, rows, f) == Some(vectors[f]);
    }
  }

  /** The matrix is what the cache holds afterwards, whatever the provider answered. */
  lemma MatrixOfStored(s: Settings, prompts: seq<string>, byPrint: map<string, string>, unique: seq<string>, prints: seq<string>,
                       before: seq<CacheRow>, after: seq<CacheRow>, found: map<string, Vec>, vectors: map<string, Vec>,
                       asked: seq<string>, matrix: seq<Vec>)
    requires Fingerprinted(s, prompts, byPrint, unique, prints) && IsCached(s, before, unique, found) && IsRoot(s.root)
    requires Sourced(s, found, vectors, asked) && StoredAs(s, before, after, vectors, asked) && prompts != []
    requires |matrix| == |prints| && SameWidth(matrix)
    requires forall i :: 0 <= i < |prints| ==> prints[i] in vectors && matrix[i] == vectors[prints[i]]
    ensures Cached(s, after, prompts) && MatrixIsCached(s, after, prompts, matrix)
  {
    assert forall i :: 0 <= i < |prompts| ==> prints[i] == PrintOf(s, prompts[i]);
    hide Fingerprinted;
    forall i | 0 <= i < |prompts| ensures Some(matrix[i]) == ValidVector(s, after, PrintOf(s, prompts[i])) {
      var f := prints[i];
      hide Unit, IsUnit;
      if f in asked {
        assert Select(after, f, s.profile) == [NewRow(f, s.profile, vectors[f])];
        StoredUnit(s.root, vectors[f]);
      } else {
        assert Select(after, f, s.profile) == Select(before, f, s.profile);
        assert ValidVector(s, before, f) == Some(found[f]);
      }
    }
    assert CachedAtWidth(s, after, |matrix[0]|, prompts) by {
      hide Unit, ValidVector;
      forall p | p in prompts ensures var v := ValidVector(s, after, PrintOf(s, p)); v.Some? && |v.value| == |matrix[0]| {
        var i :| 0 <= i < |prompts| && prompts[i] == p;
        assert Some(matrix[i]) == ValidVector(s, after, PrintOf(s, prompts[i]));
      }
    }
  }

  lemma StoredUnit(root: Root, v: Vec)
    requires IsRoot(root) && IsUnit(root, v)
    ensures Unit(root, Stored(v)) == Some(v)
  {
    var raw: Raw :| Unit(root, raw) == Some(v);
    UnitIsIdempotent(root, raw);
  }

  lemma SoundMeans(s: Settings, rows: seq<CacheRow>, embed: string -> Raw, width: nat, prompts: seq<string>)
    requires Sound(s, rows, embed, width, prompts)
    ensures IsRoot(s.root) && Faithful(s, embed, width) && CacheAgrees(s, rows, embed, width, prompts)
  {
  }

  lemma CachedMeans(s: Settings, prompts: seq<string>, byPrint: map<string, string>, unique: seq<string>, prints: seq<string>,
                    rows: seq<CacheRow>, found: map<string, Vec>)
    requires Fingerprinted(s, prompts, byPrint, unique, prints) && IsCached(s, rows, unique, found)
    ensures Cached(s, rows, prompts) ==> (forall f :: f in unique ==> f in found) && Uniform(found)
    ensures (forall f :: f in unique ==> f in found) && Uniform(found) ==> Cached(s, rows, prompts)
  {
    hide Unit, ValidVector, Fingerprinted, CachedAtWidth, IsCached;
    if Cached(s, rows, prompts) {
      var w: nat :| CachedAtWidth(s, rows, w, prompts);
      CachedAtWidthOfFound(s, prompts, byPrint, unique, prints, rows, found, w);
    }
    if (forall f :: f in unique ==> f in found) && Uniform(found) {
      var w: nat := if unique != [] then |found[unique[0]]| else 0;
      FoundInUnique(s, rows, unique, found);
      assert OneWidth(found, w) by {
        forall f | f in found ensures |found[f]| == w { assert unique[0] in unique; }
      }
      CachedAtWidthOfFound(s, prompts, byPrint, unique, prints, rows, found, w);
    }
  }

  lemma FoundInUnique(s: Settings, rows: seq<CacheRow>, unique: seq<string>, found: map<string, Vec>)
    requires IsCached(s, rows, unique, found)
    ensures forall f :: f in found ==> f in unique
    ensures unique == [] ==> found == map[]
  {
  }

  lemma FingerprintedMeans(s: Settings, prompts: seq<string>, byPrint: map<string, string>, unique: seq<string>, prints: seq<string>)
    requires Fingerprinted(s, prompts, byPrint, unique, prints)
    ensures Distinct(unique) && (forall f :: f in unique <==> f in byPrint) && (forall f :: f in prints ==> f in unique)
    ensures |prints| == |prompts|
  {
  }

  lemma FoundMeans(s: Settings, rows: seq<CacheRow>, unique: seq<string>, found: map<string, Vec>)
    requires IsCached(s, rows, unique, found)
    ensures forall f :: f in found ==> f in unique && found[f] != []
  {
    forall f | f in found ensures found[f] != [] {
      assert ValidVector(s, rows, f) == Some(found[f]);
    }
  }

  lemma CollectedMeans(s: Settings, rows: seq<CacheRow>, embed: string -> Raw, width: nat, byPrint: map<string, string>,
                       unique: seq<string>, found: map<string, Vec>, vectors: map<string, Vec>, asked: seq<string>)
    requires Collected(s, embed, width, byPrint, unique, found, vectors, asked) && IsCached(s, rows, unique, found)
    ensures Uniform(vectors) && forall f :: f in vectors ==> IsUnit(s.root, vectors[f])
    ensures Stale(unique, found, width) ==> asked == [] && vectors == found && Uniform(found) && forall f :: f in unique ==> f in found
  {
    CollectedAreUnits(s, rows, embed, width, byPrint, unique, found, vectors, asked);
  }

  lemma StoredMeans(s: Settings, prompts: seq<string>, byPrint: map<string, string>, unique: seq<string>, prints: seq<string>,
                    before: seq<CacheRow>, after: seq<CacheRow>, vectors: map<string, Vec>, asked: seq<string>)
    requires Fingerprinted(s, prompts, byPrint, unique, prints) && StoredAs(s, before, after, vectors, asked)
    requires forall f :: f in asked ==> f in unique
    ensures forall f, p :: p != s.profile || f !in Prints(s, prompts) ==> Select(after, f, p) == Select(before, f, p)
  {
    forall f, p | p != s.profile || f !in Prints(s, prompts) ensures Select(after, f, p) == Select(before, f, p) {
      if f in asked {
        var q := SourceOfPrint(s, prompts, byPrint, unique, prints, f);
        assert PrintOf(s, q) in Prints(s, prompts);
      }
    }
  }

  lemma NoPromptsAtAll(s: Settings, rows: seq<CacheRow>, embed: string -> Raw)
    ensures IsDirect(s, embed, [], []) && CacheIsComplete(s, rows, embed, []) && Distinct<string>([])
    ensures Cached(s, rows, []) && MatrixIsCached(s, rows, [], [])
  {
    assert CachedAtWidth(s, rows, 0, []);
  }

  // ------------------------------------------------------------ a stale cache

  /** A provider whose answers have become one wider than the row that the cache holds for the prompt "p". */
  function WidenedProvider(root: Root, profile: Profile): Settings {
    Settings(root, p => p, p => p, prompts => Some(seq(|prompts|, _ => Wide())), profile)
  }

  function Wide(): Raw { [Finite(1.0), Finite(0.0)] }

  lemma UnitsOfStale(root: Root)
    requires IsRoot(root)
    ensures Unit(root, [Finite(1.0)]) == Some([1.0]) && Unit(root, Wide()) == Some([1.0, 0.0])
  {
    RootOfOne(root);
    var one, wide := Values([Finite(1.0)]), Values(Wide());
    assert one == [1.0] && wide == [1.0, 0.0];
    assert [1.0][..0] == [] && [1.0, 0.0][..1] == [1.0];
    assert SumOfSquares([1.0]) == 1.0 && SumOfSquares([1.0, 0.0]) == 1.0;
    assert Scaled([1.0], 1.0) == [1.0] && Scaled([1.0, 0.0], 1.0) == [1.0, 0.0];
  }

  /** One row of width one, for the prompt "p", in whatever profile. */
  lemma OneRowIsCached(s: Settings)
    requires IsRoot(s.root) && s.normalize("p") == "p" && s.hash("p") == "p"
    ensures var rows := [NewRow("p", s.profile, [1.0])];
            && ValidVector(s, rows, "p") == Some([1.0]) && PrintOf(s, "p") == "p"
            && CachedAtWidth(s, rows, 1, ["p"]) && MatrixIsCached(s, rows, ["p"], [[1.0]])
  {
    var rows := [NewRow("p", s.profile, [1.0])];
    UnitsOfStale(s.root);
    assert rows[..0] == [] && Select(rows, "p", s.profile) == rows;
    assert Stored([1.0]) == [Finite(1.0)];
    hide Unit, Select;
    assert ValidVector(s, rows, "p") == Some([1.0]);
    assert forall p :: p in ["p"] ==> p == "p";
    hide ValidVector;
  }

  /** A sound cache that is stale: whatever matrix agrees with it is not the one computed without a cache. */
  lemma StaleCacheIsNotRefreshed(root: Root, profile: Profile, matrix: seq<Vec>)
    requires IsRoot(root)
    ensures var s, rows, embed := WidenedProvider(root, profile), [NewRow("p", profile, [1.0])], (_: string) => Wide();
            && Sound(s, rows, embed, 2, ["p"]) && !Collision(s, ["p"]) && CacheIsStale(s, rows, 2, ["p"])
            && (MatrixIsCached(s, rows, ["p"], matrix) ==> matrix == [[1.0]] && !IsDirect(s, embed, ["p"], matrix))
  {
    var s, rows, embed := WidenedProvider(root, profile), [NewRow("p", profile, [1.0])], (_: string) => Wide();
    UnitsOfStale(root);
    OneRowIsCached(s);
    assert forall p :: p in ["p"] ==> p == "p";
    hide Unit, ValidVector, Select;
    assert Faithful(s, embed, 2) by {
      forall prompts ensures s.provider(prompts) == Some(seq(|prompts|, i requires 0 <= i < |prompts| => embed(prompts[i]))) {
        assert seq(|prompts|, i requires 0 <= i < |prompts| => embed(prompts[i])) == seq(|prompts|, _ => Wide());
      }
    }
    if MatrixIsCached(s, rows, ["p"], matrix) {
      assert ["p"][0] == "p" && matrix == [matrix[0]];
    }
  }
}
