/**
 The scope of a cached response, its serialization and the cache key made from it.
 SHA-256 is a parameter: a function into strings of 64 hexadecimal digits.
 */
module ScopeKey {
  import opened Common
  import opened Strings
  import Sorting

  type Hash = string -> string

  const HASH_LENGTH := 64

  /** What has to agree between two requests before they may share a response. */
  datatype Scope = Scope(verb: string, model: string, paramsHash: string, path: string, stream: bool, systemHash: string)

  predicate OneLine(s: string) {
    '\n' !in s
  }

  /** An HTTP method and an escaped path hold no line break; a model name may hold anything. */
  predicate WellFormed(s: Scope) {
    OneLine(s.verb) && OneLine(s.path) && |s.paramsHash| == HASH_LENGTH && |s.systemHash| == HASH_LENGTH
  }

  function FormatBool(b: bool): string {
    if b then "true" else "false"
  }

  function Fields(s: Scope): map<string, string> {
    map["method" := s.verb, "path" := s.path, "model" := s.model, "system_hash" := s.systemHash,
        "params_hash" := s.paramsHash, "stream" := FormatBool(s.stream)]
  }

  // --------------------------------------------------------- serialization

  /** The lines written for the first `n` keys. */
  function Lines(keys: seq<string>, values: map<string, string>): string
    requires forall k :: k in keys ==> k in values
  {
    if keys == [] then ""
    else
      var last := keys[|keys| - 1];
      Lines(keys[..|keys| - 1], values) + last + "=" + values[last] + "\n"
  }

  lemma SortedKeys(found: seq<string>, keys: seq<string>)
    requires Distinct(keys) && Sorting.Sorted(Less, keys)
    requires Distinct(found) && forall k :: k in keys <==> k in found
    ensures Sorting.Sort(Less, found) == keys
  {
    hide Less, Sorting.Sort;
    Sorting.SameSetSameElements(found, keys);
    LessOrders(found);
    LessOrders(keys);
    Sorting.SortSorts(Less, found);
    Sorting.SortKeepsElements(Less, found);
    Sorting.SortedIsUnique(Less, keys, Sorting.Sort(Less, found));
  }

  /** Writes the fields in key order and hashes the text. */
  method HashScope(hash: Hash, values: map<string, string>, ghost keys: seq<string>) returns (r: string)
    requires Distinct(keys) && Sorting.Sorted(Less, keys)
    requires forall k :: k in keys <==> k in values
    ensures r == hash(Lines(keys, values))
  {
    hide Less, Sorting.Sort, Sorting.Sorted;
    var found := CollectKeys(values);
    var sorted := Sorting.Sort(Less, found);
    SortedKeys(found, keys);
    var b := "";
    for i := 0 to |sorted|
      invariant b == Lines(sorted[..i], values)
    {
      assert sorted[..i + 1][..i] == sorted[..i];
      b := b + sorted[i] + "=" + values[sorted[i]] + "\n";
    }
    assert sorted[..|sorted|] == sorted;
    r := hash(b);
  }

  function Line(key: string, value: string): string {
    key + "=" + value + "\n"
  }

  /** The text that is hashed for a scope: one line a field, in key order. */
  function Text(s: Scope): string {
    Line("method", s.verb) + Line("model", s.model) + Line("params_hash", s.paramsHash) + Line("path", s.path)
    + Line("stream", FormatBool(s.stream)) + Line("system_hash", s.systemHash)
  }

  const KEYS: seq<string> := ["method", "model", "params_hash", "path", "stream", "system_hash"]

  predicate Ascending(keys: seq<string>) {
    |keys| >= 2 ==> Less(keys[0], keys[1]) && Ascending(keys[1..])
  }

  lemma {:induction false} AscendingFromFirst(keys: seq<string>, j: nat)
    requires Ascending(keys) && 0 < j < |keys|
    ensures Less(keys[0], keys[j])
  {
    if j > 1 {
      AscendingFromFirst(keys[1..], j - 1);
      LessIsTransitive(keys[0], keys[1], keys[j]);
    }
  }

  lemma {:induction false} AscendingIsSorted(keys: seq<string>, i: nat, j: nat)
    requires Ascending(keys) && i < j < |keys|
    ensures keys[i] != keys[j] && !Less(keys[j], keys[i])
  {
    if i == 0 {
      AscendingFromFirst(keys, j);
      LessIsIrreflexive(keys[0]);
      if Less(keys[j], keys[0]) { LessIsTransitive(keys[0], keys[j], keys[0]); }
    } else {
      AscendingIsSorted(keys[1..], i - 1, j - 1);
    }
  }

  lemma NeighboursAscend()
    ensures Less("method", "model") && Less("model", "params_hash") && Less("params_hash", "path")
    ensures Less("path", "stream") && Less("stream", "system_hash")
  {
    assert "path"[1..] == "ath" && "ath"[1..] == "th" && "params_hash"[1..] == "arams_hash" && "arams_hash"[1..] == "rams_hash";
    assert "method"[1..] == "ethod" && "model"[1..] == "odel" && "stream"[1..] == "tream" && "system_hash"[1..] == "ystem_hash";
  }

  lemma AscendingPrepend(key: string, keys: seq<string>)
    requires Ascending(keys) && (keys != [] ==> Less(key, keys[0]))
    ensures Ascending([key] + keys)
  {
    assert ([key] + keys)[1..] == keys;
  }

  lemma SixAscending(a: string, b: string, c: string, d: string, e: string, f: string)
    requires Less(a, b) && Less(b, c) && Less(c, d) && Less(d, e) && Less(e, f)
    ensures Ascending([a, b, c, d, e, f])
  {
    hide Less;
    AscendingPrepend(f, []);
    AscendingPrepend(e, [f]);
    AscendingPrepend(d, [e, f]);
    AscendingPrepend(c, [d, e, f]);
    AscendingPrepend(b, [c, d, e, f]);
    AscendingPrepend(a, [b, c, d, e, f]);
    hide Ascending;
    assert [e] + [f] == [e, f] && [d] + [e, f] == [d, e, f] && [c] + [d, e, f] == [c, d, e, f];
    assert [b] + [c, d, e, f] == [b, c, d, e, f] && [a] + [b, c, d, e, f] == [a, b, c, d, e, f];
  }

  lemma KeysAreSorted()
    ensures Distinct(KEYS) && Sorting.Sorted(Less, KEYS)
  {
    hide Less;
    NeighboursAscend();
    SixAscending("method", "model", "params_hash", "path", "stream", "system_hash");
    hide Ascending;
    forall i, j | 0 <= i < j < |KEYS| ensures KEYS[i] != KEYS[j] && !Less(KEYS[j], KEYS[i]) {
      AscendingIsSorted(KEYS, i, j);
    }
  }

  lemma LinesAppended(keys: seq<string>, key: string, values: map<string, string>, more: seq<string>)
    requires key in values && more == keys + [key] && forall k :: k in keys ==> k in values
    ensures Lines(more, values) == Lines(keys, values) + Line(key, values[key])
  {
    assert more[..|keys|] == keys;
  }

  lemma SixLines(v: map<string, string>, k1: string, k2: string, k3: string, k4: string, k5: string, k6: string)
    requires forall k :: k in [k1, k2, k3, k4, k5, k6] ==> k in v
    ensures k1 in v && k2 in v && k3 in v && k4 in v && k5 in v && k6 in v
    ensures Lines([k1, k2, k3, k4, k5, k6], v) ==
            Line(k1, v[k1]) + Line(k2, v[k2]) + Line(k3, v[k3]) + Line(k4, v[k4]) + Line(k5, v[k5]) + Line(k6, v[k6])
  {
    var keys := [k1, k2, k3, k4, k5, k6];
    assert k1 == keys[0] && k2 == keys[1] && k3 == keys[2] && k4 == keys[3] && k5 == keys[4] && k6 == keys[5];
    assert Lines([], v) == "";
    hide Lines, Line;
    assert [] + Line(k1, v[k1]) == Line(k1, v[k1]);
    LinesAppended([], k1, v, [k1]);
    LinesAppended([k1], k2, v, [k1, k2]);
    LinesAppended([k1, k2], k3, v, [k1, k2, k3]);
    LinesAppended([k1, k2, k3], k4, v, [k1, k2, k3, k4]);
    LinesAppended([k1, k2, k3, k4], k5, v, [k1, k2, k3, k4, k5]);
    LinesAppended([k1, k2, k3, k4, k5], k6, v, keys);
  }

  lemma FieldValues(s: Scope)
    ensures forall k :: k in KEYS <==> k in Fields(s)
    ensures Fields(s)["method"] == s.verb && Fields(s)["model"] == s.model && Fields(s)["params_hash"] == s.paramsHash
    ensures Fields(s)["path"] == s.path && Fields(s)["stream"] == FormatBool(s.stream)
    ensures Fields(s)["system_hash"] == s.systemHash
  {
    assert "method"[0] == 'm' && "stream"[0] == 's';
    assert KEYS[0] == "method" && KEYS[1] == "model" && KEYS[2] == "params_hash";
    assert KEYS[3] == "path" && KEYS[4] == "stream" && KEYS[5] == "system_hash";
  }

  /** The lines of a scope in key order are its text. */
  lemma LinesOfScope(s: Scope)
    ensures forall k :: k in KEYS <==> k in Fields(s)
    ensures Lines(KEYS, Fields(s)) == Text(s)
  {
    hide Line, Lines;
    FieldValues(s);
    SixLines(Fields(s), "method", "model", "params_hash", "path", "stream", "system_hash");
  }

  // ------------------------------------------------------------ injectivity

  lemma FirstLine(a: string, b: string, x: string, y: string)
    requires OneLine(a) && OneLine(b) && a + "\n" + x == b + "\n" + y
    ensures a == b && x == y
  {
    assert (a + "\n" + x)[|a|] == '\n' && (b + "\n" + y)[|b|] == '\n';
    assert forall i :: 0 <= i < |a| ==> (a + "\n" + x)[i] == a[i];
    assert forall i :: 0 <= i < |b| ==> (b + "\n" + y)[i] == b[i];
    assert |a| == |b|;
    assert a == (a + "\n" + x)[..|a|] && b == (b + "\n" + y)[..|b|];
    assert x == (a + "\n" + x)[|a| + 1..] && y == (b + "\n" + y)[|b| + 1..];
  }

  lemma LastLine(x: string, y: string, a: string, b: string)
    requires OneLine(a) && OneLine(b) && x + "\n" + a == y + "\n" + b
    ensures a == b && x == y
  {
    var s, t := x + "\n" + a, y + "\n" + b;
    assert s[|x|] == '\n' && t[|y|] == '\n';
    assert forall i :: |x| < i < |s| ==> s[i] == a[i - |x| - 1];
    assert forall i :: |y| < i < |t| ==> t[i] == b[i - |y| - 1];
    assert |x| == |y|;
    assert a == s[|x| + 1..] && b == t[|y| + 1..] && x == s[..|x|] && y == t[..|y|];
  }

  lemma SameSuffix(x: string, y: string, a: string, b: string)
    requires |a| == |b| && x + a == y + b
    ensures a == b && x == y
  {
    assert a == (x + a)[|x|..] && b == (y + b)[|y|..] && x == (x + a)[..|x|] && y == (y + b)[..|y|];
  }

  lemma SamePrefix(x: string, y: string, a: string, b: string)
    requires |x| == |y| && x + a == y + b
    ensures a == b && x == y
  {
    assert a == (x + a)[|x|..] && b == (y + b)[|y|..] && x == (x + a)[..|x|] && y == (y + b)[..|y|];
  }

  lemma LineIsInjective(key: string, x: string, y: string)
    requires Line(key, x) == Line(key, y)
    ensures x == y
  {
    SameSuffix(key + "=" + x, key + "=" + y, "\n", "\n");
    SamePrefix(key + "=", key + "=", x, y);
  }

  /** Lines of fixed length at the right end. */
  lemma LastFixedLine(before: string, other: string, key: string, x: string, y: string)
    requires |x| == |y| && before + Line(key, x) == other + Line(key, y)
    ensures before == other && x == y
  {
    SameSuffix(before, other, Line(key, x), Line(key, y));
    LineIsInjective(key, x, y);
  }

  /** A value without a line break at the right end, after a complete line. */
  lemma LastLineField(before: string, other: string, key: string, x: string, y: string)
    requires OneLine(key) && OneLine(x) && OneLine(y)
    requires before + "\n" + Line(key, x) == other + "\n" + Line(key, y)
    ensures before == other && x == y
  {
    assert before + "\n" + Line(key, x) == before + "\n" + (key + "=" + x) + "\n";
    assert other + "\n" + Line(key, y) == other + "\n" + (key + "=" + y) + "\n";
    SameSuffix(before + "\n" + (key + "=" + x), other + "\n" + (key + "=" + y), "\n", "\n");
    assert OneLine("=");
    LastLine(before, other, key + "=" + x, key + "=" + y);
    SamePrefix(key + "=", key + "=", x, y);
  }

  /** A line that is not yet ended. */
  function Open(key: string, value: string): string {
    key + "=" + value
  }

  /**
   From the right: a hash of fixed length, one of two words, a path without a line break, a hash of
   fixed length.  What is left is the method line and the model line.
   */
  lemma RightEndIsInjective(a: Scope, b: Scope)
    requires WellFormed(a) && WellFormed(b) && Text(a) == Text(b)
    ensures a.paramsHash == b.paramsHash && a.path == b.path && a.stream == b.stream && a.systemHash == b.systemHash
    ensures Line("method", a.verb) + Line("model", a.model) == Line("method", b.verb) + Line("model", b.model)
  {
    var ma, mb := Line("method", a.verb) + Line("model", a.model), Line("method", b.verb) + Line("model", b.model);
    var pa, pb := ma + Line("params_hash", a.paramsHash), mb + Line("params_hash", b.paramsHash);
    var ua, ub := pa + Line("path", a.path), pb + Line("path", b.path);
    var sa, sb := FormatBool(a.stream), FormatBool(b.stream);
    assert |FormatBool(true)| != |FormatBool(false)|;
    OneLineNames();
    EndsInBreak(ma, "params_hash", a.paramsHash);
    EndsInBreak(mb, "params_hash", b.paramsHash);
    EndsInBreak(pa, "path", a.path);
    EndsInBreak(pb, "path", b.path);
    hide Line, FormatBool, OneLine;
    LastFixedLine(ua + Line("stream", sa), ub + Line("stream", sb), "system_hash", a.systemHash, b.systemHash);
    LastLineField(pa + Open("path", a.path), pb + Open("path", b.path), "stream", sa, sb);
    LastLineField(ma + Open("params_hash", a.paramsHash), mb + Open("params_hash", b.paramsHash), "path", a.path, b.path);
    LastFixedLine(ma, mb, "params_hash", a.paramsHash, b.paramsHash);
  }

  lemma EndsInBreak(before: string, key: string, value: string)
    ensures before + Line(key, value) == before + Open(key, value) + "\n"
  {
  }

  lemma OneLineNames()
    ensures OneLine("path") && OneLine("stream") && OneLine(FormatBool(true)) && OneLine(FormatBool(false))
  {
  }

  /** Different scopes are serialized differently, although a model name may contain line breaks and `=`. */
  lemma TextIsInjective(a: Scope, b: Scope)
    requires WellFormed(a) && WellFormed(b) && Text(a) == Text(b)
    ensures a == b
  {
    RightEndIsInjective(a, b);
    var ma, mb := Line("model", a.model), Line("model", b.model);
    assert Line("method", a.verb) + ma == "method=" + (a.verb + "\n" + ma);
    assert Line("method", b.verb) + mb == "method=" + (b.verb + "\n" + mb);
    SamePrefix("method=", "method=", a.verb + "\n" + ma, b.verb + "\n" + mb);
    FirstLine(a.verb, b.verb, ma, mb);
    LineIsInjective("model", a.model, b.model);
  }

  // -------------------------------------------------------------------- key

  function ScopeHash(hash: Hash, s: Scope): string {
    hash(Text(s))
  }

  function KeyText(hash: Hash, s: Scope, prompt: string): string {
    ScopeHash(hash, s) + "\0" + prompt
  }

  function EntryKey(hash: Hash, prefix: string, s: Scope, prompt: string): string {
    prefix + hash(KeyText(hash, s, prompt))
  }

  predicate Collide(hash: Hash, x: string, y: string) {
    x != y && hash(x) == hash(y)
  }

  /** SHA-256 yields digests of one length and did not collide on what two requests made it hash. */
  ghost predicate Trusted(hash: Hash, a: Scope, p: string, b: Scope, q: string) {
    && (forall x :: |hash(x)| == HASH_LENGTH)
    && !Collide(hash, Text(a), Text(b))
    && !Collide(hash, KeyText(hash, a, p), KeyText(hash, b, q))
  }

  /** The scope hash and the entry key of a request, as the middleware computes them. */
  method KeyOf(hash: Hash, prefix: string, s: Scope, prompt: string) returns (scopeHash: string, key: string)
    ensures scopeHash == ScopeHash(hash, s) && key == EntryKey(hash, prefix, s, prompt)
  {
    KeysAreSorted();
    LinesOfScope(s);
    scopeHash := HashScope(hash, Fields(s), KEYS);
    key := prefix + hash(scopeHash + "\0" + prompt);
  }

  /** Two requests share an entry key exactly when they agree on all six scope fields and on the prompt. */
  lemma EqualKeysMeanEqualRequests(hash: Hash, prefix: string, a: Scope, p: string, b: Scope, q: string)
    requires WellFormed(a) && WellFormed(b) && Trusted(hash, a, p, b, q)
    ensures EntryKey(hash, prefix, a, p) == EntryKey(hash, prefix, b, q) <==> a == b && p == q
    ensures ScopeHash(hash, a) == ScopeHash(hash, b) <==> a == b
  {
    hide Text;
    if ScopeHash(hash, a) == ScopeHash(hash, b) {
      TextIsInjective(a, b);
    }
    if EntryKey(hash, prefix, a, p) == EntryKey(hash, prefix, b, q) {
      SamePrefix(prefix, prefix, hash(KeyText(hash, a, p)), hash(KeyText(hash, b, q)));
      assert KeyText(hash, a, p) == ScopeHash(hash, a) + ("\0" + p) && KeyText(hash, b, q) == ScopeHash(hash, b) + ("\0" + q);
      SamePrefix(ScopeHash(hash, a), ScopeHash(hash, b), "\0" + p, "\0" + q);
      SamePrefix("\0", "\0", p, q);
    }
  }
}
