/** The byte-wise order of strings. */
module Strings {
  import opened Common
  import Sorting

  /** `a` comes before `b`. */
  predicate Less(a: string, b: string) {
    if a == [] || b == [] then a == [] && b != []
    else if a[0] == b[0] then Less(a[1..], b[1..])
    else a[0] < b[0]
  }

  lemma {:induction false} LessIsIrreflexive(a: string)
    ensures !Less(a, a)
  {
    if a != [] { LessIsIrreflexive(a[1..]); }
  }

  lemma {:induction false} LessIsTransitive(a: string, b: string, c: string)
    requires Less(a, b) && Less(b, c)
    ensures Less(a, c)
  {
    if a != [] && b != [] && c != [] && a[0] == b[0] && b[0] == c[0] {
      LessIsTransitive(a[1..], b[1..], c[1..]);
    }
  }

  lemma {:induction false} LessIsTotal(a: string, b: string)
    ensures a == b || Less(a, b) || Less(b, a)
  {
    if a != [] && b != [] && a[0] == b[0] {
      LessIsTotal(a[1..], b[1..]);
      assert a == [a[0]] + a[1..] && b == [b[0]] + b[1..];
    }
  }

  lemma LessOrders(keys: seq<string>)
    ensures Sorting.OrdersElements(Less, keys)
  {
    forall x ensures !Less(x, x) { LessIsIrreflexive(x); }
    forall x, y, z | Less(x, y) && Less(y, z) ensures Less(x, z) { LessIsTransitive(x, y, z); }
    forall x, y ensures x == y || Less(x, y) || Less(y, x) { LessIsTotal(x, y); }
  }

  /** The elements of a list, each once, in the order in which they come up. */
  function FirstMet(s: seq<string>): seq<string> {
    if s == [] then []
    else
      var front, last := FirstMet(s[..|s| - 1]), s[|s| - 1];
      if last in front then front else front + [last]
  }

  lemma {:induction false} FirstMetHolds(s: seq<string>)
    ensures Distinct(FirstMet(s)) && forall x :: x in FirstMet(s) <==> x in s
  {
    if s != [] { FirstMetHolds(s[..|s| - 1]); }
  }

  /** Collects the keys in whatever order the map gives them. */
  method CollectKeys<V>(values: map<string, V>) returns (found: seq<string>)
    ensures Distinct(found) && forall k :: k in found <==> k in values
  {
    found := [];
    var rest := values.Keys;
    while rest != {}
      invariant rest <= values.Keys
      invariant forall k :: k in found <==> k in values && k !in rest
      invariant Distinct(found)
      decreases |rest|
    {
      var key :| key in rest;
      found, rest := found + [key], rest - {key};
    }
  }

  /** Distinct keys in ascending order. */
  method SortKeys(keys: seq<string>) returns (sorted: seq<string>)
    requires Distinct(keys)
    ensures multiset(sorted) == multiset(keys) && forall k :: k in sorted <==> k in keys
    ensures Distinct(sorted) && forall i, j :: 0 <= i < j < |sorted| ==> Less(sorted[i], sorted[j])
  {
    sorted := Sorting.Sort(Less, keys);
    LessOrders(keys);
    Sorting.SortSorts(Less, keys);
    Sorting.SortKeepsElements(Less, keys);
    Sorting.SameElements(sorted, keys);
    hide Less, Sorting.Sort;
    Sorting.PermutedStaysDistinct(keys, sorted);
    forall i, j | 0 <= i < j < |sorted| ensures Less(sorted[i], sorted[j]) {
      LessIsTotal(sorted[i], sorted[j]);
    }
  }
}
