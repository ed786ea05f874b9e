/** Sorting by a strict order, as far as the models need it. */
module Sorting {
  import opened Common

  /** `lt` is a strict order that is total on the elements of `s`. */
  ghost predicate OrdersElements<T(!new)>(lt: (T, T) -> bool, s: seq<T>) {
    && (forall x :: !lt(x, x))
    && (forall x, y, z :: lt(x, y) && lt(y, z) ==> lt(x, z))
    && (forall x, y :: x in s && y in s ==> x == y || lt(x, y) || lt(y, x))
  }

  ghost predicate Sorted<T>(lt: (T, T) -> bool, s: seq<T>) {
    forall i, j :: 0 <= i < j < |s| ==> !lt(s[j], s[i])
  }

  function Insert<T>(lt: (T, T) -> bool, x: T, s: seq<T>): seq<T> {
    if s == [] then [x] else if lt(x, s[0]) then [x] + s else [s[0]] + Insert(lt, x, s[1..])
  }

  function Sort<T>(lt: (T, T) -> bool, s: seq<T>): seq<T> {
    if s == [] then [] else Insert(lt, s[0], Sort(lt, s[1..]))
  }

  lemma {:induction false} InsertKeepsElements<T>(lt: (T, T) -> bool, x: T, s: seq<T>)
    ensures multiset(Insert(lt, x, s)) == multiset(s) + multiset{x}
    ensures |Insert(lt, x, s)| == |s| + 1
  {
    if s != [] && !lt(x, s[0]) {
      InsertKeepsElements(lt, x, s[1..]);
      assert s == [s[0]] + s[1..];
    }
  }

  lemma {:induction false} SortKeepsElements<T>(lt: (T, T) -> bool, s: seq<T>)
    ensures multiset(Sort(lt, s)) == multiset(s)
    ensures |Sort(lt, s)| == |s|
  {
    if s != [] {
      SortKeepsElements(lt, s[1..]);
      InsertKeepsElements(lt, s[0], Sort(lt, s[1..]));
      assert s == [s[0]] + s[1..];
    }
  }

  lemma SameElements<T>(a: seq<T>, b: seq<T>)
    requires multiset(a) == multiset(b)
    ensures forall x :: x in a <==> x in b
  {
    forall x ensures x in a <==> x in b {
      assert x in a <==> x in multiset(a);
      assert x in b <==> x in multiset(b);
    }
  }

  lemma NoneBelowHead<T(!new)>(lt: (T, T) -> bool, x: T, s: seq<T>)
    requires s != [] && Sorted(lt, s) && OrdersElements(lt, [x] + s) && !lt(x, s[0])
    ensures forall y :: y in s[1..] + [x] ==> !lt(y, s[0])
  {
    forall y | y in s[1..] + [x] ensures !lt(y, s[0]) {
      if y != x {
        var k :| 0 <= k < |s[1..]| && s[1..][k] == y;
        assert s[k + 1] == y;
      }
    }
  }

  lemma {:induction false} InsertSorts<T(!new)>(lt: (T, T) -> bool, x: T, s: seq<T>)
    requires Sorted(lt, s) && OrdersElements(lt, [x] + s)
    ensures Sorted(lt, Insert(lt, x, s))
  {
    if s != [] && !lt(x, s[0]) {
      var rest := Insert(lt, x, s[1..]);
      assert forall y :: y in [x] + s[1..] ==> y in [x] + s;
      InsertSorts(lt, x, s[1..]);
      InsertKeepsElements(lt, x, s[1..]);
      SameElements(rest, s[1..] + [x]);
      NoneBelowHead(lt, x, s);
      hide OrdersElements;
      forall j | 0 <= j < |rest| ensures !lt(rest[j], s[0]) { assert rest[j] in s[1..] + [x]; }
    } else if s != [] {
      assert forall y :: lt(y, x) ==> lt(y, s[0]);
      assert forall j :: 0 <= j < |s| ==> !lt(s[j], s[0]);
    }
  }

  lemma {:induction false} SortSorts<T(!new)>(lt: (T, T) -> bool, s: seq<T>)
    requires OrdersElements(lt, s)
    ensures Sorted(lt, Sort(lt, s))
  {
    if s != [] {
      assert forall y :: y in s[1..] ==> y in s;
      SortSorts(lt, s[1..]);
      SortKeepsElements(lt, s[1..]);
      SameElements(Sort(lt, s[1..]), s[1..]);
      assert forall y :: y in [s[0]] + Sort(lt, s[1..]) ==> y in s;
      InsertSorts(lt, s[0], Sort(lt, s[1..]));
    }
  }

  lemma SortedStartsLowest<T>(lt: (T, T) -> bool, s: seq<T>, x: T)
    requires Sorted(lt, s) && x in s && !lt(x, x)
    ensures !lt(x, s[0])
  {
    var j :| 0 <= j < |s| && s[j] == x;
  }

  lemma TailElements<T>(s: seq<T>)
    requires s != []
    ensures multiset(s[1..]) == multiset(s) - multiset{s[0]}
  {
    assert s == [s[0]] + s[1..];
  }

  /** Two sorted arrangements of the same elements are the same sequence. */
  lemma {:induction false} SortedIsUnique<T(!new)>(lt: (T, T) -> bool, a: seq<T>, b: seq<T>)
    requires OrdersElements(lt, a) && multiset(a) == multiset(b)
    requires Sorted(lt, a) && Sorted(lt, b)
    ensures a == b
    decreases |a|
  {
    SameElements(a, b);
    assert |multiset(a)| == |a| && |multiset(b)| == |b|;
    if a != [] {
      SortedStartsLowest(lt, b, a[0]);
      SortedStartsLowest(lt, a, b[0]);
      assert a[0] == b[0];
      TailElements(a);
      TailElements(b);
      assert forall y :: y in a[1..] ==> y in a;
      SortedIsUnique(lt, a[1..], b[1..]);
    }
  }

  /** Sorting forgets the order in which its input came. */
  lemma SortIsCanonical<T(!new)>(lt: (T, T) -> bool, s: seq<T>, p: seq<T>)
    requires OrdersElements(lt, s) && multiset(s) == multiset(p)
    ensures Sort(lt, s) == Sort(lt, p)
  {
    SameElements(s, p);
    SortSorts(lt, s);
    SortSorts(lt, p);
    SortKeepsElements(lt, s);
    SortKeepsElements(lt, p);
    SameElements(Sort(lt, s), s);
    SortedIsUnique(lt, Sort(lt, s), Sort(lt, p));
  }

  // -------------------------------------------------------- distinct elements

  lemma OccursOnce<T>(s: seq<T>, x: T)
    requires Distinct(s)
    ensures multiset(s)[x] == if x in s then 1 else 0
  {
    if x in s {
      var i :| 0 <= i < |s| && s[i] == x;
      assert s == s[..i] + [x] + s[i + 1..];
      assert x !in s[..i] && x !in s[i + 1..];
      assert multiset(s) == multiset(s[..i]) + multiset{x} + multiset(s[i + 1..]);
    }
  }

  lemma SameSetSameElements<T>(a: seq<T>, b: seq<T>)
    requires Distinct(a) && Distinct(b) && forall x :: x in a <==> x in b
    ensures multiset(a) == multiset(b)
  {
    forall x ensures multiset(a)[x] == multiset(b)[x] {
      OccursOnce(a, x);
      OccursOnce(b, x);
    }
  }

  lemma PermutedStaysDistinct<T>(a: seq<T>, b: seq<T>)
    requires Distinct(a) && multiset(a) == multiset(b)
    ensures Distinct(b)
  {
    forall i, j | 0 <= i < j < |b| ensures b[i] != b[j] {
      if b[i] == b[j] {
        assert b == b[..i] + [b[i]] + b[i + 1..j] + [b[j]] + b[j + 1..];
        assert multiset(b)[b[i]] >= 2;
        OccursOnce(a, b[i]);
      }
    }
  }

  /** `best` are the first `n` of `pool` in ascending order: whatever is missing comes after all of them. */
  ghost predicate IsFirst<T(!new)>(lt: (T, T) -> bool, pool: seq<T>, n: nat, best: seq<T>) {
    && |best| == (if n < |pool| then n else |pool|)
    && (forall i, j :: 0 <= i < j < |best| ==> lt(best[i], best[j]))
    && (forall x :: x in best ==> x in pool)
    && (forall x, y :: x in pool && x !in best && y in best ==> lt(y, x))
  }

  /** Sorting without repetition: each element strictly before all later ones. */
  lemma SortsStrictly<T(!new)>(lt: (T, T) -> bool, pool: seq<T>)
    requires OrdersElements(lt, pool) && Distinct(pool)
    ensures |Sort(lt, pool)| == |pool| && forall x :: x in Sort(lt, pool) <==> x in pool
    ensures forall i, j :: 0 <= i < j < |pool| ==> lt(Sort(lt, pool)[i], Sort(lt, pool)[j])
  {
    var sorted := Sort(lt, pool);
    SortSorts(lt, pool);
    SortKeepsElements(lt, pool);
    SameElements(sorted, pool);
    PermutedStaysDistinct(pool, sorted);
    hide Sort;
    forall i, j | 0 <= i < j < |sorted| ensures lt(sorted[i], sorted[j]) {
      assert sorted[i] in pool && sorted[j] in pool && sorted[i] != sorted[j] && !lt(sorted[j], sorted[i]);
    }
  }

  lemma InPrefix<T>(s: seq<T>, i: nat, n: nat)
    requires i < n <= |s|
    ensures s[i] in s[..n]
  {
    assert s[..n][i] == s[i];
  }

  lemma SortedPrefixIsFirst<T(!new)>(lt: (T, T) -> bool, pool: seq<T>, n: nat)
    requires OrdersElements(lt, pool) && Distinct(pool)
    ensures |Sort(lt, pool)| == |pool|
    ensures IsFirst(lt, pool, n, if n < |pool| then Sort(lt, pool)[..n] else Sort(lt, pool))
  {
    SortsStrictly(lt, pool);
    var sorted := Sort(lt, pool);
    hide Sort;
    var best := if n < |pool| then sorted[..n] else sorted;
    forall x, y | x in pool && x !in best && y in best ensures lt(y, x) {
      var i :| 0 <= i < |sorted| && sorted[i] == x;
      var j :| 0 <= j < |best| && best[j] == y;
      assert best == sorted[..|best|];
      if i < |best| { InPrefix(sorted, i, |best|); } else { assert sorted[j] == y; }
    }
  }

  /** There is only one such selection. */
  lemma {:induction false} FirstIsUnique<T(!new)>(lt: (T, T) -> bool, pool: seq<T>, n: nat, a: seq<T>, b: seq<T>)
    requires OrdersElements(lt, pool) && IsFirst(lt, pool, n, a) && IsFirst(lt, pool, n, b)
    ensures a == b
  {
    forall k: nat | k < |a| && a[..k] == b[..k] ensures a[k] == b[k] {
      assert a[k] in pool && b[k] in pool;
      if lt(a[k], b[k]) { OnlyPrefixBefore(lt, pool, n, b, a[k], k); HeadNotInPrefix(lt, pool, n, a, k); }
      if lt(b[k], a[k]) { OnlyPrefixBefore(lt, pool, n, a, b[k], k); HeadNotInPrefix(lt, pool, n, b, k); }
    }
    SameFromPrefixes(a, b, |a|);
  }

  lemma HeadNotInPrefix<T(!new)>(lt: (T, T) -> bool, pool: seq<T>, n: nat, a: seq<T>, k: nat)
    requires IsFirst(lt, pool, n, a) && k < |a| && (forall x :: !lt(x, x))
    ensures a[k] !in a[..k]
  {
  }

  /** What comes before the `k`-th of the selection is one of the earlier ones. */
  lemma OnlyPrefixBefore<T(!new)>(lt: (T, T) -> bool, pool: seq<T>, n: nat, b: seq<T>, x: T, k: nat)
    requires OrdersElements(lt, pool) && IsFirst(lt, pool, n, b) && k < |b| && x in pool && lt(x, b[k])
    ensures x in b[..k]
  {
    assert !lt(b[k], x);
    assert x in b;
    var j :| 0 <= j < |b| && b[j] == x;
    assert forall i :: k <= i < |b| ==> !lt(b[i], b[k]);
    InPrefix(b, j, k);
  }

  lemma {:induction false} SameFromPrefixes<T>(a: seq<T>, b: seq<T>, n: nat)
    requires n <= |a| == |b| && forall k: nat :: k < |a| && a[..k] == b[..k] ==> a[k] == b[k]
    ensures a[..n] == b[..n]
    ensures n == |a| ==> a == b
  {
    if n > 0 {
      SameFromPrefixes(a, b, n - 1);
      assert a[..n] == a[..n - 1] + [a[n - 1]] && b[..n] == b[..n - 1] + [b[n - 1]];
    }
    assert a[..|a|] == a && b[..|b|] == b;
  }
}
