/** Sums over sequences, and why the order of a sequence does not matter to them. */
module Sums {
  import opened Common

  function Sum<T>(f: T -> real, s: seq<T>): real {
    if s == [] then 0.0 else Sum(f, s[..|s| - 1]) + f(s[|s| - 1])
  }

  function Count<T(==)>(p: T -> bool, s: seq<T>): nat {
    if s == [] then 0 else Count(p, s[..|s| - 1]) + if p(s[|s| - 1]) then 1 else 0
  }

  lemma {:induction false} SumAppended<T>(f: T -> real, a: seq<T>, b: seq<T>)
    ensures Sum(f, a + b) == Sum(f, a) + Sum(f, b)
    decreases |b|
  {
    if b == [] {
      assert a + b == a;
    } else {
      SumAppended(f, a, b[..|b| - 1]);
      assert (a + b)[..|a + b| - 1] == a + b[..|b| - 1];
    }
  }

  function RemoveAt<T>(s: seq<T>, j: nat): seq<T>
    requires j < |s|
  {
    s[..j] + s[j + 1..]
  }

  lemma SumOfOne<T>(f: T -> real, x: T)
    ensures Sum(f, [x]) == f(x)
  {
    assert [x][..0] == [];
  }

  lemma RemovedFromSum<T>(f: T -> real, s: seq<T>, j: nat)
    requires j < |s|
    ensures Sum(f, s) == Sum(f, RemoveAt(s, j)) + f(s[j])
  {
    hide Sum;
    var a, x, b := s[..j], [s[j]], s[j + 1..];
    assert s == (a + x) + b;
    SumAppended(f, a + x, b);
    SumAppended(f, a, x);
    SumAppended(f, a, b);
    SumOfOne(f, s[j]);
  }

  lemma RemovedFromMultiset<T>(s: seq<T>, j: nat)
    requires j < |s|
    ensures multiset(RemoveAt(s, j)) == multiset(s) - multiset{s[j]}
  {
    assert s == s[..j] + [s[j]] + s[j + 1..];
  }

  lemma InRemoved<T>(s: seq<T>, j: nat, y: T)
    requires j < |s|
    ensures y in RemoveAt(s, j) || y == s[j] || y !in s
  {
    assert s == s[..j] + [s[j]] + s[j + 1..];
  }

  /** Sequences of the same elements have the same sum. */
  lemma {:induction false} SumOfPermutation<T>(f: T -> real, a: seq<T>, b: seq<T>)
    requires multiset(a) == multiset(b)
    ensures Sum(f, a) == Sum(f, b)
    decreases |a|
  {
    if a == [] {
      assert |multiset(b)| == 0;
    } else {
      var x := a[|a| - 1];
      assert x in multiset(b);
      var j :| 0 <= j < |b| && b[j] == x;
      RemovedFromSum(f, b, j);
      RemovedFromMultiset(a, |a| - 1);
      RemovedFromMultiset(b, j);
      assert RemoveAt(a, |a| - 1) == a[..|a| - 1];
      SumOfPermutation(f, a[..|a| - 1], RemoveAt(b, j));
    }
  }

  /** A sum over distinct elements grows when the terms outside `b` are zero and those in `b` are not negative. */
  lemma {:induction false} SumWithin<T>(f: T -> real, a: seq<T>, b: seq<T>)
    requires Distinct(a) && (forall x :: x in b ==> f(x) >= 0.0) && (forall x :: x in a && x !in b ==> f(x) == 0.0)
    ensures Sum(f, a) <= Sum(f, b)
    decreases |a|
  {
    if a == [] {
      SumIsNotNegative(f, b);
    } else {
      var front, x := a[..|a| - 1], a[|a| - 1];
      if x in b {
        var j :| 0 <= j < |b| && b[j] == x;
        var rest := RemoveAt(b, j);
        forall y | y in front && y !in rest ensures f(y) == 0.0 {
          var i :| 0 <= i < |front| && front[i] == y;
          assert a[i] == y && y in a && y != x;
          InRemoved(b, j, y);
        }
        assert forall y :: y in rest ==> y in b;
        SumWithin(f, front, rest);
        RemovedFromSum(f, b, j);
      } else {
        assert x in a;
        forall y | y in front && y !in b ensures f(y) == 0.0 { assert y in a; }
        SumWithin(f, front, b);
      }
    }
  }

  lemma {:induction false} SumIsNotNegative<T>(f: T -> real, s: seq<T>)
    requires forall x :: x in s ==> f(x) >= 0.0
    ensures Sum(f, s) >= 0.0
    ensures forall x :: x in s ==> f(x) <= Sum(f, s)
  {
    if s != [] {
      assert forall x :: x in s[..|s| - 1] ==> x in s;
      assert s[|s| - 1] in s;
      SumIsNotNegative(f, s[..|s| - 1]);
      forall x | x in s ensures f(x) <= Sum(f, s) {
        if x != s[|s| - 1] { assert x in s[..|s| - 1]; }
      }
    }
  }

  lemma {:induction false} SumIsZero<T>(f: T -> real, s: seq<T>)
    requires forall x :: x in s ==> f(x) == 0.0
    ensures Sum(f, s) == 0.0
  {
    if s != [] {
      assert forall x :: x in s[..|s| - 1] ==> x in s;
      assert s[|s| - 1] in s;
      SumIsZero(f, s[..|s| - 1]);
    }
  }

  lemma QuotientIsPositive(a: real, b: real)
    requires b > 0.0
    ensures a > 0.0 ==> a / b > 0.0
    ensures a >= 0.0 ==> a / b >= 0.0
  {
    var q := a / b;
    assert q * b == a;
    assert q <= 0.0 ==> q * b <= 0.0;
    assert q < 0.0 ==> q * b < 0.0;
  }
}
