/**
 * Sorting by a comparison and summing over a sequence: the reference
 * definitions the grouping page is specified with. `Array.prototype.sort`
 * is a library call, so it is modelled by a function (insertion sort);
 * under a strict total order on distinct values every correct sort gives
 * the same sequence, the one `Sort` gives.
 */
module Sorting {
  import opened Base

  /** `less` is irreflexive, transitive and relates every two distinct values. */
  ghost predicate IsStrictTotalOrder<T(!new)>(less: (T, T) -> bool) {
    (forall a :: !less(a, a))
    && (forall a, b, c :: less(a, b) && less(b, c) ==> less(a, c))
    && (forall a, b :: a != b ==> less(a, b) || less(b, a))
  }

  /** Every earlier element is `less` than every later one. */
  predicate StrictlySorted<T>(s: seq<T>, less: (T, T) -> bool) {
    forall i, j :: 0 <= i < j < |s| ==> less(s[i], s[j])
  }

  /** `x` placed in front of the first element it is not after. */
  function Insert<T>(x: T, s: seq<T>, less: (T, T) -> bool): (r: seq<T>)
    ensures multiset(r) == multiset(s) + multiset{x}
  {
    if s == [] then [x]
    else if less(s[0], x) then
      assert s == [s[0]] + s[1..];
      [s[0]] + Insert(x, s[1..], less)
    else [x] + s
  }

  /** `s` sorted by `less`. */
  function Sort<T>(s: seq<T>, less: (T, T) -> bool): (r: seq<T>)
    ensures multiset(r) == multiset(s)
  {
    if s == [] then []
    else
      assert s == [s[0]] + s[1..];
      Insert(s[0], Sort(s[1..], less), less)
  }

  lemma {:induction false} InsertSorted<T(!new)>(x: T, s: seq<T>, less: (T, T) -> bool)
    requires IsStrictTotalOrder(less) && StrictlySorted(s, less) && x !in s
    ensures StrictlySorted(Insert(x, s, less), less)
  {
    if s == [] {
    } else if less(s[0], x) {
      var rest := Insert(x, s[1..], less);
      InsertSorted(x, s[1..], less);
      forall y | y in rest
        ensures less(s[0], y)
      {
        assert y in multiset(rest);
        if y != x {
          assert y in multiset(s[1..]);
          var k :| 0 <= k < |s[1..]| && s[1..][k] == y;
          assert s[k + 1] == y;
        }
      }
      ConsSorted(s[0], rest, less);
    } else {
      assert less(x, s[0]);
      forall y | y in s
        ensures less(x, y)
      {
        var k :| 0 <= k < |s| && s[k] == y;
        if k > 0 {
          assert less(s[0], s[k]);
        }
      }
      ConsSorted(x, s, less);
    }
  }

  /** A value below every element of a sorted sequence can go in front of it. */
  lemma ConsSorted<T>(a: T, rest: seq<T>, less: (T, T) -> bool)
    requires StrictlySorted(rest, less)
    requires forall y :: y in rest ==> less(a, y)
    ensures StrictlySorted([a] + rest, less)
  {
    var r := [a] + rest;
    forall i, j | 0 <= i < j < |r|
      ensures less(r[i], r[j])
    {
      assert r[j] == rest[j - 1] && r[j] in rest;
      if i > 0 {
        assert r[i] == rest[i - 1];
      }
    }
  }

  /** Sorting distinct values by a strict total order leaves them strictly increasing. */
  lemma {:induction false} SortSorted<T(!new)>(s: seq<T>, less: (T, T) -> bool)
    requires IsStrictTotalOrder(less) && Distinct(s)
    ensures StrictlySorted(Sort(s, less), less)
  {
    if s != [] {
      DistinctTail(s);
      SortSorted(s[1..], less);
      SortMembers(s[1..], less, s[0]);
      InsertSorted(s[0], Sort(s[1..], less), less);
    }
  }

  /** Sorting neither adds nor drops values. */
  lemma SortMembers<T>(s: seq<T>, less: (T, T) -> bool, x: T)
    ensures x in Sort(s, less) <==> x in s
  {
    assert x in Sort(s, less) <==> x in multiset(Sort(s, less));
    assert x in s <==> x in multiset(s);
  }

  /** Sorting distinct values gives distinct values. */
  lemma SortDistinct<T>(s: seq<T>, less: (T, T) -> bool)
    requires Distinct(s)
    ensures Distinct(Sort(s, less))
  {
    var r := Sort(s, less);
    forall a, b | 0 <= a < b < |r|
      ensures r[a] != r[b]
    {
      if r[a] == r[b] {
        OccursTwice(r, a, b);
        DistinctOccursOnce(s, r[a]);
        assert false;
      }
    }
  }

  /** Two places holding the same value count it twice. */
  lemma OccursTwice<T>(r: seq<T>, a: nat, b: nat)
    requires a < b < |r| && r[a] == r[b]
    ensures multiset(r)[r[a]] >= 2
  {
    assert r == r[..b] + r[b..];
    assert r[..b][a] == r[a];
    assert r[b..][0] == r[a];
  }

  lemma {:induction false} DistinctOccursOnce<T>(s: seq<T>, x: T)
    requires Distinct(s)
    ensures multiset(s)[x] <= 1
  {
    if s != [] {
      assert s == [s[0]] + s[1..];
      DistinctTail(s);
      DistinctOccursOnce(s[1..], x);
    }
  }

  lemma DistinctTail<T>(s: seq<T>)
    requires Distinct(s) && s != []
    ensures Distinct(s[1..]) && s[0] !in s[1..]
  {
    forall a, b | 0 <= a < b < |s[1..]|
      ensures s[1..][a] != s[1..][b]
    {
      assert s[1..][a] == s[a + 1] && s[1..][b] == s[b + 1];
    }
  }

  lemma DistinctFront<T>(s: seq<T>)
    requires Distinct(s) && s != []
    ensures Distinct(s[..|s| - 1]) && s[|s| - 1] !in s[..|s| - 1]
  {
    var front := s[..|s| - 1];
    forall a, b | 0 <= a < b < |front|
      ensures front[a] != front[b]
    {
      assert front[a] == s[a] && front[b] == s[b];
    }
  }

  /** The sum of `f` over the elements of `s`. */
  function SumOf<T>(s: seq<T>, f: T -> nat): nat {
    if s == [] then 0 else f(s[0]) + SumOf(s[1..], f)
  }

  lemma {:induction false} SumOfConcat<T>(a: seq<T>, b: seq<T>, f: T -> nat)
    ensures SumOf(a + b, f) == SumOf(a, f) + SumOf(b, f)
  {
    if a != [] {
      assert (a + b)[0] == a[0] && (a + b)[1..] == a[1..] + b;
      SumOfConcat(a[1..], b, f);
    } else {
      assert a + b == b;
    }
  }

  lemma SumOfSingleton<T>(x: T, f: T -> nat)
    ensures SumOf([x], f) == f(x)
  {
    assert [x][1..] == [];
  }

  lemma SumOfAppend<T>(s: seq<T>, x: T, f: T -> nat)
    ensures SumOf(s + [x], f) == SumOf(s, f) + f(x)
  {
    SumOfConcat(s, [x], f);
  }

  /** Reordering the values does not change their sum. */
  lemma {:induction false} SumOfPermutation<T>(s: seq<T>, t: seq<T>, f: T -> nat)
    requires multiset(s) == multiset(t)
    ensures SumOf(s, f) == SumOf(t, f)
  {
    if s == [] {
      assert |t| == |multiset(t)| == 0;
    } else {
      assert s[0] in multiset(t);
      var k :| 0 <= k < |t| && t[k] == s[0];
      RemoveAt(t, k, f);
      assert s == [s[0]] + s[1..];
      assert multiset(s[1..]) == multiset(s) - multiset{s[0]};
      SumOfPermutation(s[1..], t[..k] + t[k + 1..], f);
    }
  }

  /** Taking out the element at `k`. */
  lemma RemoveAt<T>(t: seq<T>, k: nat, f: T -> nat)
    requires k < |t|
    ensures multiset(t[..k] + t[k + 1..]) == multiset(t) - multiset{t[k]}
    ensures SumOf(t, f) == SumOf(t[..k] + t[k + 1..], f) + f(t[k])
  {
    SplitAt(t, k);
    var a, b := t[..k], t[k + 1..];
    SumOfConcat(a, [t[k]] + b, f);
    assert ([t[k]] + b)[0] == t[k] && ([t[k]] + b)[1..] == b;
    SumOfConcat(a, b, f);
  }

  lemma SplitAt<T>(t: seq<T>, k: nat)
    requires k < |t|
    ensures t == t[..k] + ([t[k]] + t[k + 1..])
    ensures multiset(t[..k] + t[k + 1..]) == multiset(t) - multiset{t[k]}
  {
    assert t[k..] == [t[k]] + t[k + 1..];
    assert t == t[..k] + t[k..];
    assert multiset(t) == multiset(t[..k]) + (multiset{t[k]} + multiset(t[k + 1..]));
  }

  /** Functions that agree on every element have the same sum. */
  lemma {:induction false} SumOfCongruent<T>(s: seq<T>, f: T -> nat, g: T -> nat)
    requires forall x :: x in s ==> f(x) == g(x)
    ensures SumOf(s, f) == SumOf(s, g)
  {
    if s != [] {
      SumOfCongruent(s[1..], f, g);
    }
  }

  /** Raising one value of distinct elements by one raises the sum by one. */
  lemma {:induction false} SumOfBump<T>(s: seq<T>, f: T -> nat, g: T -> nat, x: T)
    requires Distinct(s) && x in s
    requires g(x) == f(x) + 1
    requires forall y :: y in s && y != x ==> g(y) == f(y)
    ensures SumOf(s, g) == SumOf(s, f) + 1
  {
    DistinctTail(s);
    if s[0] == x {
      SumOfCongruent(s[1..], f, g);
    } else {
      SumOfBump(s[1..], f, g, x);
    }
  }
}
