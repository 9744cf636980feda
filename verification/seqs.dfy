/** Generic sequence notions: distinctness, order-preserving filters, subsequences. */
module Seqs {
  import opened Wrappers

  /** No element occurs twice. */
  predicate Distinct<T(==)>(s: seq<T>) {
    forall i, j :: 0 <= i < j < |s| ==> s[i] != s[j]
  }

  /** The elements of `s` that satisfy `p`, in their original order
      (a Python list comprehension `[x for x in s if p(x)]`). */
  function Filter<T(==)>(s: seq<T>, p: T -> bool): (r: seq<T>)
    ensures |r| <= |s|
    ensures forall i :: 0 <= i < |r| ==> r[i] in s && p(r[i])
    ensures forall i :: 0 <= i < |s| && p(s[i]) ==> s[i] in r
  {
    if s == [] then []
    else Filter(s[..|s| - 1], p) + (if p(s[|s| - 1]) then [s[|s| - 1]] else [])
  }

  /** Nothing passes a filter that rejects every element. */
  lemma FilterNone<T>(s: seq<T>, p: T -> bool)
    requires forall i :: 0 <= i < |s| ==> !p(s[i])
    ensures Filter(s, p) == []
  {
  }

  /** `a` can be obtained from `b` by deleting elements: `a` keeps `b`'s relative order. */
  predicate IsSubsequence<T(==)>(a: seq<T>, b: seq<T>)
    decreases |b|
  {
    if a == [] then true
    else if b == [] then false
    else if a[|a| - 1] == b[|b| - 1] then IsSubsequence(a[..|a| - 1], b[..|b| - 1])
    else IsSubsequence(a, b[..|b| - 1])
  }

  /** Filtering keeps the relative order of the input. */
  lemma {:induction false} FilterIsSubsequence<T>(s: seq<T>, p: T -> bool)
    ensures IsSubsequence(Filter(s, p), s)
  {
    if s != [] {
      var init, last := s[..|s| - 1], s[|s| - 1];
      FilterIsSubsequence(init, p);
      var f := Filter(init, p);
      if !p(last) {
        assert Filter(s, p) == f;
        if f != [] {
          assert p(f[|f| - 1]);
        }
      } else {
        assert Filter(s, p) == f + [last];
        assert (f + [last])[..|f|] == f;
      }
    }
  }

  /** Filtering by `p` and by its negation `q` splits `s` into two parts that together hold
      every element of `s` exactly as often as `s` does. */
  lemma {:induction false} FilterPartition<T>(s: seq<T>, p: T -> bool, q: T -> bool)
    requires forall x :: q(x) == !p(x)
    ensures multiset(Filter(s, p)) + multiset(Filter(s, q)) == multiset(s)
  {
    if s != [] {
      var init := s[..|s| - 1];
      FilterPartition(init, p, q);
      assert s == init + [s[|s| - 1]];
    }
  }

  /** Filtering a sequence without duplicates yields one without duplicates. */
  lemma {:induction false} FilterDistinct<T>(s: seq<T>, p: T -> bool)
    requires Distinct(s)
    ensures Distinct(Filter(s, p))
  {
    if s != [] {
      var init, last := s[..|s| - 1], s[|s| - 1];
      assert Distinct(init);
      FilterDistinct(init, p);
      assert last !in init;
    }
  }

  /** The concatenation of two duplicate-free sequences with no common element is duplicate-free. */
  lemma DistinctConcat<T>(a: seq<T>, b: seq<T>)
    requires Distinct(a) && Distinct(b)
    requires forall x :: x in a ==> x !in b
    ensures Distinct(a + b)
  {
    forall i, j | 0 <= i < j < |a + b|
      ensures (a + b)[i] != (a + b)[j]
    {
      if j < |a| {
      } else if i >= |a| {
        assert (a + b)[i] == b[i - |a|] && (a + b)[j] == b[j - |a|];
      } else {
        assert (a + b)[i] in a && (a + b)[j] in b;
      }
    }
  }

  /** Filtering keeps each element of `s` that passes exactly as often as `s` holds it. */
  lemma {:induction false} FilterMultiplicity<T>(s: seq<T>, p: T -> bool, x: T)
    ensures multiset(Filter(s, p))[x] == if p(x) then multiset(s)[x] else 0
  {
    if s != [] {
      var init := s[..|s| - 1];
      FilterMultiplicity(init, p, x);
      assert s == init + [s[|s| - 1]];
    }
  }

  /** Reordering the input does not change what a filter keeps, counted with multiplicity. */
  lemma FilterPermutation<T>(a: seq<T>, b: seq<T>, p: T -> bool)
    requires multiset(a) == multiset(b)
    ensures multiset(Filter(a, p)) == multiset(Filter(b, p))
    ensures |Filter(a, p)| == |Filter(b, p)|
  {
    forall x
      ensures multiset(Filter(a, p))[x] == multiset(Filter(b, p))[x]
    {
      FilterMultiplicity(a, p, x);
      FilterMultiplicity(b, p, x);
    }
    assert multiset(Filter(a, p)) == multiset(Filter(b, p));
    assert |multiset(Filter(a, p))| == |Filter(a, p)|;
    assert |multiset(Filter(b, p))| == |Filter(b, p)|;
  }

  /** A subsequence of `b` stays one when an element is put in front of `b`. */
  lemma {:induction false} SubsequenceSkip<T>(x: T, a: seq<T>, b: seq<T>)
    requires IsSubsequence(a, b)
    ensures IsSubsequence(a, [x] + b)
    decreases |b|
  {
    if a != [] {
      var xb := [x] + b;
      assert xb[..|xb| - 1] == [x] + b[..|b| - 1];
      if a[|a| - 1] == b[|b| - 1] {
        SubsequenceSkip(x, a[..|a| - 1], b[..|b| - 1]);
      } else {
        SubsequenceSkip(x, a, b[..|b| - 1]);
      }
    }
  }

  /** Putting the same element in front of both keeps a subsequence one. */
  lemma {:induction false} SubsequenceCons<T>(x: T, a: seq<T>, b: seq<T>)
    requires IsSubsequence(a, b)
    ensures IsSubsequence([x] + a, [x] + b)
    decreases |b|
  {
    var xa, xb := [x] + a, [x] + b;
    if a == [] {
      if b != [] {
        assert xb[..|xb| - 1] == [x] + b[..|b| - 1];
        SubsequenceCons(x, a, b[..|b| - 1]);
      } else {
        assert xa[..|xa| - 1] == [] && xb[..|xb| - 1] == [];
      }
    } else {
      assert xa[..|xa| - 1] == [x] + a[..|a| - 1];
      assert xb[..|xb| - 1] == [x] + b[..|b| - 1];
      if a[|a| - 1] == b[|b| - 1] {
        SubsequenceCons(x, a[..|a| - 1], b[..|b| - 1]);
      } else {
        SubsequenceCons(x, a, b[..|b| - 1]);
      }
    }
  }

  /** Every element of a subsequence occurs in the sequence. */
  lemma {:induction false} SubsequenceIn<T>(a: seq<T>, b: seq<T>)
    requires IsSubsequence(a, b)
    ensures forall i :: 0 <= i < |a| ==> a[i] in b
    decreases |b|
  {
    if a != [] && b != [] {
      if a[|a| - 1] == b[|b| - 1] {
        SubsequenceIn(a[..|a| - 1], b[..|b| - 1]);
        forall i | 0 <= i < |a| ensures a[i] in b {
          if i < |a| - 1 {
            assert a[i] == a[..|a| - 1][i];
            assert a[i] in b[..|b| - 1];
          }
        }
      } else {
        SubsequenceIn(a, b[..|b| - 1]);
        assert forall x :: x in b[..|b| - 1] ==> x in b;
      }
    }
  }

  /** The first element of `s` that satisfies `p`, if any (a `for` loop that returns on the first
      match). */
  function FirstWhere<T(==)>(s: seq<T>, p: T -> bool): (r: Option<T>)
    ensures r.None? <==> forall i :: 0 <= i < |s| ==> !p(s[i])
    ensures r.Some? ==> exists i :: 0 <= i < |s| && s[i] == r.value && p(s[i])
                                    && forall j :: 0 <= j < i ==> !p(s[j])
  {
    if s == [] then None
    else if p(s[0]) then Some(s[0])
    else
      var r := FirstWhere(s[1..], p);
      assert forall i :: 1 <= i < |s| ==> s[i] == s[1..][i - 1];
      if r.Some? then
        var i :| 0 <= i < |s[1..]| && s[1..][i] == r.value && p(s[1..][i]) && forall j :: 0 <= j < i ==> !p(s[1..][j]);
        assert s[i + 1] == r.value;
        r
      else r
  }

  /** `f` applied to every element of `s`, in order. */
  function Map<T, U>(s: seq<T>, f: T -> U): (r: seq<U>)
    ensures |r| == |s|
    ensures forall i :: 0 <= i < |s| ==> r[i] == f(s[i])
  {
    seq(|s|, i requires 0 <= i < |s| => f(s[i]))
  }

  /** Mapping a prefix is taking the prefix of the mapped sequence. */
  lemma MapTake<T, U>(s: seq<T>, f: T -> U, k: nat)
    requires k <= |s|
    ensures Map(s[..k], f) == Map(s, f)[..k]
  {
  }

  /** Mapping a suffix is dropping the prefix of the mapped sequence. */
  lemma MapDrop<T, U>(s: seq<T>, f: T -> U, k: nat)
    requires k <= |s|
    ensures Map(s[k..], f) == Map(s, f)[k..]
  {
  }
}
