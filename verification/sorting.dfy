/** Python's `sorted` / `list.sort` on strings and on string keys, as an insertion sort. */
module Sorting {
  import opened Seqs

  /** Python's string comparison `a <= b`: lexicographic by code point. */
  predicate StrLe(a: string, b: string)
    decreases |a|
  {
    a == [] || (b != [] && (a[0] < b[0] || (a[0] == b[0] && StrLe(a[1..], b[1..]))))
  }

  lemma {:induction false} StrLeTotal(a: string, b: string)
    ensures StrLe(a, b) || StrLe(b, a)
    decreases |a|
  {
    if a != [] && b != [] && a[0] == b[0] {
      StrLeTotal(a[1..], b[1..]);
    }
  }

  lemma {:induction false} StrLeReflexive(a: string)
    ensures StrLe(a, a)
    decreases |a|
  {
    if a != [] {
      StrLeReflexive(a[1..]);
    }
  }

  lemma {:induction false} StrLeTransitive(a: string, b: string, c: string)
    requires StrLe(a, b) && StrLe(b, c)
    ensures StrLe(a, c)
    decreases |a|
  {
    if a != [] && b != [] && c != [] && a[0] == b[0] && b[0] == c[0] {
      StrLeTransitive(a[1..], b[1..], c[1..]);
    }
  }

  lemma {:induction false} StrLeAntisymmetric(a: string, b: string)
    requires StrLe(a, b) && StrLe(b, a)
    ensures a == b
    decreases |a|
  {
    if a != [] {
      StrLeAntisymmetric(a[1..], b[1..]);
      assert a == [a[0]] + a[1..] && b == [b[0]] + b[1..];
    }
  }

  /** The keys of `s` are in non-decreasing order. */
  predicate SortedBy<T>(s: seq<T>, key: T -> string) {
    forall i, j :: 0 <= i < j < |s| ==> StrLe(key(s[i]), key(s[j]))
  }

  /** Inserts `x` after every element whose key is at most `key(x)`. */
  function Insert<T(==)>(s: seq<T>, x: T, key: T -> string): (r: seq<T>)
    requires SortedBy(s, key)
    ensures SortedBy(r, key)
    ensures multiset(r) == multiset(s) + multiset{x}
    ensures forall i :: 0 <= i < |r| ==> r[i] == x || r[i] in s
  {
    if s == [] || StrLe(key(s[|s| - 1]), key(x)) then
      assert SortedBy(s + [x], key) by {
        forall i, j | 0 <= i < j < |s + [x]|
          ensures StrLe(key((s + [x])[i]), key((s + [x])[j]))
        {
          if j == |s| && i < |s| - 1 {
            StrLeTransitive(key(s[i]), key(s[|s| - 1]), key(x));
          }
        }
      }
      s + [x]
    else
      var init, last := s[..|s| - 1], s[|s| - 1];
      var r' := Insert(init, x, key);
      assert s == init + [last];
      StrLeTotal(key(last), key(x));
      assert SortedBy(r' + [last], key) by {
        forall i | 0 <= i < |r'|
          ensures StrLe(key(r'[i]), key(last))
        {
          if r'[i] != x {
            var k :| 0 <= k < |init| && init[k] == r'[i];
            assert s[k] == r'[i];
          }
        }
      }
      r' + [last]
  }

  /** `sorted(s, key=key)`: ordered by key; the order among elements with equal keys is not
      promised. */
  function SortBy<T(==)>(s: seq<T>, key: T -> string): (r: seq<T>)
    ensures SortedBy(r, key)
    ensures multiset(r) == multiset(s)
  {
    if s == [] then []
    else
      assert s == s[..|s| - 1] + [s[|s| - 1]];
      Insert(SortBy(s[..|s| - 1], key), s[|s| - 1], key)
  }

  /** `sorted(s)` on strings. */
  function Sort(s: seq<string>): (r: seq<string>)
    ensures SortedBy(r, Identity)
    ensures multiset(r) == multiset(s)
  {
    SortBy(s, Identity)
  }

  function Identity(s: string): string { s }

  /** A subsequence of a sorted list is sorted. */
  lemma {:induction false} SubsequenceSorted<T>(a: seq<T>, b: seq<T>, key: T -> string)
    requires IsSubsequence(a, b) && SortedBy(b, key)
    ensures SortedBy(a, key)
    decreases |b|
  {
    if a != [] && b != [] {
      var b' := b[..|b| - 1];
      assert SortedBy(b', key);
      if a[|a| - 1] == b[|b| - 1] {
        SubsequenceSorted(a[..|a| - 1], b', key);
        SubsequenceIn(a[..|a| - 1], b');
        forall i | 0 <= i < |a| - 1
          ensures StrLe(key(a[i]), key(a[|a| - 1]))
        {
          assert a[i] == a[..|a| - 1][i];
          var j :| 0 <= j < |b'| && b'[j] == a[i];
          assert b[j] == a[i];
        }
      } else {
        SubsequenceSorted(a, b', key);
      }
    }
  }

  /** The first element of the sorted list that satisfies `p` is the least such element of the
      list, and there is none exactly when no element satisfies `p`. */
  lemma FirstOfSorted(s: seq<string>, p: string -> bool)
    ensures var r := FirstWhere(Sort(s), p);
            && (r.None? <==> forall i :: 0 <= i < |s| ==> !p(s[i]))
            && (r.Some? ==> r.value in s && p(r.value))
            && (r.Some? ==> forall i :: 0 <= i < |s| && p(s[i]) ==> StrLe(r.value, s[i]))
  {
    var sorted := Sort(s);
    var r := FirstWhere(sorted, p);
    if r.Some? {
      var i :| 0 <= i < |sorted| && sorted[i] == r.value && p(sorted[i])
                 && forall j :: 0 <= j < i ==> !p(sorted[j]);
      assert r.value in multiset(s) by {
        assert sorted[i] in multiset(sorted);
      }
      forall m | 0 <= m < |s| && p(s[m])
        ensures StrLe(r.value, s[m])
      {
        assert s[m] in multiset(sorted);
        var n :| 0 <= n < |sorted| && sorted[n] == s[m];
        if n == i { StrLeReflexive(r.value); }
      }
    } else {
      forall m | 0 <= m < |s|
        ensures !p(s[m])
      {
        assert s[m] in multiset(sorted);
      }
    }
  }
}
