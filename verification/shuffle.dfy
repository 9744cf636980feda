/** Python's `random.shuffle` and `random.sample`, with the random number generator made an
    explicit argument: `rand(i)` is the raw draw used at position `i`, reduced to the range
    `0..i` the way `randbelow(i + 1)` is. Any draw function is allowed, so every statement
    proved here holds for every outcome of the generator. */
module Shuffling {
  import opened Seqs

  /** Exchanges the elements at positions `i` and `j`. */
  function Swap<T>(s: seq<T>, i: nat, j: nat): (r: seq<T>)
    requires i < |s| && j < |s|
    ensures |r| == |s|
    ensures multiset(r) == multiset(s)
  {
    s[i := s[j]][j := s[i]]
  }

  /** Swapping keeps a sequence free of duplicates. */
  lemma SwapDistinct<T>(s: seq<T>, i: nat, j: nat)
    requires i < |s| && j < |s|
    ensures Distinct(s) ==> Distinct(Swap(s, i, j))
  {
    var r := Swap(s, i, j);
    forall a, b | 0 <= a < b < |r| && Distinct(s)
      ensures r[a] != r[b]
    {
      var a' := if a == i then j else if a == j then i else a;
      var b' := if b == i then j else if b == j then i else b;
      assert r[a] == s[a'] && r[b] == s[b'];
      assert a' != b';
    }
  }

  /** The Fisher-Yates passes for positions `i`, `i - 1`, ..., `1`. */
  function ShuffleDown<T>(s: seq<T>, i: nat, rand: nat -> nat): (r: seq<T>)
    requires i < |s|
    ensures |r| == |s|
    ensures multiset(r) == multiset(s)
    ensures Distinct(s) ==> Distinct(r)
    decreases i
  {
    if i == 0 then s
    else
      var j := rand(i) % (i + 1);
      SwapDistinct(s, i, j);
      ShuffleDown(Swap(s, i, j), i - 1, rand)
  }

  /** `random.shuffle(s)`: a rearrangement of `s`. */
  function Shuffle<T>(s: seq<T>, rand: nat -> nat): (r: seq<T>)
    ensures |r| == |s|
    ensures multiset(r) == multiset(s)
    ensures Distinct(s) ==> Distinct(r)
  {
    if |s| <= 1 then s else ShuffleDown(s, |s| - 1, rand)
  }

  /** `random.sample(s, k)`: `k` entries of `s` taken from distinct positions, in random order
      (the first `k` of a shuffle). The source only samples from sequences long enough. */
  function Sample<T>(s: seq<T>, k: nat, rand: nat -> nat): (r: seq<T>)
    requires k <= |s|
    ensures |r| == k
    ensures multiset(r) <= multiset(s)
    ensures Distinct(s) ==> Distinct(r)
  {
    var t := Shuffle(s, rand);
    assert t == t[..k] + t[k..];
    assert multiset(t) == multiset(t[..k]) + multiset(t[k..]);
    t[..k]
  }

  /** Every entry of a sample comes from the sampled sequence. */
  lemma SampleFrom<T>(s: seq<T>, k: nat, rand: nat -> nat)
    requires k <= |s|
    ensures forall i :: 0 <= i < k ==> Sample(s, k, rand)[i] in s
  {
    var r := Sample(s, k, rand);
    forall i | 0 <= i < k
      ensures r[i] in s
    {
      assert r[i] in multiset(r);
      assert r[i] in multiset(s);
    }
  }
}
