/** The day pool and the simulated players' cards (bingo/bingo.py, the simulation set-up). */
module DayPool {
  import opened Seqs
  import opened Shuffling
  import Dealing

  function Min(a: nat, b: nat): nat { if a <= b then a else b }

  /** The day pool: the shuffled priority photos, topped up from the shuffled other photos
      when they are fewer than `size`, then cut to `size`. */
  function MakeDayPool(pri: seq<string>, oth: seq<string>, size: nat,
                       randPri: nat -> nat, randOth: nat -> nat): (r: seq<string>)
    ensures |r| == Min(size, |pri| + |oth|)
    ensures r == (Shuffle(pri, randPri) + Shuffle(oth, randOth))[..|r|]
    ensures forall i :: 0 <= i < |r| && i < |pri| ==> r[i] in pri
    ensures forall i :: |pri| <= i < |r| ==> r[i] in oth
    ensures Distinct(pri + oth) ==> Distinct(r)
  {
    var p, o := Shuffle(pri, randPri), Shuffle(oth, randOth);
    var topped := if |p| < size then p + o[..Min(size - |p|, |o|)] else p;
    var r := topped[..Min(size, |topped|)];
    DayPoolFacts(pri, oth, p, o, r);
    r
  }

  /** A prefix of the shuffled priority photos followed by the shuffled others draws its first
      `|pri|` entries from the priority photos and the rest from the others. */
  lemma DayPoolFacts(pri: seq<string>, oth: seq<string>, p: seq<string>, o: seq<string>,
                     r: seq<string>)
    requires multiset(p) == multiset(pri) && multiset(o) == multiset(oth)
    requires |r| <= |p| + |o| && r == (p + o)[..|r|]
    ensures forall i :: 0 <= i < |r| && i < |pri| ==> r[i] in pri
    ensures forall i :: |pri| <= i < |r| ==> r[i] in oth
    ensures Distinct(pri + oth) ==> Distinct(r)
  {
    assert |p| == |pri| by { assert |multiset(p)| == |multiset(pri)|; }
    forall i | 0 <= i < |r| && i < |pri|
      ensures r[i] in pri
    {
      assert r[i] == p[i];
      assert p[i] in multiset(p);
    }
    forall i | |pri| <= i < |r|
      ensures r[i] in oth
    {
      assert r[i] == o[i - |p|];
      assert o[i - |p|] in multiset(o);
    }
    if Distinct(pri + oth) {
      assert multiset(p + o) == multiset(pri + oth);
      Dealing.DistinctMultiset(pri + oth, p + o);
      Dealing.PrefixFacts(p + o, |r|);
    }
  }

  /** `make_card_from_daypool()`: nine photos sampled from the day pool, or a copy of the whole
      pool when it holds fewer than nine. */
  function MakeCard(dayPool: seq<string>, rand: nat -> nat): (r: seq<string>)
    ensures |dayPool| < Dealing.CardSize ==> r == dayPool
    ensures |dayPool| >= Dealing.CardSize ==> |r| == Dealing.CardSize
    ensures multiset(r) <= multiset(dayPool)
    ensures Distinct(dayPool) ==> Distinct(r)
  {
    if |dayPool| < Dealing.CardSize then dayPool else Sample(dayPool, Dealing.CardSize, rand)
  }

  /** One card per simulated player; player `k` samples with the draws `rands(k)`. */
  function MakeCards(dayPool: seq<string>, players: nat, rands: nat -> (nat -> nat))
    : (r: seq<seq<string>>)
    ensures |r| == players
    ensures forall k :: 0 <= k < players ==> r[k] == MakeCard(dayPool, rands(k))
  {
    seq(players, k requires 0 <= k < players => MakeCard(dayPool, rands(k)))
  }

  /** Every simulated card is made of day-pool photos. */
  lemma CardsFromDayPool(dayPool: seq<string>, players: nat, rands: nat -> (nat -> nat))
    ensures forall k, i :: 0 <= k < players && 0 <= i < |MakeCards(dayPool, players, rands)[k]| ==>
              MakeCards(dayPool, players, rands)[k][i] in dayPool
  {
    var cards := MakeCards(dayPool, players, rands);
    forall k, i | 0 <= k < players && 0 <= i < |cards[k]|
      ensures cards[k][i] in dayPool
    {
      assert cards[k][i] in multiset(cards[k]);
    }
  }
}
