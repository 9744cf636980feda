/** Building the photo pool and dealing a card with priority for the 'stedenendorpen'
    folder (bingo/bingo.py). */
module Dealing {
  import opened Wrappers
  import opened Seqs
  import opened Text
  import opened Sorting
  import opened Shuffling

  /** The number of cells on a card. */
  const CardSize: nat := 9

  /** The sub-folder whose photos are dealt first. */
  const PriorityFolder: string := "stedenendorpen"

  /** File-name endings the app accepts as photos. */
  const PhotoExtensions: seq<string> := [".png", ".jpg", ".jpeg", ".webp"]

  /** A file met by the directory walk: its folder relative to the app folder (empty for the
      app folder itself) and its name. */
  datatype FileEntry = FileEntry(dir: string, name: string)

  /** `os.path.relpath(os.path.join(root, f), IMAGE_DIR)` */
  function RelPath(e: FileEntry): string {
    if e.dir == "" then e.name else e.dir + "/" + e.name
  }

  /** A file the pool takes: it lies in a sub-folder and its lower-cased name has a photo extension. */
  predicate IsPoolPhoto(e: FileEntry) {
    e.dir != "" && EndsWithAny(Lower(e.name), PhotoExtensions)
  }

  /** `all_photos`: the relative paths of the photos in the sub-folders, sorted. */
  function PhotoPool(files: seq<FileEntry>): (r: seq<string>)
    ensures SortedBy(r, Identity)
    ensures multiset(r) == multiset(RelPaths(Filter(files, IsPoolPhoto)))
  {
    Sort(RelPaths(Filter(files, IsPoolPhoto)))
  }

  function RelPaths(es: seq<FileEntry>): (r: seq<string>)
    ensures |r| == |es|
    ensures forall i :: 0 <= i < |es| ==> r[i] == RelPath(es[i])
  {
    seq(|es|, i requires 0 <= i < |es| => RelPath(es[i]))
  }

  /** `p.split(os.sep)[0] == 'stedenendorpen'` */
  predicate IsPriority(p: string) {
    Split(p, '/')[0] == PriorityFolder
  }

  predicate IsOther(p: string) {
    !IsPriority(p)
  }

  function PriorityPhotos(all: seq<string>): seq<string> {
    Filter(all, IsPriority)
  }

  function OtherPhotos(all: seq<string>): seq<string> {
    Filter(all, IsOther)
  }

  /** Every photo is either a priority photo or another one, never both. */
  lemma PrioritySplit(all: seq<string>)
    ensures multiset(PriorityPhotos(all)) + multiset(OtherPhotos(all)) == multiset(all)
    ensures |PriorityPhotos(all)| + |OtherPhotos(all)| == |all|
    ensures Distinct(all) ==> Distinct(PriorityPhotos(all) + OtherPhotos(all))
  {
    FilterPartition(all, IsPriority, IsOther);
    var p, o := PriorityPhotos(all), OtherPhotos(all);
    assert |multiset(p)| + |multiset(o)| == |multiset(all)|;
    if Distinct(all) {
      FilterDistinct(all, IsPriority);
      FilterDistinct(all, IsOther);
      DistinctConcat(p, o);
    }
  }

  function Min(a: nat, b: nat): nat { if a <= b then a else b }

  /** `pick_nine()` and the selection step of the session deal: shuffle both lists, take the
      shuffled priority photos alone when there are at least nine of them and otherwise the
      priority photos followed by the others, and keep the first nine. */
  function PickNine(pri: seq<string>, oth: seq<string>, randPri: nat -> nat, randOth: nat -> nat)
    : (r: seq<string>)
    ensures |pri| >= CardSize ==> |r| == CardSize && forall i :: 0 <= i < |r| ==> r[i] in pri
    ensures |pri| < CardSize ==> |r| == Min(CardSize, |pri| + |oth|)
    ensures |pri| < CardSize ==> forall i :: 0 <= i < |pri| ==> pri[i] in r
    ensures multiset(r) <= multiset(pri) + multiset(oth)
    ensures Distinct(pri + oth) ==> Distinct(r)
  {
    var p, o := Shuffle(pri, randPri), Shuffle(oth, randOth);
    var pool := if |p| >= CardSize then p else p + o;
    SelectionFacts(pri, oth, p, o);
    pool[..Min(CardSize, |pool|)]
  }

  /** The selection is a prefix of the shuffled priority photos followed by the shuffled others. */
  lemma SelectionFacts(pri: seq<string>, oth: seq<string>, p: seq<string>, o: seq<string>)
    requires multiset(p) == multiset(pri) && multiset(o) == multiset(oth)
    ensures var pool := if |p| >= CardSize then p else p + o;
            var r := pool[..Min(CardSize, |pool|)];
            && r == (p + o)[..Min(CardSize, |p| + |o|)]
            && (|p| < CardSize ==> r == p + o[..|r| - |p|])
            && (|pri| >= CardSize ==> forall i :: 0 <= i < |r| ==> r[i] in pri)
            && (|pri| < CardSize ==> forall i :: 0 <= i < |pri| ==> pri[i] in r)
            && multiset(r) <= multiset(pri) + multiset(oth)
            && (Distinct(pri + oth) ==> Distinct(r))
  {
    var pool := if |p| >= CardSize then p else p + o;
    var r := pool[..Min(CardSize, |pool|)];
    var k := Min(CardSize, |p| + |o|);
    assert |p| == |pri| by { assert |multiset(p)| == |multiset(pri)|; }
    assert |o| == |oth| by { assert |multiset(o)| == |multiset(oth)|; }
    assert r == (p + o)[..k];
    PrefixFacts(p + o, k);
    assert multiset(p + o) == multiset(pri) + multiset(oth);
    if |pri| >= CardSize {
      PrefixFacts(p, k);
      forall i | 0 <= i < |r|
        ensures r[i] in pri
      {
        assert r[i] in multiset(r);
        assert r[i] in multiset(p);
      }
    } else {
      assert r == p + o[..|r| - |p|];
      forall i | 0 <= i < |pri|
        ensures pri[i] in r
      {
        assert pri[i] in multiset(p);
        assert pri[i] in p;
      }
    }
    if Distinct(pri + oth) {
      DistinctMultiset(pri + oth, p + o);
    }
  }

  /** A prefix holds some of the elements of the whole and inherits its freedom from duplicates. */
  lemma PrefixFacts(s: seq<string>, k: nat)
    requires k <= |s|
    ensures multiset(s[..k]) <= multiset(s)
    ensures Distinct(s) ==> Distinct(s[..k])
  {
    assert s == s[..k] + s[k..];
    assert multiset(s) == multiset(s[..k]) + multiset(s[k..]);
  }

  /** A rearrangement of a duplicate-free sequence is duplicate-free. */
  lemma DistinctMultiset(a: seq<string>, b: seq<string>)
    requires multiset(a) == multiset(b)
    requires Distinct(a)
    ensures Distinct(b)
  {
    forall i, j | 0 <= i < j < |b|
      ensures b[i] != b[j]
    {
      if b[i] == b[j] {
        var x := b[i];
        assert multiset(b)[x] >= 2 by {
          assert b == b[..j] + b[j..];
          assert x in b[..j];
          assert multiset(b[..j])[x] >= 1 && multiset(b[j..])[x] >= 1;
        }
        DistinctCount(a, x);
        assert false;
      }
    }
  }

  /** In a duplicate-free sequence every element occurs at most once. */
  lemma {:induction false} DistinctCount(a: seq<string>, x: string)
    requires Distinct(a)
    ensures multiset(a)[x] <= 1
  {
    if a != [] {
      var init := a[..|a| - 1];
      assert a == init + [a[|a| - 1]];
      assert Distinct(init);
      DistinctCount(init, x);
      if x == a[|a| - 1] {
        assert x !in init;
      }
    }
  }

  /** Why a session card could not be dealt. */
  datatype DealError =
    | TooFewPhotos      // fewer than nine photos in the pool
    | PoolTooSmall      // the priority-first pool has fewer than nine entries

  /** The session deal: the selection of `PickNine` on the day's shuffles (`randPri`,
      `randOth`, seeded with the date), then a per-user reshuffle (`randCard`). */
  function DealSessionCard(all: seq<string>, randPri: nat -> nat, randOth: nat -> nat,
                           randCard: nat -> nat): (r: Result<seq<string>, DealError>)
    ensures r.Ok? <==> |all| >= CardSize
    ensures r.Ok? ==> |r.value| == CardSize
    ensures r.Ok? ==> multiset(r.value) ==
              multiset(PickNine(PriorityPhotos(all), OtherPhotos(all), randPri, randOth))
    ensures r.Ok? ==> forall i :: 0 <= i < |r.value| ==> r.value[i] in all
    ensures r.Ok? && Distinct(all) ==> Distinct(r.value)
    ensures r.Ok? && |PriorityPhotos(all)| >= CardSize ==>
              forall i :: 0 <= i < |r.value| ==> IsPriority(r.value[i])
    ensures r.Ok? && |PriorityPhotos(all)| < CardSize ==>
              forall x :: x in PriorityPhotos(all) ==> x in r.value
  {
    if |all| < CardSize then Err(TooFewPhotos)
    else
      var pri, oth := PriorityPhotos(all), OtherPhotos(all);
      PrioritySplit(all);
      var selected := PickNine(pri, oth, randPri, randOth);
      if |selected| < CardSize then Err(PoolTooSmall)
      else
        var card := Shuffle(selected, randCard);
        SessionCardFacts(all, pri, oth, selected, card);
        Ok(card)
  }

  /** What the per-user reshuffle of a selection drawn from the pool keeps. */
  lemma SessionCardFacts(all: seq<string>, pri: seq<string>, oth: seq<string>,
                         selected: seq<string>, card: seq<string>)
    requires pri == PriorityPhotos(all)
    requires multiset(pri) + multiset(oth) == multiset(all)
    requires multiset(selected) <= multiset(pri) + multiset(oth)
    requires multiset(card) == multiset(selected)
    requires |pri| >= CardSize ==> forall i :: 0 <= i < |selected| ==> selected[i] in pri
    ensures forall i :: 0 <= i < |card| ==> card[i] in all
    ensures forall x :: x in selected ==> x in card
    ensures |pri| >= CardSize ==> forall i :: 0 <= i < |card| ==> IsPriority(card[i])
  {
    forall i | 0 <= i < |card|
      ensures card[i] in all && card[i] in selected
    {
      assert card[i] in multiset(card);
      assert card[i] in multiset(all);
    }
    forall x | x in selected
      ensures x in card
    {
      assert x in multiset(selected);
    }
    if |pri| >= CardSize {
      forall i | 0 <= i < |card|
        ensures IsPriority(card[i])
      {
        var k :| 0 <= k < |selected| && selected[k] == card[i];
        assert card[i] in pri;
      }
    }
  }

  /** The candidate set is fixed by the day's shuffles: users with different per-user
      reshuffles receive the same nine photos, possibly in a different arrangement. */
  lemma SameDaySameSelection(all: seq<string>, randPri: nat -> nat, randOth: nat -> nat,
                             card1: nat -> nat, card2: nat -> nat)
    requires |all| >= CardSize
    ensures multiset(DealSessionCard(all, randPri, randOth, card1).value)
         == multiset(DealSessionCard(all, randPri, randOth, card2).value)
  {
  }
}
