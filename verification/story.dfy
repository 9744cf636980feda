/** Importing a story's ordered photo links and grouping them into simulation steps
    (bingo/bingo.py, the `verhaal.html` import). */
module Story {
  import opened Wrappers
  import opened Seqs
  import opened Text
  import Dealing

  /** The links of the story split by membership in the photo pool. */
  datatype Import = Import(valid: seq<string>, invalid: seq<string>)

  /** `valid_sequence` and `invalid`: the links that name a pool photo and those that do not,
      each in story order. */
  function SplitImport(hrefs: seq<string>, pool: set<string>): (r: Import)
    ensures IsSubsequence(r.valid, hrefs) && IsSubsequence(r.invalid, hrefs)
    ensures forall i :: 0 <= i < |r.valid| ==> r.valid[i] in pool
    ensures forall i :: 0 <= i < |r.invalid| ==> r.invalid[i] !in pool
    ensures multiset(r.valid) + multiset(r.invalid) == multiset(hrefs)
  {
    var inPool := h => h in pool;
    var notInPool := h => h !in pool;
    FilterIsSubsequence(hrefs, inPool);
    FilterIsSubsequence(hrefs, notInPool);
    FilterPartition(hrefs, inPool, notInPool);
    Import(Filter(hrefs, inPool), Filter(hrefs, notInPool))
  }

  /** The step a link belongs to: the place folder `stedenendorpen/<place>` for photos under
      the priority folder, otherwise the link's directory, or the link itself when it has none. */
  function StepLabel(h: string): string
  {
    var parts := Split(h, '/');
    if |parts| >= 2 && parts[0] == Dealing.PriorityFolder then parts[0] + "/" + parts[1]
    else
      var d := Dirname(h);
      if d != "" then d else h
  }

  /** A photo under a place folder of the priority folder is grouped under that place,
      whatever lies below it. */
  lemma StepLabelOfPlacePhoto(place: string, rest: string)
    requires '/' !in place
    ensures StepLabel(Dealing.PriorityFolder + "/" + place + "/" + rest)
         == Dealing.PriorityFolder + "/" + place
    ensures StepLabel(Dealing.PriorityFolder + "/" + place) == Dealing.PriorityFolder + "/" + place
  {
    var F := Dealing.PriorityFolder;
    assert '/' !in F;
    SplitPiece(place, '/', rest);
    SplitPiece(F, '/', place + "/" + rest);
    assert F + "/" + place + "/" + rest == F + ['/'] + (place + ['/'] + rest);
    SplitNoSeparator(place, '/');
    SplitPiece(F, '/', place);
    assert F + "/" + place == F + ['/'] + place;
  }

  /** A link without a directory is a step of its own. */
  lemma StepLabelOfLoosePhoto(h: string)
    requires '/' !in h
    ensures StepLabel(h) == h
  {
    SplitNoSeparator(h, '/');
  }

  /** One simulation step: a label and the links revealed together under it. */
  datatype Step = Step(name: string, items: seq<string>)

  function Labels(steps: seq<Step>): (r: seq<string>)
    ensures |r| == |steps|
    ensures forall k :: 0 <= k < |steps| ==> r[k] == steps[k].name
  {
    seq(|steps|, k requires 0 <= k < |steps| => steps[k].name)
  }

  /** The position of the first `key` in `names`, or `|names|` when there is none. */
  function IndexOf(names: seq<string>, key: string): (i: nat)
    ensures i <= |names|
    ensures i < |names| ==> names[i] == key
    ensures forall j :: 0 <= j < i ==> names[j] != key
  {
    if names == [] then 0
    else if names[0] == key then 0
    else 1 + IndexOf(names[1..], key)
  }

  /** `folder_map.setdefault(key, []).append(h)` on an insertion-ordered map held as a
      sequence of steps with distinct labels. */
  function AddToStep(steps: seq<Step>, key: string, h: string): (r: seq<Step>)
    requires Distinct(Labels(steps))
    ensures Labels(r) == if key in Labels(steps) then Labels(steps) else Labels(steps) + [key]
    ensures Distinct(Labels(r))
    ensures forall k :: 0 <= k < |r| ==>
              r[k].items == (if k < |steps| then steps[k].items else [])
                            + (if r[k].name == key then [h] else [])
  {
    var names := Labels(steps);
    var i := IndexOf(names, key);
    if i < |steps| then
      var r := steps[i := Step(key, steps[i].items + [h])];
      assert Labels(r) == names;
      r
    else
      var r := steps + [Step(key, [h])];
      assert Labels(r) == names + [key];
      assert key !in names;
      r
  }

  /** `list(folder_map.items())` after grouping every valid link, in story order. */
  function GroupSteps(valid: seq<string>): (r: seq<Step>)
    ensures Distinct(Labels(r))
  {
    if valid == [] then []
    else
      var h := valid[|valid| - 1];
      AddToStep(GroupSteps(valid[..|valid| - 1]), StepLabel(h), h)
  }

  /** The labels of the links, in story order. */
  function LinkLabels(valid: seq<string>): (r: seq<string>)
    ensures |r| == |valid|
    ensures forall i :: 0 <= i < |valid| ==> r[i] == StepLabel(valid[i])
  {
    seq(|valid|, i requires 0 <= i < |valid| => StepLabel(valid[i]))
  }

  /** The distinct elements of `s`, each at the position of its first occurrence. */
  function FirstOccurrences(s: seq<string>): (r: seq<string>)
    ensures Distinct(r)
    ensures forall x :: x in r <==> x in s
  {
    if s == [] then []
    else
      var d := FirstOccurrences(s[..|s| - 1]);
      var x := s[|s| - 1];
      assert forall y :: y in s <==> y in s[..|s| - 1] || y == x by {
        assert s == s[..|s| - 1] + [x];
      }
      if x in d then d else d + [x]
  }

  /** Selects the links whose step label is `key`. */
  function HasLabel(key: string): string -> bool {
    h => StepLabel(h) == key
  }

  /** The step labels are the distinct link labels in order of first occurrence. */
  lemma {:induction false} GroupStepsLabels(valid: seq<string>)
    ensures Labels(GroupSteps(valid)) == FirstOccurrences(LinkLabels(valid))
  {
    if valid != [] {
      var init := valid[..|valid| - 1];
      GroupStepsLabels(init);
      assert LinkLabels(valid)[..|valid| - 1] == LinkLabels(init);
    }
  }

  /** Each step holds exactly the links with its label, in story order. */
  lemma {:induction false} GroupStepsItems(valid: seq<string>)
    ensures forall k :: 0 <= k < |GroupSteps(valid)| ==>
              GroupSteps(valid)[k].items == Filter(valid, HasLabel(GroupSteps(valid)[k].name))
  {
    if valid != [] {
      var init, h := valid[..|valid| - 1], valid[|valid| - 1];
      GroupStepsItems(init);
      var before := GroupSteps(init);
      var after := GroupSteps(valid);
      forall k | 0 <= k < |after|
        ensures after[k].items == Filter(valid, HasLabel(after[k].name))
      {
        var M := after[k].name;
        if k >= |before| {
          GroupStepsLabels(init);
          assert M !in Labels(before);
          NoLinkWithNewLabel(init, M);
        }
      }
    }
  }

  /** A label that no link carries selects no link. */
  lemma NoLinkWithNewLabel(init: seq<string>, L: string)
    requires L !in FirstOccurrences(LinkLabels(init))
    ensures Filter(init, HasLabel(L)) == []
  {
    forall j | 0 <= j < |init|
      ensures !HasLabel(L)(init[j])
    {
      assert LinkLabels(init)[j] in LinkLabels(init);
    }
    FilterNone(init, HasLabel(L));
  }

  /** Every valid link lands in exactly one step: the one labelled with its step label. */
  lemma EachLinkInOneStep(valid: seq<string>, i: nat)
    requires i < |valid|
    ensures exists k :: 0 <= k < |GroupSteps(valid)| && GroupSteps(valid)[k].name == StepLabel(valid[i])
    ensures forall k :: 0 <= k < |GroupSteps(valid)| ==>
              (valid[i] in GroupSteps(valid)[k].items <==> GroupSteps(valid)[k].name == StepLabel(valid[i]))
  {
    GroupStepsLabels(valid);
    GroupStepsItems(valid);
    var steps := GroupSteps(valid);
    assert LinkLabels(valid)[i] == StepLabel(valid[i]);
    assert StepLabel(valid[i]) in Labels(steps);
    forall k | 0 <= k < |steps|
      ensures valid[i] in steps[k].items <==> steps[k].name == StepLabel(valid[i])
    {
      var f := Filter(valid, HasLabel(steps[k].name));
      assert steps[k].items == f;
      if steps[k].name == StepLabel(valid[i]) {
        assert HasLabel(steps[k].name)(valid[i]);
      }
      if valid[i] in f {
        var j :| 0 <= j < |f| && f[j] == valid[i];
        assert HasLabel(steps[k].name)(f[j]);
      }
    }
  }
}
