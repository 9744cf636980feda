/** What the simulation loop keeps true from step to step, and the promises that follow from it:
    marks only grow, each card logs each milestone at most once and in order, the per-step
    counts nest, and the first bingo is the first step with a line. */
module SimulationFacts {
  import opened Wrappers
  import opened Lines
  import opened Story
  import opened Simulation

  /** Photo `x` is revealed by one of the first `n` steps. */
  predicate RevealedBy(steps: seq<Step>, n: nat, x: string) {
    exists j :: 0 <= j < n && j < |steps| && x in steps[j].items
  }

  /** Every card has marked exactly the revealed photos it holds. */
  ghost predicate MarksMatch(cards: seq<seq<string>>, steps: seq<Step>, n: nat, sel: seq<set<string>>) {
    && |sel| == |cards|
    && forall k, x :: 0 <= k < |cards| ==>
         (x in sel[k] <==> x in cards[k] && RevealedBy(steps, n, x))
  }

  /** A card's flag is set exactly when its milestone has been logged. */
  ghost predicate FlagsMatch(reached: seq<Reached>, events: seq<Event>) {
    forall k, m :: 0 <= k < |reached| ==> (Flag(reached[k], m) <==> HasEvent(events, k + 1, m))
  }

  predicate AllClosed(reached: seq<Reached>) {
    forall k :: 0 <= k < |reached| ==> Closed(reached[k])
  }

  predicate EventsInRange(events: seq<Event>, n: nat, cardCount: nat) {
    forall i :: 0 <= i < |events| ==>
      1 <= events[i].step <= n && 1 <= events[i].card <= cardCount
  }

  /** Events are logged step by step, card by card within a step, and by milestone within a
      card. */
  predicate Chronological(events: seq<Event>) {
    forall i, j :: 0 <= i < j < |events| ==>
      || events[i].step < events[j].step
      || (events[i].step == events[j].step && events[i].card < events[j].card)
      || (events[i].step == events[j].step && events[i].card == events[j].card
          && Rank(events[i].kind) < Rank(events[j].kind))
  }

  /** For one card, later events are for strictly higher milestones. */
  predicate PerCardOrdered(events: seq<Event>) {
    forall i, j :: 0 <= i < j < |events| && events[i].card == events[j].card ==>
      Rank(events[i].kind) < Rank(events[j].kind)
  }

  /** Every photo of `card` is revealed by one of the first `n` steps. */
  ghost predicate CardRevealed(steps: seq<Step>, n: nat, card: seq<string>) {
    forall j :: 0 <= j < |card| ==> RevealedBy(steps, n, card[j])
  }

  /** Every photo of `card` is marked. */
  ghost predicate CardMarked(card: seq<string>, sel: set<string>) {
    forall j :: 0 <= j < |card| ==> card[j] in sel
  }

  /** A "Volle kaart" event is only logged once every photo of the card has been revealed. */
  ghost predicate FullRevealed(cards: seq<seq<string>>, steps: seq<Step>, events: seq<Event>) {
    forall i :: 0 <= i < |events| && events[i].kind == FullCard && 1 <= events[i].card <= |cards|
      ==> CardRevealed(steps, events[i].step, cards[events[i].card - 1])
  }

  predicate ResultsMatch(steps: seq<Step>, results: seq<StepResult>, cardCount: nat) {
    forall j :: 0 <= j < |results| ==>
      && j < |steps|
      && results[j].step == j + 1
      && results[j].stepLabel == steps[j].name
      && TallyOrdered(results[j].tally, cardCount)
  }

  /** `first_bingo_step` is the first step with a line, and its count is that step's count. */
  predicate FirstBingoOk(results: seq<StepResult>, fb: Option<FirstBingo>) {
    && (fb.None? <==> forall j :: 0 <= j < |results| ==> results[j].tally.oneLine == 0)
    && (fb.Some? ==>
          && 1 <= fb.value.step <= |results|
          && results[fb.value.step - 1].tally.oneLine == fb.value.count > 0
          && forall j :: 0 <= j < fb.value.step - 1 ==> results[j].tally.oneLine == 0)
  }

  /** The loop invariant after `n` steps. */
  ghost predicate Inv(cards: seq<seq<string>>, steps: seq<Step>, n: nat, st: State) {
    && n <= |steps|
    && |st.reached| == |cards|
    && |st.results| == n
    && MarksMatch(cards, steps, n, st.selected)
    && FlagsMatch(st.reached, st.events)
    && AllClosed(st.reached)
    && EventsInRange(st.events, n, |cards|)
    && Chronological(st.events)
    && PerCardOrdered(st.events)
    && FullRevealed(cards, steps, st.events)
    && ResultsMatch(steps, st.results, |cards|)
    && FirstBingoOk(st.results, st.firstBingo)
  }

  lemma {:induction false} InitialInv(cards: seq<seq<string>>, steps: seq<Step>)
    ensures Inv(cards, steps, 0, Initial(|cards|))
  {
    var st := Initial(|cards|);
    forall k, m | 0 <= k < |cards|
      ensures Flag(st.reached[k], m) <==> HasEvent(st.events, k + 1, m)
    {
      assert !Flag(st.reached[k], m);
    }
  }

  /** The pieces of one successful step, named so that the lemmas below can talk about them. */
  datatype StepParts = StepParts(sel: seq<set<string>>, evals: seq<CardEval>, news: seq<Event>,
                                 tally: Tally)

  function PartsOf(cards: seq<seq<string>>, st: State, step: nat, s: Step): (p: StepParts)
    requires |st.selected| == |st.reached| == |cards|
    requires StepOnce(cards, st, step, s).Some?
    ensures |p.sel| == |p.evals| == |cards|
    ensures forall k :: 0 <= k < |cards| ==> p.sel[k] == Mark(cards[k], st.selected[k], s.items)
    ensures forall k :: 0 <= k < |cards| ==>
              ValidEval(p.evals[k]) && p.evals[k].full == AllMarked(CardMask(cards[k], p.sel[k]))
    ensures p.news == StepEvents(step, s.name, st.reached, p.evals, |cards|)
    ensures p.tally == StepTally(p.evals, |cards|)
    ensures StepOnce(cards, st, step, s).value
            == State(p.sel, AdvanceAll(st.reached, p.evals), st.events + p.news,
                     st.results + [StepResult(step, s.name, p.tally)],
                     NextFirstBingo(st.firstBingo, step, p.tally))
  {
    var sel := NewMarks(cards, st.selected, s.items);
    var evals := EvaluateCards(cards, sel, |cards|).value;
    StepParts(sel, evals, StepEvents(step, s.name, st.reached, evals, |cards|),
              StepTally(evals, |cards|))
  }

  lemma RevealedByNext(steps: seq<Step>, n: nat, x: string)
    requires n < |steps|
    ensures RevealedBy(steps, n + 1, x) <==> RevealedBy(steps, n, x) || x in steps[n].items
  {
    if RevealedBy(steps, n, x) {
      var j :| 0 <= j < n && j < |steps| && x in steps[j].items;
      assert j < n + 1;
    }
    if x in steps[n].items {
      assert n < n + 1 && n < |steps| && x in steps[n].items;
    }
  }

  lemma {:induction false} MarksStep(cards: seq<seq<string>>, steps: seq<Step>, n: nat, sel: seq<set<string>>)
    requires n < |steps| && MarksMatch(cards, steps, n, sel)
    ensures MarksMatch(cards, steps, n + 1, NewMarks(cards, sel, steps[n].items))
  {
    var r := NewMarks(cards, sel, steps[n].items);
    forall k, x | 0 <= k < |cards|
      ensures x in r[k] <==> x in cards[k] && RevealedBy(steps, n + 1, x)
    {
      assert r[k] == Mark(cards[k], sel[k], steps[n].items);
      RevealedByNext(steps, n, x);
    }
  }

  lemma {:induction false} FlagsStep(step: nat, name: string, reached: seq<Reached>, events: seq<Event>,
                  evals: seq<CardEval>)
    requires |reached| == |evals|
    requires FlagsMatch(reached, events) && AllClosed(reached)
    requires forall k :: 0 <= k < |evals| ==> ValidEval(evals[k])
    ensures FlagsMatch(AdvanceAll(reached, evals),
                       events + StepEvents(step, name, reached, evals, |evals|))
    ensures AllClosed(AdvanceAll(reached, evals))
  {
    var news := StepEvents(step, name, reached, evals, |evals|);
    var r := AdvanceAll(reached, evals);
    forall k, m | 0 <= k < |r|
      ensures Flag(r[k], m) <==> HasEvent(events + news, k + 1, m)
    {
      HasEventConcat(events, news, k + 1, m);
      StepEventsOfCard(step, name, reached, evals, |evals|, k, m);
    }
    forall k | 0 <= k < |r|
      ensures Closed(r[k])
    {
      AdvanceClosed(reached[k], evals[k]);
    }
  }

  lemma {:induction false} OrderStep(n: nat, name: string, reached: seq<Reached>, events: seq<Event>,
                  evals: seq<CardEval>)
    requires |reached| == |evals|
    requires EventsInRange(events, n, |evals|) && Chronological(events)
    ensures EventsInRange(events + StepEvents(n + 1, name, reached, evals, |evals|), n + 1, |evals|)
    ensures Chronological(events + StepEvents(n + 1, name, reached, evals, |evals|))
  {
    var news := StepEvents(n + 1, name, reached, evals, |evals|);
    var all := events + news;
    forall i, j | 0 <= i < j < |all|
      ensures || all[i].step < all[j].step
              || (all[i].step == all[j].step && all[i].card < all[j].card)
              || (all[i].step == all[j].step && all[i].card == all[j].card
                  && Rank(all[i].kind) < Rank(all[j].kind))
    {
      if j < |events| {
        assert all[i] == events[i] && all[j] == events[j];
      } else if i < |events| {
        assert all[i] == events[i] && all[j] == news[j - |events|];
      } else {
        assert all[i] == news[i - |events|] && all[j] == news[j - |events|];
      }
    }
  }

  lemma {:induction false} PerCardStep(n: nat, name: string, reached: seq<Reached>, events: seq<Event>,
                    evals: seq<CardEval>)
    requires |reached| == |evals|
    requires EventsInRange(events, n, |evals|) && PerCardOrdered(events)
    requires FlagsMatch(reached, events) && AllClosed(reached)
    ensures PerCardOrdered(events + StepEvents(n + 1, name, reached, evals, |evals|))
  {
    var news := StepEvents(n + 1, name, reached, evals, |evals|);
    var all := events + news;
    forall i, j | 0 <= i < j < |all| && all[i].card == all[j].card
      ensures Rank(all[i].kind) < Rank(all[j].kind)
    {
      if j < |events| {
        assert all[i] == events[i] && all[j] == events[j];
      } else if i < |events| {
        var e, f := events[i], news[j - |events|];
        assert all[i] == e && all[j] == f;
        var k := e.card - 1;
        assert HasEvent(events, k + 1, e.kind);
        assert Flag(reached[k], e.kind);
        assert !Flag(reached[k], f.kind);
        assert Closed(reached[k]);
      } else {
        assert all[i] == news[i - |events|] && all[j] == news[j - |events|];
      }
    }
  }

  lemma {:induction false} FullRevealedConcat(cards: seq<seq<string>>, steps: seq<Step>, a: seq<Event>, b: seq<Event>)
    requires FullRevealed(cards, steps, a) && FullRevealed(cards, steps, b)
    ensures FullRevealed(cards, steps, a + b)
  {
    forall i | 0 <= i < |a + b| && (a + b)[i].kind == FullCard && 1 <= (a + b)[i].card <= |cards|
      ensures CardRevealed(steps, (a + b)[i].step, cards[(a + b)[i].card - 1])
    {
      if i >= |a| { assert (a + b)[i] == b[i - |a|]; }
    }
  }

  /** The "Volle kaart" events of a step are for cards whose photos are all revealed. */
  lemma {:induction false} NewFullRevealed(cards: seq<seq<string>>, steps: seq<Step>, n: nat, sel: seq<set<string>>,
                        reached: seq<Reached>, evals: seq<CardEval>)
    requires n < |steps| && |reached| == |evals| == |cards|
    requires MarksMatch(cards, steps, n + 1, sel)
    requires forall k :: 0 <= k < |cards| && evals[k].full ==> CardMarked(cards[k], sel[k])
    ensures FullRevealed(cards, steps, StepEvents(n + 1, steps[n].name, reached, evals, |evals|))
  {
    var news := StepEvents(n + 1, steps[n].name, reached, evals, |evals|);
    forall i | 0 <= i < |news| && news[i].kind == FullCard && 1 <= news[i].card <= |cards|
      ensures CardRevealed(steps, news[i].step, cards[news[i].card - 1])
    {
      var k := news[i].card - 1;
      assert CardMarked(cards[k], sel[k]);
    }
  }

  lemma {:induction false} ResultsStep(steps: seq<Step>, n: nat, results: seq<StepResult>, fb: Option<FirstBingo>,
                    tally: Tally, cardCount: nat)
    requires n < |steps| && |results| == n
    requires ResultsMatch(steps, results, cardCount) && FirstBingoOk(results, fb)
    requires TallyOrdered(tally, cardCount)
    ensures ResultsMatch(steps, results + [StepResult(n + 1, steps[n].name, tally)], cardCount)
    ensures FirstBingoOk(results + [StepResult(n + 1, steps[n].name, tally)],
                         NextFirstBingo(fb, n + 1, tally))
  {
    var rs := results + [StepResult(n + 1, steps[n].name, tally)];
    forall j | 0 <= j < |rs|
      ensures j < |steps| && rs[j].step == j + 1 && rs[j].stepLabel == steps[j].name
      ensures TallyOrdered(rs[j].tally, cardCount)
    {
      if j < n { assert rs[j] == results[j]; }
    }
    if fb.None? && tally.oneLine > 0 {
      forall j | 0 <= j < n ensures rs[j].tally.oneLine == 0 {
        assert rs[j] == results[j];
      }
    } else if fb.None? {
      forall j | 0 <= j < n + 1 ensures rs[j].tally.oneLine == 0 {
        if j < n { assert rs[j] == results[j]; }
      }
    } else {
      assert rs[fb.value.step - 1] == results[fb.value.step - 1];
      forall j | 0 <= j < fb.value.step - 1 ensures rs[j].tally.oneLine == 0 {
        assert rs[j] == results[j];
      }
    }
  }

  /** One successful step keeps the invariant. */
  lemma {:induction false} StepInv(cards: seq<seq<string>>, steps: seq<Step>, n: nat, st: State)
    requires Inv(cards, steps, n, st) && n < |steps|
    requires StepOnce(cards, st, n + 1, steps[n]).Some?
    ensures Inv(cards, steps, n + 1, StepOnce(cards, st, n + 1, steps[n]).value)
  {
    var p := PartsOf(cards, st, n + 1, steps[n]);
    var name := steps[n].name;
    MarksStep(cards, steps, n, st.selected);
    assert p.sel == NewMarks(cards, st.selected, steps[n].items);
    FlagsStep(n + 1, name, st.reached, st.events, p.evals);
    OrderStep(n, name, st.reached, st.events, p.evals);
    PerCardStep(n, name, st.reached, st.events, p.evals);
    forall k | 0 <= k < |cards| && p.evals[k].full ensures CardMarked(cards[k], p.sel[k]) {
      assert AllMarked(CardMask(cards[k], p.sel[k]));
    }
    NewFullRevealed(cards, steps, n, p.sel, st.reached, p.evals);
    FullRevealedConcat(cards, steps, st.events, p.news);
    ResultsStep(steps, n, st.results, st.firstBingo, p.tally, |cards|);
  }

  lemma {:induction false} RunStepsNext(cards: seq<seq<string>>, steps: seq<Step>, n: nat)
    requires n < |steps|
    requires RunSteps(cards, steps, n).Some?
    ensures RunSteps(cards, steps, n + 1)
            == StepOnce(cards, RunSteps(cards, steps, n).value, n + 1, steps[n])
  {
  }

  /** Every state the loop reaches satisfies the invariant. (Stated as `== true` so that the
      invariant is established as a whole rather than conjunct by conjunct.) */
  lemma {:induction false} RunInv(cards: seq<seq<string>>, steps: seq<Step>, n: nat)
    requires n <= |steps|
    requires RunSteps(cards, steps, n).Some?
    ensures Inv(cards, steps, n, RunSteps(cards, steps, n).value) == true
  {
    if n == 0 {
      InitialInv(cards, steps);
    } else {
      var prev := RunSteps(cards, steps, n - 1);
      assert prev.Some?;
      RunInv(cards, steps, n - 1);
      RunStepsNext(cards, steps, n - 1);
      StepInvAt(cards, steps, n, prev.value, RunSteps(cards, steps, n).value);
    }
  }

  /** The invariant after step `n`, from the one before it. */
  lemma StepInvAt(cards: seq<seq<string>>, steps: seq<Step>, n: nat, prev: State, next: State)
    requires 0 < n <= |steps| && Inv(cards, steps, n - 1, prev)
    requires StepOnce(cards, prev, n, steps[n - 1]) == Some(next)
    ensures Inv(cards, steps, n, next)
  {
    StepInv(cards, steps, n - 1, prev);
  }

  lemma RevealedByMonotone(steps: seq<Step>, a: nat, b: nat, x: string)
    requires a <= b
    ensures RevealedBy(steps, a, x) ==> RevealedBy(steps, b, x)
  {
  }

  /** Marked sets only grow: what a card has marked after `a` steps it still has after `b`. */
  lemma MarksOnlyGrow(cards: seq<seq<string>>, steps: seq<Step>, a: nat, b: nat, k: nat)
    requires a <= b <= |steps| && k < |cards|
    requires RunSteps(cards, steps, b).Some?
    ensures RunSteps(cards, steps, a).Some?
    ensures RunSteps(cards, steps, a).value.selected[k] <= RunSteps(cards, steps, b).value.selected[k]
  {
    RunInv(cards, steps, a);
    RunInv(cards, steps, b);
    forall x | x in RunSteps(cards, steps, a).value.selected[k]
      ensures x in RunSteps(cards, steps, b).value.selected[k]
    {
      RevealedByMonotone(steps, a, b, x);
    }
  }

  /** Each card logs "1 rij", "2 rijen" and "Volle kaart" at most once each, in that order, and
      at non-decreasing steps. */
  lemma MilestonesInOrder(cards: seq<seq<string>>, steps: seq<Step>)
    requires Simulate(cards, steps).Some?
    ensures var evs := Simulate(cards, steps).value.events;
            forall i, j :: 0 <= i < j < |evs| && evs[i].card == evs[j].card ==>
              Rank(evs[i].kind) < Rank(evs[j].kind) && evs[i].step <= evs[j].step
  {
    RunInv(cards, steps, |steps|);
  }

  /** No card logs the same milestone twice. */
  lemma MilestoneAtMostOnce(cards: seq<seq<string>>, steps: seq<Step>, i: nat, j: nat)
    requires Simulate(cards, steps).Some?
    requires i < j < |Simulate(cards, steps).value.events|
    requires Simulate(cards, steps).value.events[i].card == Simulate(cards, steps).value.events[j].card
    ensures Simulate(cards, steps).value.events[i].kind != Simulate(cards, steps).value.events[j].kind
  {
    MilestonesInOrder(cards, steps);
  }

  /** A card has logged a milestone exactly when its flag is set at the end. */
  lemma EventIffFlag(cards: seq<seq<string>>, steps: seq<Step>, k: nat, m: Milestone)
    requires Simulate(cards, steps).Some? && k < |cards|
    ensures k < |Simulate(cards, steps).value.reached|
    ensures HasEvent(Simulate(cards, steps).value.events, k + 1, m)
            <==> Flag(Simulate(cards, steps).value.reached[k], m)
  {
    RunInv(cards, steps, |steps|);
  }

  /** There is one result per step, numbered from 1 and labelled with the step's folder, and the
      counts of every step nest: full <= two lines <= one line <= number of cards. */
  lemma StepCountsNest(cards: seq<seq<string>>, steps: seq<Step>)
    requires Simulate(cards, steps).Some?
    ensures |Simulate(cards, steps).value.results| == |steps|
    ensures forall j :: 0 <= j < |steps| ==>
              && Simulate(cards, steps).value.results[j].step == j + 1
              && Simulate(cards, steps).value.results[j].stepLabel == steps[j].name
              && TallyOrdered(Simulate(cards, steps).value.results[j].tally, |cards|)
  {
    RunInv(cards, steps, |steps|);
  }

  /** `first_bingo_step` is the first step at which some card has a line, with that step's count,
      and it stays unset exactly when no step has a card with a line. */
  lemma FirstBingoIsFirstLine(cards: seq<seq<string>>, steps: seq<Step>)
    requires Simulate(cards, steps).Some?
    ensures var st := Simulate(cards, steps).value;
            && (st.firstBingo.None? <==> forall j :: 0 <= j < |st.results| ==> st.results[j].tally.oneLine == 0)
            && (st.firstBingo.Some? ==>
                  && 1 <= st.firstBingo.value.step <= |steps|
                  && st.results[st.firstBingo.value.step - 1].tally.oneLine
                     == st.firstBingo.value.count > 0
                  && forall j :: 0 <= j < st.firstBingo.value.step - 1 ==> st.results[j].tally.oneLine == 0)
  {
    RunInv(cards, steps, |steps|);
    var st := Simulate(cards, steps).value;
    assert |st.results| == |steps| && FirstBingoOk(st.results, st.firstBingo);
  }

  /** A "Volle kaart" event for a card means every photo on it was revealed by that step. */
  lemma FullCardMeansAllRevealed(cards: seq<seq<string>>, steps: seq<Step>, i: nat)
    requires Simulate(cards, steps).Some?
    requires i < |Simulate(cards, steps).value.events|
    requires Simulate(cards, steps).value.events[i].kind == FullCard
    ensures 1 <= Simulate(cards, steps).value.events[i].card <= |cards|
    ensures Simulate(cards, steps).value.events[i].step <= |steps|
    ensures var e := Simulate(cards, steps).value.events[i];
            CardRevealed(steps, e.step, cards[e.card - 1])
  {
    FinalEvents(cards, steps);
  }

  /** After the whole story, every event names a step and a card in range, and every "Volle
      kaart" event follows the reveal of all the card's photos. */
  lemma FinalEvents(cards: seq<seq<string>>, steps: seq<Step>)
    requires Simulate(cards, steps).Some?
    ensures var st := Simulate(cards, steps).value;
            EventsInRange(st.events, |steps|, |cards|) && FullRevealed(cards, steps, st.events)
  {
    RunInv(cards, steps, |steps|);
  }

  /** A card holding a photo that no step reveals never logs "Volle kaart". */
  lemma NoFullCardWithoutReveal(cards: seq<seq<string>>, steps: seq<Step>, k: nat, x: string)
    requires Simulate(cards, steps).Some? && k < |cards|
    requires x in cards[k]
    requires forall t :: 0 <= t < |steps| ==> x !in steps[t].items
    ensures !HasEvent(Simulate(cards, steps).value.events, k + 1, FullCard)
  {
    var evs := Simulate(cards, steps).value.events;
    if HasEvent(evs, k + 1, FullCard) {
      var i :| 0 <= i < |evs| && evs[i].card == k + 1 && evs[i].kind == FullCard;
      FullCardMeansAllRevealed(cards, steps, i);
      assert false;
    }
  }

  /** With nine photos on every card `line_breakdown` never raises, so the simulation finishes. */
  lemma {:induction false} FullCardsNeverRaise(cards: seq<seq<string>>, steps: seq<Step>, n: nat)
    requires n <= |steps|
    requires forall k :: 0 <= k < |cards| ==> |cards[k]| >= 9
    ensures RunSteps(cards, steps, n).Some?
  {
    if n > 0 {
      FullCardsNeverRaise(cards, steps, n - 1);
    }
  }

  /** A card of eight photos (the fallback when the day pool is short) survives a step that
      reveals nothing, but the loop raises at the step that reveals all its photos. */
  lemma ShortCardRaisesWhenFull(card: seq<string>)
    requires |card| == 8
    ensures RunSteps([card], [Step("leeg", []), Step("alles", card)], 1).Some?
    ensures Simulate([card], [Step("leeg", []), Step("alles", card)]).None?
  {
    var steps := [Step("leeg", []), Step("alles", card)];
    var quiet := CardMask(card, Mark(card, {}, []));
    ShortEmptyMaskQuiet(quiet);
    assert RunSteps([card], steps, 1).Some?;
    var st := RunSteps([card], steps, 1).value;
    RunStepsNext([card], steps, 1);
    var full := CardMask(card, Mark(card, st.selected[0], card));
    assert AllMarked(full);
    ShortFullMaskRaises(full);
  }
}
