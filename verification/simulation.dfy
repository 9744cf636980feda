/** Replaying an imported story against many cards (bingo/bingo.py, the simulation loop):
    each step reveals a group of photos, every card marks the revealed photos it holds, and the
    first time a card completes one line, two lines or the whole card an event is logged. */
module Simulation {
  import opened Wrappers
  import opened Seqs
  import opened Lines
  import opened Story

  /** The three milestones a card can reach: "1 rij", "2 rijen" and "Volle kaart". */
  datatype Milestone = OneLine | TwoLines | FullCard

  function Rank(m: Milestone): nat {
    match m
    case OneLine => 0
    case TwoLines => 1
    case FullCard => 2
  }

  /** A logged milestone: the 1-based step and card numbers, the step label, the kind, and the
      card's line breakdown at that moment. */
  datatype Event = Event(step: nat, stepLabel: string, card: nat, kind: Milestone,
                         bd: Breakdown, full: bool)

  /** The per-step counts: cards with a complete row, column or diagonal, cards with at least one
      and at least two complete lines, and fully marked cards. */
  datatype Tally = Tally(horiz: nat, vert: nat, diag: nat, oneLine: nat, twoLines: nat, full: nat)

  datatype StepResult = StepResult(step: nat, stepLabel: string, tally: Tally)

  /** The counts of a step over `n` cards nest: full cards have two lines, two lines imply one,
      and a card with a complete row, column or diagonal has a line. */
  predicate TallyOrdered(t: Tally, n: nat) {
    && t.full <= t.twoLines <= t.oneLine <= n
    && t.horiz <= t.oneLine && t.vert <= t.oneLine && t.diag <= t.oneLine
  }

  /** Which milestones a card has already logged (`has_one_line`, `has_two_lines`, `has_full`). */
  datatype Reached = Reached(one: bool, two: bool, full: bool)

  function Flag(r: Reached, m: Milestone): bool {
    match m
    case OneLine => r.one
    case TwoLines => r.two
    case FullCard => r.full
  }

  /** The first step at which some card has a line, and how many cards had one then. */
  datatype FirstBingo = FirstBingo(step: nat, count: nat)

  /** The simulation's state between steps. */
  datatype State = State(selected: seq<set<string>>, reached: seq<Reached>, events: seq<Event>,
                         results: seq<StepResult>, firstBingo: Option<FirstBingo>)

  /** A card's line evaluation at one step: its breakdown and whether every cell is marked. */
  datatype CardEval = CardEval(bd: Breakdown, full: bool)

  /** A fully marked card has all eight lines complete. */
  predicate ValidEval(ev: CardEval) {
    ev.full ==> ev.bd.Total() == 8
  }

  /** `[c in selected for c in card]` */
  function CardMask(card: seq<string>, sel: set<string>): (m: Mask)
    ensures |m| == |card|
    ensures forall i :: 0 <= i < |card| ==> m[i] == (card[i] in sel)
  {
    seq(|card|, i requires 0 <= i < |card| => card[i] in sel)
  }

  /** Marks every photo of `items` that the card holds. */
  function Mark(card: seq<string>, sel: set<string>, items: seq<string>): (r: set<string>)
    ensures sel <= r
    ensures forall x :: x in r <==> x in sel || (x in items && x in card)
  {
    sel + set x | x in items && x in card
  }

  /** The milestones logged for one card at one step, in the order the source logs them. */
  function CardEvents(step: nat, stepLabel: string, idx: nat, r: Reached, ev: CardEval)
    : (es: seq<Event>)
    ensures forall i :: 0 <= i < |es| ==> es[i].step == step && es[i].card == idx + 1
    ensures forall i, j :: 0 <= i < j < |es| ==> Rank(es[i].kind) < Rank(es[j].kind)
    ensures forall i :: 0 <= i < |es| ==> !Flag(r, es[i].kind)
    ensures forall i :: 0 <= i < |es| && es[i].kind == FullCard ==> ev.full
  {
    var t := ev.bd.Total();
    (if !r.one && t >= 1 then [Event(step, stepLabel, idx + 1, OneLine, ev.bd, false)] else [])
    + (if !r.two && t >= 2 then [Event(step, stepLabel, idx + 1, TwoLines, ev.bd, false)] else [])
    + (if !r.full && ev.full then [Event(step, stepLabel, idx + 1, FullCard, ev.bd, true)] else [])
  }

  /** The card's milestone flags after the step. */
  function Advance(r: Reached, ev: CardEval): Reached {
    Reached(r.one || ev.bd.Total() >= 1, r.two || ev.bd.Total() >= 2, r.full || ev.full)
  }

  /** A milestone is logged at this step exactly when the card reaches it now for the first time. */
  lemma CardEventsExactly(step: nat, stepLabel: string, idx: nat, r: Reached, ev: CardEval,
                          m: Milestone)
    ensures (exists i :: 0 <= i < |CardEvents(step, stepLabel, idx, r, ev)|
                         && CardEvents(step, stepLabel, idx, r, ev)[i].kind == m)
            <==> !Flag(r, m) && Flag(Advance(r, ev), m)
  {
    var es := CardEvents(step, stepLabel, idx, r, ev);
    if !Flag(r, m) && Flag(Advance(r, ev), m) {
      var k := m;
      var i :| 0 <= i < |es| && es[i].kind == k by {
        var t := ev.bd.Total();
        var a := if !r.one && t >= 1 then 1 else 0;
        var b := if !r.two && t >= 2 then 1 else 0;
        if m == OneLine { assert es[0].kind == OneLine; }
        else if m == TwoLines { assert es[a].kind == TwoLines; }
        else { assert es[a + b].kind == FullCard; }
      }
    }
  }

  /** Milestones are reached in order: two lines only after one, a full card only after two. */
  predicate Closed(r: Reached) {
    (r.two ==> r.one) && (r.full ==> r.two)
  }

  lemma AdvanceClosed(r: Reached, ev: CardEval)
    requires Closed(r) && ValidEval(ev)
    ensures Closed(Advance(r, ev))
  {
  }

  function Bit(b: bool): nat { if b then 1 else 0 }

  /** The counts of one step over the first `n` cards. */
  function StepTally(evals: seq<CardEval>, n: nat): (t: Tally)
    requires n <= |evals|
    requires forall k :: 0 <= k < |evals| ==> ValidEval(evals[k])
    ensures TallyOrdered(t, n)
  {
    if n == 0 then Tally(0, 0, 0, 0, 0, 0)
    else
      var t := StepTally(evals, n - 1);
      var ev := evals[n - 1];
      var bd := ev.bd;
      Tally(t.horiz + Bit(bd.h >= 1), t.vert + Bit(bd.v >= 1), t.diag + Bit(bd.d >= 1),
            t.oneLine + Bit(bd.Total() >= 1), t.twoLines + Bit(bd.Total() >= 2),
            t.full + Bit(ev.full))
  }

  /** The events of one step over the first `n` cards, card by card. */
  function StepEvents(step: nat, stepLabel: string, reached: seq<Reached>, evals: seq<CardEval>,
                      n: nat): (es: seq<Event>)
    requires n <= |evals| == |reached|
    ensures forall i :: 0 <= i < |es| ==> es[i].step == step && 1 <= es[i].card <= n
    ensures forall i :: 0 <= i < |es| ==> !Flag(reached[es[i].card - 1], es[i].kind)
    ensures forall i :: 0 <= i < |es| && es[i].kind == FullCard ==> evals[es[i].card - 1].full
    ensures forall i, j :: 0 <= i < j < |es| ==>
              es[i].card < es[j].card
              || (es[i].card == es[j].card && Rank(es[i].kind) < Rank(es[j].kind))
  {
    if n == 0 then []
    else
      StepEvents(step, stepLabel, reached, evals, n - 1)
      + CardEvents(step, stepLabel, n - 1, reached[n - 1], evals[n - 1])
  }

  /** Some event of `es` records milestone `m` for card number `c`. */
  predicate HasEvent(es: seq<Event>, c: nat, m: Milestone) {
    exists i :: 0 <= i < |es| && es[i].card == c && es[i].kind == m
  }

  lemma HasEventConcat(a: seq<Event>, b: seq<Event>, c: nat, m: Milestone)
    ensures HasEvent(a + b, c, m) <==> HasEvent(a, c, m) || HasEvent(b, c, m)
  {
    if HasEvent(a + b, c, m) {
      var i :| 0 <= i < |a + b| && (a + b)[i].card == c && (a + b)[i].kind == m;
      if i >= |a| { assert b[i - |a|] == (a + b)[i]; }
    }
    if HasEvent(b, c, m) {
      var i :| 0 <= i < |b| && b[i].card == c && b[i].kind == m;
      assert (a + b)[|a| + i] == b[i];
    }
    if HasEvent(a, c, m) {
      var i :| 0 <= i < |a| && a[i].card == c && a[i].kind == m;
      assert (a + b)[i] == a[i];
    }
  }

  lemma CardEventsHas(step: nat, stepLabel: string, idx: nat, r: Reached, ev: CardEval,
                      c: nat, m: Milestone)
    ensures HasEvent(CardEvents(step, stepLabel, idx, r, ev), c, m)
            <==> c == idx + 1 && !Flag(r, m) && Flag(Advance(r, ev), m)
  {
    CardEventsExactly(step, stepLabel, idx, r, ev, m);
  }

  /** The events of a step for card number `idx + 1` are that card's own events. */
  lemma {:induction false} StepEventsOfCard(step: nat, stepLabel: string, reached: seq<Reached>,
                                            evals: seq<CardEval>, n: nat, idx: nat, m: Milestone)
    requires n <= |evals| == |reached|
    requires idx < |evals|
    ensures HasEvent(StepEvents(step, stepLabel, reached, evals, n), idx + 1, m)
            <==> idx < n && !Flag(reached[idx], m) && Flag(Advance(reached[idx], evals[idx]), m)
  {
    if n > 0 {
      var prev := StepEvents(step, stepLabel, reached, evals, n - 1);
      var own := CardEvents(step, stepLabel, n - 1, reached[n - 1], evals[n - 1]);
      StepEventsOfCard(step, stepLabel, reached, evals, n - 1, idx, m);
      CardEventsHas(step, stepLabel, n - 1, reached[n - 1], evals[n - 1], idx + 1, m);
      HasEventConcat(prev, own, idx + 1, m);
    }
  }

  /** Evaluates the first `n` cards on their marks: `None` when `line_breakdown` raises on one
      of them. */
  function EvaluateCards(cards: seq<seq<string>>, selected: seq<set<string>>, n: nat)
    : (r: Option<seq<CardEval>>)
    requires n <= |cards| == |selected|
    ensures r.Some? <==> forall k :: 0 <= k < n ==> LineBreakdown(CardMask(cards[k], selected[k])).Some?
    ensures r.Some? ==> |r.value| == n
    ensures r.Some? ==> forall k :: 0 <= k < n ==>
              && ValidEval(r.value[k])
              && r.value[k].full == AllMarked(CardMask(cards[k], selected[k]))
              && Some(r.value[k].bd) == LineBreakdown(CardMask(cards[k], selected[k]))
  {
    if n == 0 then Some([])
    else
      var mask := CardMask(cards[n - 1], selected[n - 1]);
      match (EvaluateCards(cards, selected, n - 1), LineBreakdown(mask))
      case (Some(evs), Some(bd)) =>
        assert AllMarked(mask) ==> bd.Total() == 8 by {
          if AllMarked(mask) { BreakdownOfFullMask(mask); }
        }
        Some(evs + [CardEval(bd, AllMarked(mask))])
      case _ => None
  }

  /** The marks of every card after the photos `items` are revealed. */
  function NewMarks(cards: seq<seq<string>>, sel: seq<set<string>>, items: seq<string>)
    : (r: seq<set<string>>)
    requires |sel| == |cards|
    ensures |r| == |cards|
    ensures forall k :: 0 <= k < |cards| ==> r[k] == Mark(cards[k], sel[k], items)
  {
    seq(|cards|, k requires 0 <= k < |cards| => Mark(cards[k], sel[k], items))
  }

  function AdvanceAll(reached: seq<Reached>, evals: seq<CardEval>): (r: seq<Reached>)
    requires |reached| == |evals|
    ensures |r| == |reached|
    ensures forall k :: 0 <= k < |r| ==> r[k] == Advance(reached[k], evals[k])
  {
    seq(|reached|, k requires 0 <= k < |reached| => Advance(reached[k], evals[k]))
  }

  /** `first_bingo_step` is set once, at the first step where some card has a line. */
  function NextFirstBingo(fb: Option<FirstBingo>, step: nat, t: Tally): Option<FirstBingo> {
    if fb.None? && t.oneLine > 0 then Some(FirstBingo(step, t.oneLine)) else fb
  }

  /** The state before the first step: nothing marked, nothing reached, nothing logged. */
  function Initial(m: nat): (st: State)
    ensures |st.selected| == |st.reached| == m
  {
    State(seq(m, _ => {}), seq(m, _ => Reached(false, false, false)), [], [], None)
  }

  /** One step of the loop: mark the revealed photos on every card, evaluate every card, log the
      new milestones, append the step's counts and update the first bingo. `None` when
      `line_breakdown` raises on a card. */
  function StepOnce(cards: seq<seq<string>>, st: State, step: nat, s: Step): (r: Option<State>)
    requires |st.selected| == |st.reached| == |cards|
    ensures (forall k :: 0 <= k < |cards| ==> |cards[k]| >= 9) ==> r.Some?
    ensures r.Some? ==> |r.value.selected| == |r.value.reached| == |cards|
    ensures r.Some? ==> |r.value.results| == |st.results| + 1
    ensures r.Some? ==> r.value.results[..|st.results|] == st.results
    ensures r.Some? ==> r.value.results[|st.results|].step == step
    ensures r.Some? ==> r.value.results[|st.results|].stepLabel == s.name
    ensures r.Some? ==> TallyOrdered(r.value.results[|st.results|].tally, |cards|)
    ensures r.Some? ==> forall k, x :: 0 <= k < |cards| ==>
              (x in r.value.selected[k] <==> x in st.selected[k] || (x in s.items && x in cards[k]))
    ensures r.Some? ==> |st.events| <= |r.value.events|
    ensures r.Some? ==> r.value.events[..|st.events|] == st.events
    ensures r.Some? ==> forall i :: |st.events| <= i < |r.value.events| ==>
              r.value.events[i].step == step && 1 <= r.value.events[i].card <= |cards|
    ensures r.Some? ==> forall k, m :: 0 <= k < |cards| && Flag(st.reached[k], m) ==>
              Flag(r.value.reached[k], m)
  {
    var sel := NewMarks(cards, st.selected, s.items);
    assert (forall k :: 0 <= k < |cards| ==> |cards[k]| >= 9) ==>
             forall k :: 0 <= k < |cards| ==> LineBreakdown(CardMask(cards[k], sel[k])).Some?;
    match EvaluateCards(cards, sel, |cards|)
    case None => None
    case Some(evals) =>
      var tally := StepTally(evals, |cards|);
      Some(State(sel, AdvanceAll(st.reached, evals),
                 st.events + StepEvents(step, s.name, st.reached, evals, |cards|),
                 st.results + [StepResult(step, s.name, tally)],
                 NextFirstBingo(st.firstBingo, step, tally)))
  }

  /** The loop over the first `n` steps, numbered from 1. */
  function RunSteps(cards: seq<seq<string>>, steps: seq<Step>, n: nat): (r: Option<State>)
    requires n <= |steps|
    ensures r.Some? ==> |r.value.selected| == |r.value.reached| == |cards|
    ensures r.Some? ==> |r.value.results| == n
    ensures r.Some? ==> forall a :: 0 <= a <= n ==> RunSteps(cards, steps, a).Some?
  {
    if n == 0 then Some(Initial(|cards|))
    else
      match RunSteps(cards, steps, n - 1)
      case None => None
      case Some(st) => StepOnce(cards, st, n, steps[n - 1])
  }

  /** The whole simulation of a story against a deck of cards. */
  function Simulate(cards: seq<seq<string>>, steps: seq<Step>): Option<State> {
    RunSteps(cards, steps, |steps|)
  }
}
