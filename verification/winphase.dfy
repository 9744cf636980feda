/** The milestone state machine of the playing page's script (bingo/bingo.py, the `toggle`
    handler): every click flips one grid item, and the phase moves on at most one milestone per
    click, from nothing (0) to one line (1), two lines (2) and a full card (3). */
module WinPhase {
  import opened Lines

  /** `document.querySelectorAll('.selected').length`: the number of selected items. */
  function CountSelected(sel: Mask): (n: nat)
    ensures n <= |sel|
    ensures n == |sel| <==> AllMarked(sel)
  {
    if sel == [] then 0
    else
      var n := CountSelected(sel[..|sel| - 1]);
      assert AllMarked(sel) <==> AllMarked(sel[..|sel| - 1]) && sel[|sel| - 1] by {
        if AllMarked(sel[..|sel| - 1]) && sel[|sel| - 1] {
          forall i | 0 <= i < |sel| ensures sel[i] {
            if i < |sel| - 1 { assert sel[i] == sel[..|sel| - 1][i]; }
          }
        }
      }
      n + (if sel[|sel| - 1] then 1 else 0)
  }

  /** The grid's selection and the script's `winPhase`. */
  datatype Board = Board(sel: Mask, phase: nat)

  /** A fresh page: `cells` unselected items and `winPhase = 0`. */
  function StartBoard(cells: nat): (b: Board)
    ensures |b.sel| == cells && b.phase == 0
    ensures CountSelected(b.sel) == 0
  {
    var b := Board(seq(cells, _ => false), 0);
    assert CountSelected(b.sel) == 0 by { SelectedNone(b.sel); }
    b
  }

  lemma {:induction false} SelectedNone(sel: Mask)
    requires forall i :: 0 <= i < |sel| ==> !sel[i]
    ensures CountSelected(sel) == 0
  {
    if sel != [] {
      SelectedNone(sel[..|sel| - 1]);
    }
  }

  /** What a click announced: nothing, "1 RIJ", "2 RIJEN" or the full-card prize. */
  datatype Announcement = Nothing | OneRow | TwoRows | FullCardPrize

  datatype Click = Click(board: Board, announced: Announcement)

  /** The guard of the milestone after `phase`, evaluated on the selection after the click:
      a first line, a second line, or all nine items selected. */
  predicate NextMilestoneReached(phase: nat, sel: Mask) {
    || (phase == 0 && CountIn(sel, WinPatterns) >= 1)
    || (phase == 1 && CountIn(sel, WinPatterns) >= 2)
    || (phase == 2 && CountSelected(sel) == 9)
  }

  /** `toggle(el, ev)` on item `i`: flip its selection, recount, and try the one milestone that
      follows the current phase. */
  function Toggle(b: Board, i: nat): (r: Click)
    requires i < |b.sel|
    ensures |r.board.sel| == |b.sel|
    ensures r.board.sel[i] == !b.sel[i]
    ensures forall j :: 0 <= j < |b.sel| && j != i ==> r.board.sel[j] == b.sel[j]
    ensures r.board.phase == b.phase || r.board.phase == b.phase + 1
    ensures r.board.phase == b.phase + 1 <==> NextMilestoneReached(b.phase, r.board.sel)
    ensures r.announced != Nothing <==> r.board.phase == b.phase + 1
    ensures r.announced == FullCardPrize ==> 9 <= |b.sel|
    ensures r.announced == FullCardPrize && |b.sel| == 9 ==> AllMarked(r.board.sel)
  {
    var sel := b.sel[i := !b.sel[i]];
    var fullLines := CountIn(sel, WinPatterns);
    var totalSelected := CountSelected(sel);
    if b.phase == 0 && fullLines >= 1 then Click(Board(sel, 1), OneRow)
    else if b.phase == 1 && fullLines >= 2 then Click(Board(sel, 2), TwoRows)
    else if b.phase == 2 && totalSelected == 9 then Click(Board(sel, 3), FullCardPrize)
    else Click(Board(sel, b.phase), Nothing)
  }

  /** Clicking the same item twice restores the selection. */
  lemma ToggleTwice(b: Board, i: nat)
    requires i < |b.sel|
    ensures Toggle(Toggle(b, i).board, i).board.sel == b.sel
  {
  }

  /** A sequence of clicks on existing items. */
  predicate ValidClicks(cells: nat, clicks: seq<nat>) {
    forall k :: 0 <= k < |clicks| ==> clicks[k] < cells
  }

  /** The board after a sequence of clicks, and the announcements they made. */
  function Play(b: Board, clicks: seq<nat>): (r: (Board, seq<Announcement>))
    requires ValidClicks(|b.sel|, clicks)
    ensures |r.0.sel| == |b.sel|
    ensures |r.1| == |clicks|
    ensures b.phase <= r.0.phase <= b.phase + |clicks|
  {
    if clicks == [] then (b, [])
    else
      var (mid, anns) := Play(b, clicks[..|clicks| - 1]);
      var c := Toggle(mid, clicks[|clicks| - 1]);
      (c.board, anns + [c.announced])
  }

  /** Starting from a valid phase, the phase never passes 3, and each milestone is announced at
      most once: the phase equals the number of announcements made. */
  lemma {:induction false} PlayPhases(b: Board, clicks: seq<nat>)
    requires ValidClicks(|b.sel|, clicks) && b.phase <= 3
    ensures Play(b, clicks).0.phase <= 3
    ensures Play(b, clicks).0.phase == b.phase + Announced(Play(b, clicks).1)
  {
    if clicks != [] {
      PlayPhases(b, clicks[..|clicks| - 1]);
      var (mid, anns) := Play(b, clicks[..|clicks| - 1]);
      var c := Toggle(mid, clicks[|clicks| - 1]);
      AnnouncedSnoc(anns, c.announced);
    }
  }

  /** The number of announcements in `anns`. */
  function Announced(anns: seq<Announcement>): (n: nat)
    ensures n <= |anns|
  {
    if anns == [] then 0
    else Announced(anns[..|anns| - 1]) + (if anns[|anns| - 1] != Nothing then 1 else 0)
  }

  lemma AnnouncedSnoc(anns: seq<Announcement>, a: Announcement)
    ensures Announced(anns + [a]) == Announced(anns) + (if a != Nothing then 1 else 0)
  {
    assert (anns + [a])[..|anns|] == anns;
  }

  /** On a grid of fewer than nine items the full-card prize is never announced. */
  lemma {:induction false} ShortGridNeverFull(b: Board, clicks: seq<nat>)
    requires ValidClicks(|b.sel|, clicks) && |b.sel| < 9 && b.phase < 3
    ensures Play(b, clicks).0.phase < 3
    ensures forall k :: 0 <= k < |clicks| ==> Play(b, clicks).1[k] != FullCardPrize
  {
    if clicks != [] {
      ShortGridNeverFull(b, clicks[..|clicks| - 1]);
      var (mid, anns) := Play(b, clicks[..|clicks| - 1]);
      var c := Toggle(mid, clicks[|clicks| - 1]);
      assert Play(b, clicks).1 == anns + [c.announced];
    }
  }

  /** On a nine-item grid in phase 2, selecting the last unselected item announces the full
      card. */
  lemma LastItemWinsFullCard(b: Board, i: nat)
    requires |b.sel| == 9 && b.phase == 2 && i < 9 && !b.sel[i]
    requires forall j :: 0 <= j < 9 && j != i ==> b.sel[j]
    ensures Toggle(b, i).announced == FullCardPrize
    ensures Toggle(b, i).board.phase == 3
  {
    assert AllMarked(Toggle(b, i).board.sel);
  }

  /** A milestone can be announced by a click that deselects an item: here the selection already
      held two lines when the first was announced, and deselecting an unrelated item lets the
      script catch up with the second. */
  lemma DeselectCanAnnounce()
    ensures var b := Board([true, true, true, true, false, false, true, false, true], 1);
            b.sel[8] && Toggle(b, 8).announced == TwoRows
  {
    var b := Board([true, true, true, true, false, false, true, false, true], 1);
    var after := [true, true, true, true, false, false, true, false, false];
    assert b.sel[8 := false] == after;
    assert CountIn(after, Rows) == 1;
    assert CountIn(after, Columns) == 1;
    CountInConcat(after, Rows, Columns);
    CountInConcat(after, Rows + Columns, Diagonals);
    assert CountIn(after, WinPatterns) >= 2;
  }
}
