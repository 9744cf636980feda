/** Win-line evaluation on a 3x3 bingo card (bingo/bingo.py `count_lines`, `line_breakdown`,
    and the page script's `countFullLines`). Cell `i` of a card sits at row `i / 3`,
    column `i % 3`. */
module Lines {
  import opened Wrappers

  /** Three cell indices that together form a winning line. */
  datatype Line = Line(a: nat, b: nat, c: nat)

  const Rows: seq<Line> := [Line(0, 1, 2), Line(3, 4, 5), Line(6, 7, 8)]
  const Columns: seq<Line> := [Line(0, 3, 6), Line(1, 4, 7), Line(2, 5, 8)]
  const Diagonals: seq<Line> := [Line(0, 4, 8), Line(2, 4, 6)]

  /** The eight winning lines, in the order the source lists them. */
  const WinPatterns: seq<Line> := Rows + Columns + Diagonals

  /** The marked state of a card's cells, by index. */
  type Mask = seq<bool>

  /** Every cell of `l` exists and is marked. A cell beyond the end of the mask counts as
      unmarked, which is how the page script reads a missing grid item. */
  predicate Complete(mask: Mask, l: Line) {
    l.a < |mask| && l.b < |mask| && l.c < |mask| && mask[l.a] && mask[l.b] && mask[l.c]
  }

  /** Python's `all(mask)`. */
  predicate AllMarked(mask: Mask) {
    forall i :: 0 <= i < |mask| ==> mask[i]
  }

  /** The number of lines of `lines` that are complete, counted one line at a time. */
  function CountIn(mask: Mask, lines: seq<Line>): (n: nat)
    ensures n <= |lines|
  {
    if lines == [] then 0
    else CountIn(mask, lines[..|lines| - 1]) + (if Complete(mask, lines[|lines| - 1]) then 1 else 0)
  }

  /** The indices of the winning patterns among the first `n` that are complete. */
  function CompleteIndices(mask: Mask, n: nat): set<nat>
    requires n <= |WinPatterns|
  {
    set k: nat | k < n && Complete(mask, WinPatterns[k])
  }

  /** `count_lines(selected_mask)`: the number of the eight fixed patterns whose cells are all
      marked. The source documents its argument as a list of nine booleans. */
  function CountLines(mask: Mask): (n: nat)
    requires |mask| == 9
    ensures n <= 8
    ensures n == |CompleteIndices(mask, 8)|
  {
    CountLinesIsNumberOfCompletePatterns(mask, 8);
    assert WinPatterns[..8] == WinPatterns;
    CountIn(mask, WinPatterns)
  }

  /** Counting pattern by pattern agrees with the size of the set of complete patterns. */
  lemma {:induction false} CountLinesIsNumberOfCompletePatterns(mask: Mask, n: nat)
    requires n <= |WinPatterns|
    ensures CountIn(mask, WinPatterns[..n]) == |CompleteIndices(mask, n)|
  {
    if n > 0 {
      CountLinesIsNumberOfCompletePatterns(mask, n - 1);
      assert WinPatterns[..n][..n - 1] == WinPatterns[..n - 1];
      var prev := CompleteIndices(mask, n - 1);
      if Complete(mask, WinPatterns[n - 1]) {
        assert CompleteIndices(mask, n) == prev + {n - 1};
      } else {
        assert CompleteIndices(mask, n) == prev;
      }
    } else {
      assert CompleteIndices(mask, 0) == {};
    }
  }

  /** Counting over a concatenation of pattern lists adds the counts. */
  lemma {:induction false} CountInConcat(mask: Mask, xs: seq<Line>, ys: seq<Line>)
    ensures CountIn(mask, xs + ys) == CountIn(mask, xs) + CountIn(mask, ys)
    decreases |ys|
  {
    if ys != [] {
      CountInConcat(mask, xs, ys[..|ys| - 1]);
      assert (xs + ys)[..|xs + ys| - 1] == xs + ys[..|ys| - 1];
    } else {
      assert xs + ys == xs;
    }
  }

  /** Marking more cells never completes fewer lines. */
  lemma {:induction false} CountInMonotone(m1: Mask, m2: Mask, lines: seq<Line>)
    requires |m1| <= |m2|
    requires forall i :: 0 <= i < |m1| && m1[i] ==> m2[i]
    ensures CountIn(m1, lines) <= CountIn(m2, lines)
  {
    if lines != [] {
      CountInMonotone(m1, m2, lines[..|lines| - 1]);
    }
  }

  /** Every line of `lines` lies on the 3x3 card. */
  predicate OnCard(lines: seq<Line>) {
    forall k :: 0 <= k < |lines| ==> lines[k].a < 9 && lines[k].b < 9 && lines[k].c < 9
  }

  /** On a card with every cell marked every line is complete; on one with no cell marked none is. */
  lemma {:induction false} CountInUniform(mask: Mask, lines: seq<Line>)
    requires |mask| >= 9 && OnCard(lines)
    ensures AllMarked(mask) ==> CountIn(mask, lines) == |lines|
    ensures (forall i :: 0 <= i < |mask| ==> !mask[i]) ==> CountIn(mask, lines) == 0
  {
    if lines != [] {
      CountInUniform(mask, lines[..|lines| - 1]);
    }
  }

  /** An all-unmarked card has no line; a fully marked card has all eight. */
  lemma CountLinesExtremes()
    ensures CountLines(seq(9, _ => false)) == 0
    ensures CountLines(seq(9, _ => true)) == 8
  {
    CountInUniform(seq(9, _ => false), WinPatterns);
    CountInUniform(seq(9, _ => true), WinPatterns);
  }

  /** Evaluating `mask[a] and mask[b] and mask[c]` in Python: the cells are read left to right,
      reading stops at the first unmarked one, and reading past the end of the list raises
      `IndexError` (here `None`). */
  function Probe(mask: Mask, l: Line): (r: Option<bool>)
    ensures |mask| >= 9 && l.a < 9 && l.b < 9 && l.c < 9 ==> r == Some(Complete(mask, l))
    ensures r.Some? ==> r.value == Complete(mask, l)
  {
    if l.a >= |mask| then None
    else if !mask[l.a] then Some(false)
    else if l.b >= |mask| then None
    else if !mask[l.b] then Some(false)
    else if l.c >= |mask| then None
    else Some(mask[l.c])
  }

  /** `sum(1 for a, b, c in lines if mask[a] and mask[b] and mask[c])`, or `None` when any
      evaluation raises. */
  function ProbeCount(mask: Mask, lines: seq<Line>): (r: Option<nat>)
    ensures r.Some? ==> r.value == CountIn(mask, lines)
  {
    if lines == [] then Some(0)
    else
      match (ProbeCount(mask, lines[..|lines| - 1]), Probe(mask, lines[|lines| - 1]))
      case (Some(n), Some(b)) => Some(n + if b then 1 else 0)
      case _ => None
  }

  /** On a mask of at least nine cells no evaluation raises. */
  lemma {:induction false} ProbeCountTotal(mask: Mask, lines: seq<Line>)
    requires OnCard(lines)
    ensures |mask| >= 9 ==> ProbeCount(mask, lines).Some?
  {
    if lines != [] {
      ProbeCountTotal(mask, lines[..|lines| - 1]);
    }
  }

  /** The per-direction counts of `line_breakdown`. */
  datatype Breakdown = Breakdown(h: nat, v: nat, d: nat) {
    /** The `total` entry: all complete lines. */
    function Total(): nat { h + v + d }
  }

  /** `line_breakdown(mask)`: complete rows, columns and diagonals, or `None` when the mask is
      too short for Python's evaluation (an `IndexError`). */
  function LineBreakdown(mask: Mask): (r: Option<Breakdown>)
    ensures |mask| >= 9 ==> r.Some?
    ensures r.Some? ==> r.value.h <= 3 && r.value.v <= 3 && r.value.d <= 2
    ensures r.Some? ==> r.value.Total() == CountIn(mask, WinPatterns)
    ensures |mask| == 9 ==> r.Some? && r.value.Total() == CountLines(mask)
  {
    ProbeCountTotal(mask, Rows);
    ProbeCountTotal(mask, Columns);
    ProbeCountTotal(mask, Diagonals);
    CountInConcat(mask, Rows, Columns);
    CountInConcat(mask, Rows + Columns, Diagonals);
    match (ProbeCount(mask, Rows), ProbeCount(mask, Columns), ProbeCount(mask, Diagonals))
    case (Some(h), Some(v), Some(d)) => Some(Breakdown(h, v, d))
    case _ => None
  }

  /** A fully marked mask on which `line_breakdown` does not raise has at least nine cells, so
      all eight lines are complete. */
  lemma BreakdownOfFullMask(mask: Mask)
    requires AllMarked(mask)
    requires LineBreakdown(mask).Some?
    ensures |mask| >= 9
    ensures LineBreakdown(mask).value.Total() == 8
  {
    CountInUniform(mask, WinPatterns);
  }

  /** A short mask raises once it is fully marked: reading a line runs past its end. */
  lemma ShortFullMaskRaises(mask: Mask)
    requires AllMarked(mask) && |mask| < 9
    ensures LineBreakdown(mask).None?
  {
    if LineBreakdown(mask).Some? {
      BreakdownOfFullMask(mask);
    }
  }

  /** A short mask with cells 0 to 6 unmarked does not raise: every line stops at its first,
      unmarked cell before reading past the end. */
  lemma ShortEmptyMaskQuiet(mask: Mask)
    requires 7 <= |mask| && forall i :: 0 <= i < |mask| ==> !mask[i]
    ensures LineBreakdown(mask) == Some(Breakdown(0, 0, 0))
  {
    ProbeCountStopsAtFirst(mask, Rows);
    ProbeCountStopsAtFirst(mask, Columns);
    ProbeCountStopsAtFirst(mask, Diagonals);
  }

  /** Lines whose first cell exists and is unmarked are all read without raising, and none is
      complete. */
  lemma {:induction false} ProbeCountStopsAtFirst(mask: Mask, lines: seq<Line>)
    requires forall k :: 0 <= k < |lines| ==> lines[k].a < |mask| && !mask[lines[k].a]
    ensures ProbeCount(mask, lines) == Some(0)
  {
    if lines != [] {
      ProbeCountStopsAtFirst(mask, lines[..|lines| - 1]);
    }
  }
}
