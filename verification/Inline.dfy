/**
 * The inline renderer: a few live rows at the end of ordinary terminal output,
 * rewritten with cursor movements relative to the row just below them.
 */
module Inline {
  import opened Prelude
  import opened StreamRows
  import opened Terminal

  /**
   * `lines` stand from row `top` on, everything below is blank, and the cursor
   * is at the start of the row just below them.
   */
  ghost predicate Region(t: Term<Tok>, top: nat, lines: seq<Row>) {
    && top + |lines| < |t.grid|
    && (forall i | 0 <= i < |lines| :: t.grid[top + i] == lines[i])
    && (forall i | top + |lines| <= i < |t.grid| :: t.grid[i] == [])
    && t.row == top + |lines| && t.col == 0
  }

  ghost predicate AboveUntouched(t: Term<Tok>, u: Term<Tok>, top: nat) {
    && |t.grid| == |u.grid|
    && forall i | 0 <= i < top && i < |t.grid| :: u.grid[i] == t.grid[i]
  }

  /** The row at `i`, blank beyond the last. */
  function At(lines: seq<Row>, i: nat): Row {
    if i < |lines| then lines[i] else []
  }

  /** From the start of row `base`, rows `lines[first..i]` have been written over `g`. */
  ghost predicate Wrote(u: Term<Tok>, g: seq<Row>, base: nat, lines: seq<Row>, first: nat, i: nat) {
    && first <= i && |u.grid| == |g| && u.row == base + (i - first) < |g| && u.col == 0
    && forall j | 0 <= j < |g| ::
         u.grid[j] == if base <= j < base + (i - first) then At(lines, first + (j - base)) else g[j]
  }

  lemma WriteOne(u: Term<Tok>, r: Row)
    requires u.Valid() && u.col == 0 && u.row + 1 < |u.grid|
    ensures Exec(Exec(Exec(u, EraseLine), Put(r)), Lf) == Term(u.grid[u.row := r], u.row + 1, 0)
  {
    assert Overlay([], 0, r) == r;
  }

  lemma WriteNext(t: Term<Tok>, parts: seq<Cmd<Tok>>, g: seq<Row>, base: nat, lines: seq<Row>, first: nat, i: nat)
    requires t.Valid() && Wrote(Run(t, parts), g, base, lines, first, i)
    requires base + (i - first) + 1 < |g|
    ensures Wrote(Run(t, parts + [EraseLine, Put(At(lines, i)), Lf]), g, base, lines, first, i + 1)
  {
    Run3(t, parts, EraseLine, Put(At(lines, i)), Lf);
    WriteOne(Run(t, parts), At(lines, i));
  }

  /** Writes `lines[first..end]` one below the other, erasing each row first. */
  method WriteRows(parts0: seq<Cmd<Tok>>, lines: seq<Row>, first: nat, end: nat,
                   ghost t: Term<Tok>, ghost g: seq<Row>, ghost base: nat)
    returns (parts: seq<Cmd<Tok>>)
    requires t.Valid() && first <= end && base + (end - first) < |g|
    requires Wrote(Run(t, parts0), g, base, lines, first, first)
    ensures Wrote(Run(t, parts), g, base, lines, first, end)
  {
    hide Run, Exec, Wrote;
    parts := parts0;
    for i := first to end
      invariant Wrote(Run(t, parts), g, base, lines, first, i)
    {
      WriteNext(t, parts, g, base, lines, first, i);
      parts := parts + [EraseLine, Put(At(lines, i)), Lf];
    }
  }

  /** Up and carriage return from just below `old` to its row `first`. */
  lemma MoveUp(t: Term<Tok>, n: nat)
    requires t.Valid() && n <= t.row
    ensures Run(t, [Up(n), Cr]) == Term(t.grid, t.row - n, 0)
  {
    var none: seq<Cmd<Tok>> := [];
    Run2(t, none, Up(n), Cr);
    assert none + [Up(n), Cr] == [Up(n), Cr];
  }

  // ---- the full render -----------------------------------------------------------------

  method FullRender(prevLines: seq<Row>, lines: seq<Row>, ghost t: Term<Tok>, ghost top: nat)
    returns (parts: seq<Cmd<Tok>>)
    requires t.Valid() && Region(t, top, prevLines) && top + |lines| < |t.grid|
    ensures Region(Run(t, parts), top, lines)
    ensures AboveUntouched(t, Run(t, parts), top)
  {
    var oldN := |prevLines|;
    parts := [];
    assert Run(t, []) == t;
    if oldN > 0 {
      MoveUp(t, oldN);
      parts := [Up(oldN), Cr];
    }
    parts := WriteRows(parts, lines, 0, |lines|, t, t.grid, top);
    if oldN > |lines| {
      ghost var u := Run(t, parts);
      parts := WriteRows(parts, [], 0, oldN - |lines|, t, u.grid, top + |lines|);
      RunOne(t, parts, Up(oldN - |lines|));
      parts := parts + [Up(oldN - |lines|)];
    }
  }

  // ---- the diff render -------------------------------------------------------------------

  predicate Differ(prevLines: seq<Row>, lines: seq<Row>, i: nat) {
    At(prevLines, i) != At(lines, i)
  }

  /**
   * What the diff needs: as many rows as before, or a difference no further down
   * than the row just below the old ones.
   */
  ghost predicate DiffIsRight(prevLines: seq<Row>, lines: seq<Row>) {
    |prevLines| == |lines| || exists i | 0 <= i <= |prevLines| :: Differ(prevLines, lines, i)
  }

  /** The first and the last difference, or -1. */
  method FindDifferences(prevLines: seq<Row>, lines: seq<Row>) returns (first: int, last: int)
    ensures first == -1 <==> last == -1
    ensures first == -1 ==> forall i: nat :: !Differ(prevLines, lines, i)
    ensures first != -1 ==>
              && 0 <= first <= last < Max(|prevLines|, |lines|)
              && Differ(prevLines, lines, first) && Differ(prevLines, lines, last)
              && (forall i | 0 <= i < first :: !Differ(prevLines, lines, i))
              && (forall i | i > last :: !Differ(prevLines, lines, i))
  {
    first, last := -1, -1;
    for i := 0 to Max(|prevLines|, |lines|)
      invariant first == -1 <==> last == -1
      invariant first == -1 ==> forall j | 0 <= j < i :: !Differ(prevLines, lines, j)
      invariant first != -1 ==>
                  && 0 <= first <= last < i
                  && Differ(prevLines, lines, first) && Differ(prevLines, lines, last)
                  && (forall j | 0 <= j < first :: !Differ(prevLines, lines, j))
                  && (forall j | last < j < i :: !Differ(prevLines, lines, j))
    {
      if Differ(prevLines, lines, i) {
        if first == -1 {
          first := i;
        }
        last := i;
      }
    }
  }

  /**
   * Rewrites the rows from the first to the last difference.  The region is the
   * new one exactly when DiffIsRight; output above is untouched in any case.
   */
  method DiffRender(prevLines: seq<Row>, lines: seq<Row>, ghost t: Term<Tok>, ghost top: nat)
    returns (parts: seq<Cmd<Tok>>)
    requires t.Valid() && Region(t, top, prevLines) && top + |lines| < |t.grid|
    ensures Region(Run(t, parts), top, lines) <==> DiffIsRight(prevLines, lines)
    ensures AboveUntouched(t, Run(t, parts), top)
  {
    var first, last := FindDifferences(prevLines, lines);
    if first == -1 {
      NothingToDraw(prevLines, lines, t, top);
      return [];
    }
    RightIff(prevLines, lines, first, last);
    parts := RewriteRange(prevLines, lines, first, last, t, top);
  }

  /** Rows that differ nowhere, not even in blanks beyond the shorter list. */
  lemma NothingToDraw(prevLines: seq<Row>, lines: seq<Row>, t: Term<Tok>, top: nat)
    requires t.Valid() && Region(t, top, prevLines) && top + |lines| < |t.grid|
    requires forall i: nat :: !Differ(prevLines, lines, i)
    ensures Run(t, []) == t
    ensures Region(t, top, lines) <==> DiffIsRight(prevLines, lines)
    ensures DiffIsRight(prevLines, lines) <==> |prevLines| == |lines|
  {
    if |prevLines| == |lines| {
      forall i | 0 <= i < |lines| ensures prevLines[i] == lines[i] {
        assert !Differ(prevLines, lines, i);
      }
    }
  }

  /** One more row, and that row empty: nothing is drawn and the cursor stays too high. */
  lemma EmptyLastRowIsMissed(prevLines: seq<Row>)
    ensures !DiffIsRight(prevLines, prevLines + [[]])
  {
    forall i | 0 <= i <= |prevLines| ensures !Differ(prevLines, prevLines + [[]], i) {
    }
  }

  ghost predicate Bounds(prevLines: seq<Row>, lines: seq<Row>, first: nat, last: nat) {
    && first <= last < Max(|prevLines|, |lines|)
    && Differ(prevLines, lines, first)
    && (forall i | 0 <= i < first :: !Differ(prevLines, lines, i))
    && (forall i | i > last :: !Differ(prevLines, lines, i))
  }

  lemma RightIff(prevLines: seq<Row>, lines: seq<Row>, first: nat, last: nat)
    requires Bounds(prevLines, lines, first, last)
    ensures DiffIsRight(prevLines, lines) <==> first <= |prevLines|
  {
  }

  method RewriteRange(prevLines: seq<Row>, lines: seq<Row>, first: nat, last: nat,
                      ghost t: Term<Tok>, ghost top: nat)
    returns (parts: seq<Cmd<Tok>>)
    requires t.Valid() && Region(t, top, prevLines) && top + |lines| < |t.grid|
    requires Bounds(prevLines, lines, first, last)
    ensures first <= |prevLines| ==> Region(Run(t, parts), top, lines)
    ensures first > |prevLines| ==> Run(t, parts).row < top + |lines|
    ensures AboveUntouched(t, Run(t, parts), top)
  {
    hide Run, Exec;
    parts := WriteRange(prevLines, lines, first, last, t, top);
    ghost var u := Run(t, parts);
    if |prevLines| > |lines| {
      parts := Shrink(parts, |prevLines|, |lines|, last, t, u, top);
    } else {
      parts := Advance(parts, |lines| - (last + 1), t, u);
    }
    if first <= |prevLines| {
      Rewritten(prevLines, lines, first, last, t, Run(t, parts), top);
    }
  }

  /** Goes up to the first difference, if it is above, and writes to the last. */
  method WriteRange(prevLines: seq<Row>, lines: seq<Row>, first: nat, last: nat,
                    ghost t: Term<Tok>, ghost top: nat)
    returns (parts: seq<Cmd<Tok>>)
    requires t.Valid() && Region(t, top, prevLines) && top + |lines| < |t.grid|
    requires first <= last < Max(|prevLines|, |lines|)
    ensures Wrote(Run(t, parts), t.grid, top + Min(first, |prevLines|), lines, first, last + 1)
  {
    parts := [];
    assert Run(t, []) == t;
    if |prevLines| > first {
      MoveUp(t, |prevLines| - first);
      parts := [Up(|prevLines| - first), Cr];
    }
    hide Run, Exec;
    parts := WriteRows(parts, lines, first, last + 1, t, t.grid, top + Min(first, |prevLines|));
  }

  method Advance(parts0: seq<Cmd<Tok>>, forward: nat, ghost t: Term<Tok>, ghost u: Term<Tok>)
    returns (parts: seq<Cmd<Tok>>)
    requires t.Valid() && u == Run(t, parts0) && u.row + forward < |u.grid|
    ensures Run(t, parts) == u.(row := u.row + forward)
  {
    parts := parts0;
    if forward > 0 {
      RunOne(t, parts, Down(forward));
      parts := parts + [Down(forward)];
    }
  }

  /** Fewer rows than before: the remaining old rows are erased, the cursor goes back. */
  method Shrink(parts0: seq<Cmd<Tok>>, oldN: nat, newN: nat, last: nat,
                ghost t: Term<Tok>, ghost u: Term<Tok>, ghost top: nat)
    returns (parts: seq<Cmd<Tok>>)
    requires t.Valid() && u == Run(t, parts0) && newN < oldN && last < oldN && top + oldN < |u.grid|
    requires u.row == top + last + 1 && u.col == 0
    ensures var v := Run(t, parts);
            && |v.grid| == |u.grid| && v.row == top + newN && v.col == 0
            && forall j | 0 <= j < |v.grid| ::
                 v.grid[j] == if top + Max(last + 1, newN) <= j < top + oldN then [] else u.grid[j]
  {
    var clearFrom := Max(last + 1, newN);
    var gap := clearFrom - (last + 1);
    parts := parts0;
    if gap > 0 {
      RunOne(t, parts, Down(gap));
      parts := parts + [Down(gap)];
    }
    parts := WriteRows(parts, [], 0, oldN - clearFrom, t, u.grid, top + clearFrom);
    RunOne(t, parts, Up(oldN - newN));
    parts := parts + [Up(oldN - newN)];
  }

  /** A screen with the differing rows rewritten is the new region. */
  lemma Rewritten(prevLines: seq<Row>, lines: seq<Row>, first: nat, last: nat,
                  t: Term<Tok>, v: Term<Tok>, top: nat)
    requires Region(t, top, prevLines) && top + |lines| < |t.grid| && |v.grid| == |t.grid|
    requires first <= last < Max(|prevLines|, |lines|)
    requires forall i | 0 <= i < first :: !Differ(prevLines, lines, i)
    requires forall i | i > last :: !Differ(prevLines, lines, i)
    requires v.row == top + |lines| && v.col == 0
    requires forall j | 0 <= j < |v.grid| ::
               v.grid[j] == if top + first <= j <= top + last then At(lines, j - top)
                            else if top + Max(last + 1, |lines|) <= j < top + |prevLines| then [] else t.grid[j]
    ensures Region(v, top, lines)
  {
    forall i | 0 <= i < |lines| ensures v.grid[top + i] == lines[i] {
      if i < first || i > last {
        assert !Differ(prevLines, lines, i);
      }
    }
    forall j | top + |lines| <= j < |v.grid| ensures v.grid[j] == [] {
      if j - top > last || j - top < first {
        assert !Differ(prevLines, lines, j - top);
      }
    }
  }

  // ---- printing above -----------------------------------------------------------------------

  /** A message goes where the live rows were, and they follow it. */
  method PrintAbove(prevLines: seq<Row>, msg: seq<Row>, ghost t: Term<Tok>, ghost top: nat)
    returns (parts: seq<Cmd<Tok>>)
    requires t.Valid() && Region(t, top, prevLines) && top + |msg| + |prevLines| < |t.grid|
    ensures Region(Run(t, parts), top + |msg|, prevLines)
    ensures AboveUntouched(t, Run(t, parts), top)
    ensures forall i | 0 <= i < |msg| :: Run(t, parts).grid[top + i] == msg[i]
  {
    hide Run, Exec, Wrote, Region, Cleared;
    parts := Clear(prevLines, t, top);
    ghost var u := Run(t, parts);
    ClearedIs(u, t, top);
    parts := WriteMessage(parts, msg, t, u.grid, top);
    ghost var v := Run(t, parts);
    MessageWritten(v, u.grid, top, msg, prevLines);
    parts := WriteRows(parts, prevLines, 0, |prevLines|, t, v.grid, top + |msg|);
    RegionBelow(Run(t, parts), v.grid, top, msg, prevLines);
  }

  /** Above `top` as in `t`, blank from there on, and the cursor there. */
  ghost predicate Cleared(u: Term<Tok>, t: Term<Tok>, top: nat) {
    && |u.grid| == |t.grid| && u.row == top && u.col == 0
    && forall j | 0 <= j < |t.grid| :: u.grid[j] == if j < top then t.grid[j] else []
  }

  lemma ClearedIs(u: Term<Tok>, t: Term<Tok>, top: nat)
    requires u.Valid() && Cleared(u, t, top)
    ensures |u.grid| == |t.grid| && u == Term(u.grid, top, 0)
    ensures forall j | 0 <= j < top && j < |t.grid| :: u.grid[j] == t.grid[j]
    ensures forall j | top <= j < |u.grid| :: u.grid[j] == []
  {
  }

  method Clear(prevLines: seq<Row>, ghost t: Term<Tok>, ghost top: nat) returns (parts: seq<Cmd<Tok>>)
    requires t.Valid() && Region(t, top, prevLines)
    ensures Cleared(Run(t, parts), t, top)
  {
    parts := [];
    assert Run(t, []) == t;
    hide Run, Exec;
    if prevLines != [] {
      parts := EraseRegion(|prevLines|, t, top);
    }
  }

  lemma MessageWritten(v: Term<Tok>, g: seq<Row>, top: nat, msg: seq<Row>, lines: seq<Row>)
    requires Wrote(v, g, top, msg, 0, |msg|) && top + |msg| < |g|
    requires forall j | top <= j < |g| :: g[j] == []
    ensures |v.grid| == |g|
    ensures Wrote(v, v.grid, top + |msg|, lines, 0, 0)
    ensures forall i | 0 <= i < |msg| :: v.grid[top + i] == msg[i]
    ensures forall j | 0 <= j < top :: v.grid[j] == g[j]
    ensures forall j | top + |msg| <= j < |g| :: v.grid[j] == []
  {
  }

  lemma RegionBelow(v: Term<Tok>, g: seq<Row>, top: nat, msg: seq<Row>, lines: seq<Row>)
    requires Wrote(v, g, top + |msg|, lines, 0, |lines|) && top + |msg| + |lines| < |g|
    requires forall j | top + |msg| <= j < |g| :: g[j] == []
    requires forall i | 0 <= i < |msg| :: g[top + i] == msg[i]
    ensures Region(v, top + |msg|, lines)
    ensures |v.grid| == |g| && forall j | 0 <= j < top + |msg| :: v.grid[j] == g[j]
  {
  }

  /** Blanks the `n` live rows and returns to the first of them. */
  method EraseRegion(n: nat, ghost t: Term<Tok>, ghost top: nat) returns (parts: seq<Cmd<Tok>>)
    requires t.Valid() && n > 0 && t.row == top + n && t.col == 0
    ensures var u := Run(t, parts);
            && |u.grid| == |t.grid| && u.row == top && u.col == 0
            && forall j | 0 <= j < |t.grid| :: u.grid[j] == if top <= j < top + n then [] else t.grid[j]
  {
    MoveUp(t, n);
    parts := [Up(n), Cr];
    for i := 0 to n
      invariant var u := Run(t, parts);
                && |u.grid| == |t.grid| && u.col == 0 && u.row == top + Min(i, n - 1)
                && forall j | 0 <= j < |t.grid| :: u.grid[j] == if top <= j < top + i then [] else t.grid[j]
    {
      RunOne(t, parts, EraseLine);
      parts := parts + [EraseLine];
      if i < n - 1 {
        RunOne(t, parts, Lf);
        parts := parts + [Lf];
      }
    }
    if n > 1 {
      Run2(t, parts, Up(n - 1), Cr);
      parts := parts + [Up(n - 1), Cr];
    } else {
      RunOne(t, parts, Cr);
      parts := parts + [Cr];
    }
  }

  /** The message's rows, each ended by a line feed, on rows that are blank. */
  method WriteMessage(parts0: seq<Cmd<Tok>>, msg: seq<Row>, ghost t: Term<Tok>, ghost g: seq<Row>, ghost top: nat)
    returns (parts: seq<Cmd<Tok>>)
    requires t.Valid() && Run(t, parts0) == Term(g, top, 0) && top + |msg| < |g|
    requires forall j | top <= j < |g| :: g[j] == []
    ensures Wrote(Run(t, parts), g, top, msg, 0, |msg|)
  {
    parts := parts0;
    for i := 0 to |msg|
      invariant Wrote(Run(t, parts), g, top, msg, 0, i)
    {
      Run2(t, parts, Put(msg[i]), Lf);
      assert Overlay([], 0, msg[i]) == msg[i];
      parts := parts + [Put(msg[i]), Lf];
    }
  }

  // ---- the renderer ----------------------------------------------------------------------------

  class InlineDiffRenderer {
    var prevLines: seq<Row>
    var width: nat
    ghost var term: Term<Tok>
    ghost var top: nat

    ghost predicate Valid()
      reads this
    {
      term.Valid() && Region(term, top, prevLines)
    }

    constructor (ghost start: Term<Tok>)
      requires start.Valid() && Region(start, start.row, [])
      ensures Valid() && prevLines == [] && term == start
    {
      prevLines, width, term, top := [], 0, start, start.row;
    }

    /** Draws new live rows; after a width change, or at first, in full. */
    method Update(lines: seq<Row>, newWidth: nat)
      requires Valid() && top + |lines| < |term.grid|
      modifies this
      ensures prevLines == lines && width == newWidth && top == old(top)
      ensures AboveUntouched(old(term), term, top)
      ensures Valid() <==> old(prevLines) == [] || newWidth != old(width) || DiffIsRight(old(prevLines), lines)
    {
      var parts;
      if prevLines == [] || newWidth != width {
        parts := FullRender(prevLines, lines, term, top);
      } else {
        parts := DiffRender(prevLines, lines, term, top);
      }
      term := Run(term, parts);
      prevLines, width := lines, newWidth;
    }

    method Print(msg: seq<Row>)
      requires Valid() && top + |msg| + |prevLines| < |term.grid|
      modifies this
      ensures Valid() && prevLines == old(prevLines) && width == old(width) && top == old(top) + |msg|
      ensures AboveUntouched(old(term), term, old(top))
      ensures forall i | 0 <= i < |msg| :: term.grid[old(top) + i] == msg[i]
    {
      var parts := PrintAbove(prevLines, msg, term, top);
      term := Run(term, parts);
      top := top + |msg|;
    }
  }
}
