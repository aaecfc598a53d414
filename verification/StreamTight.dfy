/**
 * Rows are as full as they can be, and line breaks separate rows: what the
 * drawing of the rows alone does not say.
 */
module StreamTight {
  import opened Prelude
  import opened StreamRows
  import opened StreamBatch

  /** The width of the first cluster that takes room; 0 if there is none. */
  function FirstSolid(row: seq<Tok>): nat {
    if row == [] then 0
    else
      var n := |row| - 1;
      if FirstSolid(row[..n]) > 0 then FirstSolid(row[..n]) else if row[n].Glyph? then row[n].cells else 0
  }

  lemma SolidSnoc(row: seq<Tok>, t: Tok)
    ensures FirstSolid(row + [t])
         == if FirstSolid(row) > 0 then FirstSolid(row) else if t.Glyph? then t.cells else 0
  {
    assert (row + [t])[..|row|] == row;
  }

  lemma {:induction false} StylesAreNotSolid(row: seq<Tok>)
    requires OnlySgr(row)
    ensures FirstSolid(row) == 0
    decreases row
  {
    if row != [] {
      assert row[|row| - 1] in row;
      StylesAreNotSolid(row[..|row| - 1]);
    }
  }

  /** The first cluster of `next` would not have fitted on `row`. */
  ghost predicate NoRoom(row: Row, next: seq<Tok>, w: nat) {
    Width(row) >= w || Width(row) + FirstSolid(next) > w
  }

  function NextRow(rows: seq<Row>, current: Row, i: nat): Row
    requires i < |rows|
  {
    if i + 1 < |rows| then rows[i + 1] else current
  }

  /** From row `from` on, each completed row had no room for what begins the next. */
  ghost predicate Tight(rows: seq<Row>, current: Row, from: nat, w: nat) {
    forall i | from <= i < |rows| :: NoRoom(rows[i], NextRow(rows, current, i), w)
  }

  /** Inside a line: the rows since its start are tight, and widths are as recorded. */
  ghost predicate TightState(s: State, w: nat) {
    && s.lineStart <= |s.rows| && Tight(s.rows, s.current, s.lineStart, w)
    && OnlySgr(s.active) && s.col == Width(s.current)
  }

  lemma CloseWidth(current: Row, active: seq<Tok>)
    ensures Width(Close(current, active)) == Width(current)
    ensures FirstSolid(Close(current, active)) == FirstSolid(current)
  {
    Snoc(current, PLAIN);
    SolidSnoc(current, PLAIN);
  }

  /** Only the row in progress changed, and what begins it is the same or was nothing. */
  lemma TightKept(rows: seq<Row>, current: Row, next: Row, from: nat, w: nat)
    requires Tight(rows, current, from, w) && FirstSolid(next) >= FirstSolid(current)
    ensures Tight(rows, next, from, w)
  {
  }

  /** Completing a row for a cluster that begins the next one. */
  lemma TightGrows(rows: seq<Row>, current: Row, row: Row, next: Row, from: nat, w: nat)
    requires Tight(rows, current, from, w) && from <= |rows|
    requires FirstSolid(row) == FirstSolid(current) && NoRoom(row, next, w)
    ensures Tight(rows + [row], next, from, w)
  {
    forall i | from <= i < |rows + [row]|
      ensures NoRoom((rows + [row])[i], NextRow(rows + [row], next, i), w)
    {
      if i < |rows| {
        assert NoRoom(rows[i], NextRow(rows, current, i), w);
      }
    }
  }

  lemma SgrTight(s: State, t: Tok, w: nat)
    requires TightState(s, w) && t.Sgr?
    ensures TightState(Step(s, t, w), w) && Step(s, t, w).lineStart == s.lineStart
  {
    SolidSnoc(s.current, t);
    Snoc(s.current, t);
    StylesAreNotSolid(s.active);
    StylesAreNotSolid([]);
    var u := Step(s, t, w);
    if u.current == [] {
      assert s.current == (s.current + [t])[..|s.current|] == (s.active + [t])[..|s.active|] == s.active;
    }
    hide FirstSolid, Width, Tight, IsReset;
    TightKept(s.rows, s.current, u.current, s.lineStart, w);
  }

  /** A cluster put on a row that has room for it, or on an empty one. */
  lemma PlaceTight(s: State, t: Tok, w: nat)
    requires TightState(s, w) && t.Glyph?
    ensures TightState(Place(s, t, w), w) && Place(s, t, w).lineStart == s.lineStart
  {
    SolidSnoc(s.current, t);
    Snoc(s.current, t);
    var a := Add(s, t).(col := s.col + t.cells);
    CloseWidth(a.current, a.active);
    SgrDrawsNothing(a.active);
    hide FirstSolid, Width, Tight;
    TightKept(s.rows, s.current, a.current, s.lineStart, w);
    if a.col >= w {
      TightGrows(a.rows, a.current, Close(a.current, a.active), a.active, s.lineStart, w);
    }
  }

  lemma GlyphTight(s: State, t: Tok, w: nat)
    requires TightState(s, w) && t.Glyph?
    ensures TightState(Step(s, t, w), w) && Step(s, t, w).lineStart == s.lineStart
  {
    if t.cells > 0 && s.col > 0 && s.col + t.cells > w {
      OverflowTight(s, t, w);
    } else {
      PlaceTight(s, t, w);
    }
  }

  /** A row closed early, for the cluster that did not fit. */
  lemma OverflowTight(s: State, t: Tok, w: nat)
    requires TightState(s, w) && t.Glyph? && t.cells > 0 && s.col + t.cells > w
    ensures TightState(Place(Emit(s), t, w), w) && Place(Emit(s), t, w).lineStart == s.lineStart
  {
    var e := Emit(s);
    var a := Add(e, t).(col := t.cells);
    CloseWidth(s.current, s.active);
    SgrDrawsNothing(s.active);
    StylesAreNotSolid(s.active);
    SolidSnoc(s.active, t);
    Snoc(s.active, t);
    CloseWidth(a.current, a.active);
    hide FirstSolid, Width, Tight;
    TightGrows(s.rows, s.current, Close(s.current, s.active), a.current, s.lineStart, w);
    if a.col >= w {
      TightGrows(a.rows, a.current, Close(a.current, a.active), a.active, s.lineStart, w);
    }
  }

  lemma {:induction false} FeedTight(s: State, line: seq<Tok>, w: nat)
    requires TightState(s, w) && Break !in line
    ensures TightState(Feed(s, line, w), w) && Feed(s, line, w).lineStart == s.lineStart
    decreases line
  {
    if line != [] {
      var n := |line| - 1;
      FeedTight(s, line[..n], w);
      assert line[n] in line;
      hide TightState, Step;
      if line[n].Glyph? {
        GlyphTight(Feed(s, line[..n], w), line[n], w);
      } else {
        SgrTight(Feed(s, line[..n], w), line[n], w);
      }
    }
  }

  /**
   * Rows of a line are broken only where they must be: at every break inside a line
   * that the text did not ask for, the row was full or the first cluster of the next
   * row would not have fitted.  `before` ends with a line break or is empty.
   */
  lemma RowsAreTight(before: seq<Tok>, line: seq<Tok>, w: nat)
    requires before == [] || before[|before| - 1].Break?
    requires Break !in line
    ensures var s, u := Feed(FRESH, before, w), Feed(FRESH, before + line, w);
            Tight(u.rows, u.current, |s.rows|, w) && |s.rows| <= |u.rows|
  {
    var s := Feed(FRESH, before, w);
    FeedConcat(FRESH, before, line, w);
    LineStarts(before, w);
    FeedTight(s, line, w);
  }

  lemma LineStarts(before: seq<Tok>, w: nat)
    requires before == [] || before[|before| - 1].Break?
    ensures var s := Feed(FRESH, before, w); AtStart(s) && TightState(s, w) && s.lineStart == |s.rows|
  {
    var lines := SplitLines(before);
    var n := |lines| - 1;
    SplitTokens(before);
    FeedByLines(before, w);
    StartsRight(lines[..n], w);
    var s := Feed(FRESH, before, w);
    assert lines[n] == [];
    assert s == StartAfter(lines[..n], w);
    SgrDrawsNothing(s.active);
    hide Feed, StartAfter, SplitLines;
  }

  // ---- line breaks ---------------------------------------------------------------------------------

  /**
   * A line break ends a row: everything before it is in completed rows, at least one
   * of them since the break before it, and nothing before it is on a later row.
   */
  lemma BreaksSeparate(before: seq<Tok>, line: seq<Tok>, after: seq<Tok>, w: nat)
    requires w > 0 && (before == [] || before[|before| - 1].Break?) && Break !in line
    ensures var s, u := Feed(FRESH, before, w), Feed(FRESH, before + line + [Break], w);
            var v := Feed(FRESH, before + line + [Break] + after, w);
            && DrawRows(u.rows) == Draw(before + line) && Draw(u.current) == []
            && |s.rows| < |u.rows| && s.rows <= u.rows <= v.rows
            && u.rows <= View(v)
  {
    var x := before + line;
    var s, t := Feed(FRESH, before, w), Feed(FRESH, x, w);
    var u := Feed(FRESH, x + [Break], w);
    LineStarts(before, w);
    FeedConcat(FRESH, before, line, w);
    FeedTight(s, line, w);
    RowsGrow(s, line, w);
    FeedNextTok(x, Break, w);
    FeedFaithful(x, w);
    FeedFaithful(x + [Break], w);
    FeedConcat(FRESH, x + [Break], after, w);
    RowsGrow(u, after, w);
    Snoc(x, Break);
    SgrDrawsNothing(u.active);
    hide Feed, DrawRows, Draw, FirstSolid, Width, StyleAfter;
    assert DrawRows(u.rows) + [] == DrawRows(u.rows);
  }

  lemma FeedNextTok(toks: seq<Tok>, t: Tok, w: nat)
    ensures Feed(FRESH, toks + [t], w) == Step(Feed(FRESH, toks, w), t, w)
  {
    assert (toks + [t])[..|toks|] == toks;
    hide Step;
  }
}
