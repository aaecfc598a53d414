/**
 * The batch form of wrapping, which splits the text into logical lines first,
 * and when the incremental form refines it.
 */
module StreamBatch {
  import opened Prelude
  import opened StreamRows

  /** A logical line being wrapped. */
  datatype Line = Line(rows: seq<Row>, current: Row, col: nat, active: seq<Tok>)

  function EmitLine(l: Line): Line {
    Line(l.rows + [Close(l.current, l.active)], l.active, 0, l.active)
  }

  function LineStep(l: Line, t: Tok, w: nat): Line {
    match t
    case Break => l
    case Sgr(_) => l.(current := l.current + [t], active := if t.Resets() then [] else l.active + [t])
    case Glyph(_, cells) =>
      var b := if cells > 0 && l.col > 0 && l.col + cells > w then EmitLine(l) else l;
      var a := b.(current := b.current + [t], col := b.col + cells);
      if a.col >= w then EmitLine(a) else a
  }

  function LineFold(active: seq<Tok>, toks: seq<Tok>, w: nat): Line {
    if toks == [] then Line([], active, 0, active)
    else LineStep(LineFold(active, toks[..|toks| - 1], w), toks[|toks| - 1], w)
  }

  /** The rows of one logical line that begins in style `active`. */
  function LineRows(active: seq<Tok>, toks: seq<Tok>, w: nat): seq<Row> {
    var l := LineFold(active, toks, w);
    if toks == [] then [Close(active, active)]
    else l.rows + if l.col > 0 || (l.rows == [] && l.current != []) then [Close(l.current, l.active)] else []
  }

  /** `text.split("\n")`. */
  function SplitLines(toks: seq<Tok>): (lines: seq<seq<Tok>>)
    ensures |lines| >= 1
  {
    if toks == [] then [[]]
    else
      var t := toks[|toks| - 1];
      var before := SplitLines(toks[..|toks| - 1]);
      var n := |before| - 1;
      if t.Break? then before + [[]] else before[..n] + [before[n] + [t]]
  }

  function ActiveAfter(lines: seq<seq<Tok>>, w: nat): seq<Tok> {
    if lines == [] then []
    else LineFold(ActiveAfter(lines[..|lines| - 1], w), lines[|lines| - 1], w).active
  }

  function BatchRows(lines: seq<seq<Tok>>, w: nat): seq<Row> {
    if lines == [] then []
    else
      var n := |lines| - 1;
      BatchRows(lines[..n], w) + LineRows(ActiveAfter(lines[..n], w), lines[n], w)
  }

  /** All rows of a text, computed at once. */
  function FromAnsi(toks: seq<Tok>, w: nat): seq<Row> {
    if toks == [] || w == 0 then [] else BatchRows(SplitLines(toks), w)
  }

  /** The same in the form of the source: two nested index loops. */
  method StreamRowsFromAnsi(toks: seq<Tok>, w: nat) returns (rows: seq<Row>)
    ensures rows == FromAnsi(toks, w)
  {
    rows := [];
    if toks == [] || w == 0 {
      return;
    }
    hide LineFold, LineStep, SplitLines;
    var active: seq<Tok> := [];
    var lines := SplitLines(toks);
    for k := 0 to |lines|
      invariant active == ActiveAfter(lines[..k], w) && rows == BatchRows(lines[..k], w)
    {
      var logical := lines[k];
      assert lines[..k + 1][..k] == lines[..k];
      var l := WrapLine(active, logical, w);
      if logical == [] {
        rows := rows + [Close(active, active)];
      } else {
        rows := rows + (l.rows + if l.col > 0 || (l.rows == [] && l.current != [])
                                 then [Close(l.current, l.active)] else []);
      }
      active := l.active;
    }
    assert lines[..|lines|] == lines;
  }

  method WrapLine(active: seq<Tok>, logical: seq<Tok>, w: nat) returns (l: Line)
    ensures l == LineFold(active, logical, w)
  {
    hide LineStep;
    l := Line([], active, 0, active);
    for i := 0 to |logical|
      invariant l == LineFold(active, logical[..i], w)
    {
      assert logical[..i + 1][..i] == logical[..i];
      l := LineStep(l, logical[i], w);
    }
    assert logical[..|logical|] == logical;
  }

  // ---- the two forms, line by line -----------------------------------------------------

  /** The tokens put on the row in progress, and whether a full row opened with a reset. */
  datatype Trace = Trace(tail: seq<Tok>, lost: bool)

  /** Nothing but style settings comes before a first reset. */
  predicate Opens(row: seq<Tok>) {
    row != [] &&
    var n := |row| - 1;
    Opens(row[..n]) || (OnlySgr(row[..n]) && row[n].Resets())
  }

  predicate GlyphFree(row: seq<Tok>) {
    forall t | t in row :: !t.Glyph?
  }

  /** No cluster, and every style set is reset again. */
  predicate Invisible(row: seq<Tok>) {
    GlyphFree(row) && (row == [] || row[|row| - 1].Resets())
  }

  function TraceStep(k: Trace, l: Line, t: Tok, w: nat): Trace {
    if !t.Glyph? then k.(tail := k.tail + [t])
    else
      var early := t.cells > 0 && l.col > 0 && l.col + t.cells > w;
      var b := if early then Trace([], k.lost || Opens(k.tail)) else k;
      if (if early then 0 else l.col) + t.cells >= w then Trace([], b.lost || Opens(b.tail))
      else b.(tail := b.tail + [t])
  }

  function TraceFold(active: seq<Tok>, toks: seq<Tok>, w: nat): Trace {
    if toks == [] then Trace([], false)
    else
      var n := |toks| - 1;
      TraceStep(TraceFold(active, toks[..n], w), LineFold(active, toks[..n], w), toks[n], w)
  }

  /** Whether the batch form keeps the row a line ends in. */
  predicate KeepsLast(active: seq<Tok>, line: seq<Tok>, w: nat) {
    var l := LineFold(active, line, w);
    l.col > 0 || l.rows == []
  }

  /** No row that the batch form keeps of this line opens with a reset. */
  predicate OpensPlainly(active: seq<Tok>, line: seq<Tok>, w: nat) {
    var k := TraceFold(active, line, w);
    !k.lost && (KeepsLast(active, line, w) ==> !Opens(k.tail))
  }

  /** After its last full row the line has tokens, which take no room, but is not invisible there. */
  predicate Ragged(active: seq<Tok>, line: seq<Tok>, w: nat) {
    !KeepsLast(active, line, w) && !Invisible(TraceFold(active, line, w).tail)
  }

  /** Where the incremental form starts a logical line; `blank` after a line break. */
  ghost predicate AtStart(s: State) {
    && s.current == s.active && OnlySgr(s.active) && s.col == 0
    && s.lineStart == |s.rows| && !s.content
  }

  /** How the incremental state stands to the batch form of the same line. */
  ghost predicate Alongside(s: State, l: Line, k: Trace, done: seq<Row>) {
    && s.active == l.active && OnlySgr(l.active) && s.col == l.col
    && s.lineStart == |done| && |s.rows| == |done| + |l.rows|
    && (s.rows == done + l.rows <==> !k.lost)
    && (if Opens(k.tail) then |s.current| < |l.current| else s.current == l.current)
    && (if GlyphFree(k.tail)
        then s.current == s.active && s.col == 0 && (s.content <==> !Invisible(k.tail))
        else s.content && !GlyphFree(s.current))
  }

  lemma {:induction false} GlyphFreeOpens(row: seq<Tok>)
    requires GlyphFree(row) && Break !in row && !OnlySgr(row)
    ensures Opens(row)
    decreases row
  {
    var n := |row| - 1;
    if !OnlySgr(row[..n]) {
      GlyphFreeOpens(row[..n]);
    }
    assert row == row[..n] + [row[n]];
  }

  lemma TailSnoc(row: seq<Tok>, t: Tok)
    requires Break !in row
    ensures Opens(row + [t]) <==> Opens(row) || (t.Resets() && GlyphFree(row))
    ensures GlyphFree(row + [t]) <==> GlyphFree(row) && !t.Glyph?
    ensures Invisible(row + [t]) <==> GlyphFree(row) && t.Resets()
  {
    assert (row + [t])[..|row|] == row;
    if GlyphFree(row) && !OnlySgr(row) {
      GlyphFreeOpens(row);
    }
  }

  lemma SnocIff<T>(a: seq<T>, x: T, b: seq<T>, y: T)
    ensures a + [x] == b + [y] <==> a == b && x == y
  {
    if a + [x] == b + [y] {
      assert a == (a + [x])[..|a|] && b == (b + [y])[..|b|];
      assert x == (a + [x])[|a|] && y == (b + [y])[|b|];
    }
  }

  lemma CloseIff(a: Row, b: Row, active: seq<Tok>)
    ensures Close(a, active) == Close(b, active) <==> a == b
  {
    SnocIff(a, PLAIN, b, PLAIN);
  }

  /** Completing a row in both forms. */
  lemma EmitAlongside(s: State, l: Line, k: Trace, done: seq<Row>)
    requires Alongside(s, l, k, done)
    ensures Alongside(Emit(s), EmitLine(l), Trace([], k.lost || Opens(k.tail)), done)
  {
    hide Opens;
    CloseIff(s.current, l.current, l.active);
    SnocIff(s.rows, Close(s.current, s.active), done + l.rows, Close(l.current, l.active));
    Assoc(done, l.rows, [Close(l.current, l.active)]);
    assert !Opens([]) by { OpensNothing(); }
  }

  lemma OpensNothing()
    ensures !Opens([])
  {
  }

  lemma SgrAlongside(s: State, l: Line, k: Trace, done: seq<Row>, t: Tok, w: nat)
    requires Alongside(s, l, k, done) && Break !in k.tail && (t.Sets() || t.Resets())
    ensures Alongside(Step(s, t, w), LineStep(l, t, w), TraceStep(k, l, t, w), done)
    ensures Step(s, t, w).blank == Step(s, t, w).content
  {
    hide Opens, Invisible;
    TailSnoc(k.tail, t);
    if t.Resets() && !GlyphFree(k.tail) {
      SnocIff(s.current, t, s.active, t);
    }
  }

  /** A cluster that fits on the row in progress. */
  lemma PlaceAlongside(s: State, l: Line, k: Trace, done: seq<Row>, t: Tok, w: nat)
    requires Alongside(s, l, k, done) && Break !in k.tail && t.Glyph?
    ensures var a := l.(current := l.current + [t], col := l.col + t.cells);
            Alongside(Place(s, t, w), if a.col >= w then EmitLine(a) else a,
                      if a.col >= w then Trace([], k.lost || Opens(k.tail)) else k.(tail := k.tail + [t]), done)
    ensures Place(s, t, w).blank == Place(s, t, w).content
  {
    hide Opens, Invisible;
    TailSnoc(k.tail, t);
    var a := l.(current := l.current + [t], col := l.col + t.cells);
    var b := Add(s, t).(col := s.col + t.cells);
    SnocIff(s.current, t, l.current, t);
    assert t in b.current;
    assert Alongside(b, a, k.(tail := k.tail + [t]), done);
    if a.col >= w {
      EmitAlongside(b, a, k.(tail := k.tail + [t]), done);
    }
  }

  lemma GlyphAlongside(s: State, l: Line, k: Trace, done: seq<Row>, t: Tok, w: nat)
    requires Alongside(s, l, k, done) && Break !in k.tail && t.Glyph?
    ensures Alongside(Step(s, t, w), LineStep(l, t, w), TraceStep(k, l, t, w), done)
    ensures Step(s, t, w).blank == Step(s, t, w).content
  {
    hide Alongside, Opens;
    if t.cells > 0 && l.col > 0 && l.col + t.cells > w {
      SameColumn(s, l, k, done);
      EmitAlongside(s, l, k, done);
      PlaceAlongside(Emit(s), EmitLine(l), Trace([], k.lost || Opens(k.tail)), done, t, w);
      assert !Opens([]) by { OpensNothing(); }
    } else {
      SameColumn(s, l, k, done);
      PlaceAlongside(s, l, k, done, t, w);
    }
  }

  lemma SameColumn(s: State, l: Line, k: Trace, done: seq<Row>)
    requires Alongside(s, l, k, done)
    ensures s.col == l.col
  {
  }

  lemma StepAlongside(s: State, l: Line, k: Trace, done: seq<Row>, t: Tok, w: nat)
    requires Alongside(s, l, k, done) && Break !in k.tail && !t.Break?
    ensures var f, m, j := Step(s, t, w), LineStep(l, t, w), TraceStep(k, l, t, w);
            && Alongside(f, m, j, done) && Break !in j.tail && f.blank == f.content
            && (m.rows == [] ==> l.rows == [] && j.tail == k.tail + [t] && m.current == l.current + [t])
  {
    hide Alongside, Opens, Step;
    if t.Glyph? {
      GlyphAlongside(s, l, k, done, t, w);
    } else {
      SgrAlongside(s, l, k, done, t, w);
    }
  }

  lemma {:induction false} FeedOne(s: State, line: seq<Tok>, w: nat)
    requires line != []
    ensures var n := |line| - 1;
            var l := LineFold(s.active, line[..n], w);
            && Feed(s, line, w) == Step(Feed(s, line[..n], w), line[n], w)
            && LineFold(s.active, line, w) == LineStep(l, line[n], w)
            && TraceFold(s.active, line, w) == TraceStep(TraceFold(s.active, line[..n], w), l, line[n], w)
            && line == line[..n] + [line[n]]
  {
    hide Step, LineStep, TraceStep;
  }

  /** Feeding a line from its start keeps the two forms alongside. */
  lemma {:induction false} FeedAlongside(s: State, line: seq<Tok>, w: nat)
    requires AtStart(s) && Break !in line
    ensures var f, l, k := Feed(s, line, w), LineFold(s.active, line, w), TraceFold(s.active, line, w);
            && Alongside(f, l, k, s.rows) && Break !in k.tail
            && (l.rows == [] ==> k.tail == line)
            && (line != [] ==> f.blank == f.content && (l.rows == [] ==> l.current != []))
    decreases line
  {
    if line == [] {
      assert s.rows + [] == s.rows;
    } else {
      var n := |line| - 1;
      FeedOne(s, line, w);
      hide Alongside, Feed, LineFold, TraceFold, Opens, Step, LineStep, TraceStep;
      FeedAlongside(s, line[..n], w);
      StepAlongside(Feed(s, line[..n], w), LineFold(s.active, line[..n], w), TraceFold(s.active, line[..n], w),
                    s.rows, line[n], w);
    }
  }

  /** The row in progress, and which of the two forms shows it. */
  lemma LineShape(s: State, line: seq<Tok>, w: nat)
    requires AtStart(s) && Break !in line
    ensures var f, l, k := Feed(s, line, w), LineFold(s.active, line, w), TraceFold(s.active, line, w);
            && f.active == l.active && f.lineStart == |s.rows| && |f.rows| == |s.rows| + |l.rows|
            && (f.rows == s.rows + l.rows <==> !k.lost)
            && (Close(f.current, f.active) == Close(l.current, l.active) <==> !Opens(k.tail))
            && (f.content <==> !Invisible(k.tail)) && (f.col > 0 <==> l.col > 0) && (l.col > 0 ==> f.content)
            && (line != [] ==> f.blank == f.content)
            && (line != [] && l.rows == [] && !Opens(k.tail) ==> f.content)
            && (line == [] ==> f == s && l.rows == [] && k.tail == [])
            && LineRows(s.active, line, w)
               == l.rows + if KeepsLast(s.active, line, w) then [Close(l.current, l.active)] else []
  {
    var f, l, k := Feed(s, line, w), LineFold(s.active, line, w), TraceFold(s.active, line, w);
    FeedAlongside(s, line, w);
    hide Feed, TraceFold, Opens;
    CloseIff(f.current, l.current, l.active);
    if line != [] && l.rows == [] && GlyphFree(line) && !OnlySgr(line) {
      GlyphFreeOpens(line);
    }
  }

  /**
   * A logical line, ended by a line break or not: the incremental form gives the
   * rows of the batch form exactly when no row kept opens with a reset and the
   * line is not ragged.
   */
  lemma LineRefinesBatch(s: State, line: seq<Tok>, w: nat)
    requires AtStart(s) && Break !in line
    ensures var f, rows := Feed(s, line, w), s.rows + LineRows(s.active, line, w);
            var agree := OpensPlainly(s.active, line, w) && !Ragged(s.active, line, w);
            && (Step(f, Break, w).rows == rows <==> agree)
            && (line != [] || s.blank ==> (View(f) == rows <==> agree))
    ensures var f, rows := Feed(s, line, w), s.rows + LineRows(s.active, line, w);
            var more := if Ragged(s.active, line, w) then 1 else 0;
            && |Step(f, Break, w).rows| == |rows| + more
            && (OpensPlainly(s.active, line, w) && (line != [] || s.blank) ==> |View(f)| == |rows| + more)
  {
    var f, l, k := Feed(s, line, w), LineFold(s.active, line, w), TraceFold(s.active, line, w);
    LineShape(s, line, w);
    hide Feed, LineFold, TraceFold, Opens, Invisible, LineRows, Close;
    var x, y := Close(f.current, f.active), Close(l.current, l.active);
    SnocIff(f.rows, x, s.rows + l.rows, y);
    Assoc(s.rows, l.rows, [y]);
    assert s.rows + (l.rows + []) == s.rows + l.rows;
  }

  // ---- whole texts -----------------------------------------------------------------------

  /** The incremental state at the start of the line after these. */
  function StartAfter(lines: seq<seq<Tok>>, w: nat): State {
    if lines == [] then FRESH
    else Step(Feed(StartAfter(lines[..|lines| - 1], w), lines[|lines| - 1], w), Break, w)
  }

  lemma {:induction false} FeedByLines(toks: seq<Tok>, w: nat)
    ensures var lines := SplitLines(toks);
            var n := |lines| - 1;
            Feed(FRESH, toks, w) == Feed(StartAfter(lines[..n], w), lines[n], w)
    decreases toks
  {
    if toks != [] {
      var m := |toks| - 1;
      var t := toks[m];
      var before, lines := SplitLines(toks[..m]), SplitLines(toks);
      var n := |before| - 1;
      FeedByLines(toks[..m], w);
      hide Step;
      if t.Break? {
        assert lines[..n + 1] == before;
      } else {
        assert lines[..n] == before[..n] && lines[n][..|before[n]|] == before[n];
      }
    }
  }

  predicate NoBreaks(lines: seq<seq<Tok>>) {
    forall line | line in lines :: Break !in line
  }

  /** No row that the batch form keeps opens with a reset. */
  predicate AllOpenPlainly(lines: seq<seq<Tok>>, w: nat) {
    lines != [] ==>
      var n := |lines| - 1;
      AllOpenPlainly(lines[..n], w) && OpensPlainly(ActiveAfter(lines[..n], w), lines[n], w)
  }

  predicate AnyRagged(lines: seq<seq<Tok>>, w: nat) {
    lines != [] &&
    var n := |lines| - 1;
    AnyRagged(lines[..n], w) || Ragged(ActiveAfter(lines[..n], w), lines[n], w)
  }

  lemma {:induction false} StartsRight(lines: seq<seq<Tok>>, w: nat)
    requires NoBreaks(lines)
    ensures var s := StartAfter(lines, w);
            AtStart(s) && s.active == ActiveAfter(lines, w) && (s.blank <==> lines != [])
    decreases lines
  {
    if lines != [] {
      var n := |lines| - 1;
      StartsRight(lines[..n], w);
      FeedAlongside(StartAfter(lines[..n], w), lines[n], w);
      hide Feed, LineFold, TraceFold, Opens, Invisible;
    }
  }

  lemma {:induction false} LinesRefineBatch(lines: seq<seq<Tok>>, w: nat)
    requires NoBreaks(lines) && AllOpenPlainly(lines, w)
    ensures var rows := StartAfter(lines, w).rows;
            && |rows| >= |BatchRows(lines, w)|
            && (AnyRagged(lines, w) ==> |rows| > |BatchRows(lines, w)|)
            && (!AnyRagged(lines, w) ==> rows == BatchRows(lines, w))
    decreases lines
  {
    hide Feed, Step, OpensPlainly, Ragged, LineRows, AtStart;
    if lines != [] {
      var n := |lines| - 1;
      LinesRefineBatch(lines[..n], w);
      StartsRight(lines[..n], w);
      LineRefinesBatch(StartAfter(lines[..n], w), lines[n], w);
    }
  }

  lemma {:induction false} SplitTokens(toks: seq<Tok>)
    ensures forall line, t | line in SplitLines(toks) && t in line :: t in toks && !t.Break?
    decreases toks
  {
    if toks != [] {
      SplitTokens(toks[..|toks| - 1]);
    }
  }

  /**
   * For any text, styled or not, in which no row kept opens with a reset, the
   * incremental view is the batch result exactly when no line is ragged;
   * otherwise the batch form has lost a row.
   */
  lemma IncrementalRefinesBatch(toks: seq<Tok>, w: nat)
    requires w > 0 && AllOpenPlainly(SplitLines(toks), w)
    ensures View(Feed(FRESH, toks, w)) == FromAnsi(toks, w) <==> !AnyRagged(SplitLines(toks), w)
  {
    var lines := SplitLines(toks);
    var n := |lines| - 1;
    SplitTokens(toks);
    FeedByLines(toks, w);
    LinesRefineBatch(lines[..n], w);
    StartsRight(lines[..n], w);
    if toks == [] {
      assert lines == [[]] && lines[..0] == [];
      assert !Ragged([], [], w);
    } else {
      LineRefinesBatch(StartAfter(lines[..n], w), lines[n], w);
      SplitsSomething(toks);
      hide Feed, Step, OpensPlainly, Ragged, LineRows, AtStart, SplitLines, View;
      assert FromAnsi(toks, w) == BatchRows(lines[..n], w) + LineRows(ActiveAfter(lines[..n], w), lines[n], w);
    }
  }

  lemma SplitsSomething(toks: seq<Tok>)
    requires toks != []
    ensures |SplitLines(toks)| > 1 || SplitLines(toks)[0] != []
  {
  }

  // ---- texts of which this can be seen at once ---------------------------------------------

  lemma NoResetStep(k: Trace, l: Line, t: Tok, w: nat)
    requires !k.lost && !t.Resets() && forall x | x in k.tail :: !x.Resets()
    ensures var j := TraceStep(k, l, t, w); !j.lost && forall x | x in j.tail :: !x.Resets()
  {
    hide Opens;
    NoResetDoesNotOpen(k.tail);
    NoResetDoesNotOpen([]);
  }

  lemma {:induction false} NoResetOpens(active: seq<Tok>, line: seq<Tok>, w: nat)
    requires forall t | t in line :: !t.Resets()
    ensures var k := TraceFold(active, line, w); !k.lost && forall t | t in k.tail :: !t.Resets()
    decreases line
  {
    hide TraceStep, LineFold;
    if line != [] {
      var n := |line| - 1;
      NoResetOpens(active, line[..n], w);
      NoResetStep(TraceFold(active, line[..n], w), LineFold(active, line[..n], w), line[n], w);
    }
  }

  lemma {:induction false} NoResetDoesNotOpen(row: seq<Tok>)
    requires forall t | t in row :: !t.Resets()
    ensures !Opens(row)
    decreases row
  {
    if row != [] {
      NoResetDoesNotOpen(row[..|row| - 1]);
    }
  }

  lemma {:induction false} NoResetLines(lines: seq<seq<Tok>>, w: nat)
    requires forall line, t | line in lines && t in line :: !t.Resets()
    ensures AllOpenPlainly(lines, w)
    decreases lines
  {
    if lines != [] {
      var n := |lines| - 1;
      NoResetLines(lines[..n], w);
      NoResetOpens(ActiveAfter(lines[..n], w), lines[n], w);
      NoResetDoesNotOpen(TraceFold(ActiveAfter(lines[..n], w), lines[n], w).tail);
      hide TraceFold, LineFold, Opens;
    }
  }

  /** Text that never resets a style needs no further hypothesis. */
  lemma WithoutResets(toks: seq<Tok>, w: nat)
    requires w > 0 && forall t | t in toks :: !t.Resets()
    ensures View(Feed(FRESH, toks, w)) == FromAnsi(toks, w) <==> !AnyRagged(SplitLines(toks), w)
  {
    hide View, FromAnsi, Feed, AnyRagged;
    SplitTokens(toks);
    NoResetLines(SplitLines(toks), w);
    IncrementalRefinesBatch(toks, w);
  }

  lemma {:induction false} SolidNotRagged(line: seq<Tok>, w: nat)
    requires forall t | t in line :: t.Glyph? && t.cells > 0
    ensures var l, k := LineFold([], line, w), TraceFold([], line, w);
            l.active == [] && (l.col == 0 ==> k.tail == [])
    decreases line
  {
    if line != [] {
      SolidNotRagged(line[..|line| - 1], w);
    }
  }

  lemma {:induction false} SolidLines(lines: seq<seq<Tok>>, w: nat)
    requires forall line, t | line in lines && t in line :: t.Glyph? && t.cells > 0
    ensures ActiveAfter(lines, w) == [] && !AnyRagged(lines, w)
    decreases lines
  {
    if lines != [] {
      var n := |lines| - 1;
      SolidLines(lines[..n], w);
      SolidNotRagged(lines[n], w);
    }
  }

  /**
   * Feeding unstyled text of clusters that take room, in any chunks, gives the
   * rows of the batch form.
   */
  lemma AnyChunkingRefinesBatch(chunks: seq<seq<Tok>>, w: nat)
    requires w > 0
    requires forall t | t in Flatten(chunks) :: t.Break? || (t.Glyph? && t.cells > 0)
    ensures View(FeedAll(FRESH, chunks, w)) == FromAnsi(Flatten(chunks), w)
  {
    hide View, FromAnsi, Feed, AnyRagged;
    var toks := Flatten(chunks);
    FeedChunks(FRESH, chunks, w);
    SplitTokens(toks);
    SolidLines(SplitLines(toks), w);
    WithoutResets(toks, w);
  }

  lemma SplitSnoc(toks: seq<Tok>, t: Tok)
    requires !t.Break?
    ensures var lines := SplitLines(toks);
            var n := |lines| - 1;
            SplitLines(toks + [t]) == lines[..n] + [lines[n] + [t]]
  {
    assert (toks + [t])[..|toks|] == toks;
  }

  lemma {:induction false} SplitOne(line: seq<Tok>)
    requires line != [] && Break !in line
    ensures SplitLines(line) == [line]
    decreases line
  {
    var n := |line| - 1;
    var rest := line[..n];
    assert line == rest + [line[n]] && line[n] in line;
    assert SplitLines([]) == [[]];
    hide SplitLines;
    SplitSnoc(rest, line[n]);
    if n > 0 {
      SplitOne(rest);
      assert [rest][..0] + [rest + [line[n]]] == [line];
    } else {
      assert rest == [] && [rest][..0] + [[] + [line[n]]] == [line];
    }
  }

  lemma BatchOne(line: seq<Tok>, w: nat)
    ensures BatchRows([line], w) == LineRows([], line, w)
  {
    var lines := [line];
    assert lines[..0] == [];
    hide LineRows, LineFold;
    assert BatchRows([], w) == [] && ActiveAfter([], w) == [];
  }

  lemma ResetLeavesARow()
    ensures LineRows([], [Sgr([31]), Sgr([0])], 80) == [[Sgr([31]), Sgr([0])]]
  {
    var one, two := [Sgr([31])], [Sgr([31]), Sgr([0])];
    assert one[..0] == [] && two[..1] == one;
    assert LineFold([], [], 80) == Line([], [], 0, []);
    assert LineFold([], one, 80) == Line([], one, 0, one);
    assert LineFold([], two, 80) == Line([], two, 0, []);
  }

  /** With styles the two forms differ: a style set and reset leaves no row in one. */
  lemma StyledTextDiffers()
    ensures View(Feed(FRESH, [Sgr([31]), Sgr([0])], 80)) == []
    ensures FromAnsi([Sgr([31]), Sgr([0])], 80) == [[Sgr([31]), Sgr([0])]]
  {
    hide View, Feed, LineRows, SplitLines, BatchRows;
    var two := [Sgr([31]), Sgr([0])];
    ViewMayShrink();
    SplitOne(two);
    BatchOne(two, 80);
    ResetLeavesARow();
    assert |two| == 2;
    assert FromAnsi(two, 80) == BatchRows(SplitLines(two), 80);
  }

  lemma RealignLines()
    ensures var g, s := Glyph(1, 1), Sgr([31]);
            && LineFold([], [g, s], 1) == Line([[g]], [s], 0, [s]) && TraceFold([], [g, s], 1) == Trace([s], false)
            && LineFold([s], [PLAIN], 1) == Line([], [s, PLAIN], 0, [])
            && TraceFold([s], [PLAIN], 1) == Trace([PLAIN], false)
  {
    var g, s := Glyph(1, 1), Sgr([31]);
    var one, two, last: seq<Tok> := [g], [g, s], [PLAIN];
    assert two[..1] == one && one[..0] == [] && last[..0] == [];
    assert LineFold([], [], 1) == Line([], [], 0, []) && TraceFold([], [], 1) == Trace([], false);
    assert [] + [g] == one && [] + [one] == [one];
    assert LineStep(Line([], [], 0, []), g, 1) == EmitLine(Line([], one, 1, [])) == Line([one], [], 0, []);
    assert LineFold([], one, 1) == Line([one], [], 0, []) && TraceFold([], one, 1) == Trace([], false);
    assert LineFold([s], [], 1) == Line([], [s], 0, [s]) && TraceFold([s], [], 1) == Trace([], false);
  }

  lemma RealignBatch()
    ensures var g, s := Glyph(1, 1), Sgr([31]);
            var lines := [[g, s], [PLAIN]];
            && BatchRows(lines, 1) == [[g], [s, PLAIN]] && !AllOpenPlainly(lines, 1) && AnyRagged(lines, 1)
  {
    var g, s := Glyph(1, 1), Sgr([31]);
    var lines, first := [[g, s], [PLAIN]], [[g, s]];
    var last: seq<Tok> := [PLAIN];
    RealignLines();
    BatchOne([g, s], 1);
    assert lines[..1] == first && first[..0] == [];
    assert last[..0] == [] && Opens(last);
    hide LineFold, TraceFold, Opens;
    assert ActiveAfter([], 1) == [] && ActiveAfter(first, 1) == [s];
    assert Ragged([], [g, s], 1) && AnyRagged(first, 1);
    assert !OpensPlainly([s], last, 1);
    assert LineRows([s], last, 1) == [[s, PLAIN]];
    assert BatchRows(first, 1) == [[g]];
  }

  lemma FeedSnoc(s: State, toks: seq<Tok>, t: Tok, w: nat)
    ensures Feed(s, toks + [t], w) == Step(Feed(s, toks, w), t, w)
  {
    assert (toks + [t])[..|toks|] == toks;
    hide Step;
  }

  lemma RealignGlyph()
    ensures Step(FRESH, Glyph(1, 1), 1) == State([[Glyph(1, 1)]], [], 0, [], 0, false, false)
  {
    var g := Glyph(1, 1);
    assert [] + [g] == [g] && [] + [[g]] == [[g]];
  }

  lemma RealignStyle()
    ensures var g, s := Glyph(1, 1), Sgr([31]);
            && Step(State([[g]], [], 0, [], 0, false, false), s, 1) == State([[g]], [s], 0, [s], 0, true, true)
            && Step(State([[g]], [s], 0, [s], 0, true, true), Break, 1)
               == State([[g], [s, PLAIN]], [s], 0, [s], 2, false, true)
  {
    var g, s := Glyph(1, 1), Sgr([31]);
    assert s.Sets() && [] + [s] == [s];
    assert [s] + [PLAIN] == [s, PLAIN] && [[g]] + [[s, PLAIN]] == [[g], [s, PLAIN]];
  }

  lemma RealignReset(rows: seq<Row>)
    ensures var s := Sgr([31]);
            Step(State(rows, [s], 0, [s], 2, false, true), PLAIN, 1) == State(rows, [], 0, [], 2, false, false)
  {
    assert PLAIN.Resets();
  }

  lemma RealignView()
    ensures var g, s := Glyph(1, 1), Sgr([31]);
            View(Feed(FRESH, [g, s, Break, PLAIN], 1)) == [[g], [s, PLAIN]]
  {
    var g, s := Glyph(1, 1), Sgr([31]);
    var none: seq<Tok> := [];
    assert Feed(FRESH, none, 1) == FRESH;
    hide Feed, Step;
    FeedSnoc(FRESH, none, g, 1);
    FeedSnoc(FRESH, [g], s, 1);
    FeedSnoc(FRESH, [g, s], Break, 1);
    FeedSnoc(FRESH, [g, s, Break], PLAIN, 1);
    assert none + [g] == [g] && [g] + [s] == [g, s];
    assert [g, s] + [Break] == [g, s, Break] && [g, s, Break] + [PLAIN] == [g, s, Break, PLAIN];
    RealignGlyph();
    RealignStyle();
    RealignReset([[g], [s, PLAIN]]);
  }

  /**
   * With a reset that opens a kept row, texts may agree though their lines do
   * not: a row too many in one line stands in for a row too few in the next.
   */
  lemma RowsMayRealign()
    ensures var toks := [Glyph(1, 1), Sgr([31]), Break, PLAIN];
            && View(Feed(FRESH, toks, 1)) == FromAnsi(toks, 1) == [[Glyph(1, 1)], [Sgr([31]), PLAIN]]
            && !AllOpenPlainly(SplitLines(toks), 1) && AnyRagged(SplitLines(toks), 1)
  {
    hide View, Feed, BatchRows, AllOpenPlainly, AnyRagged;
    var g, s := Glyph(1, 1), Sgr([31]);
    var two, three, toks := [g, s], [g, s, Break], [g, s, Break, PLAIN];
    assert toks[..3] == three && three[..2] == two;
    SplitOne(two);
    assert SplitLines(three) == [two, []];
    assert [two, []][..1] == [two];
    assert SplitLines(toks) == [two] + [[] + [PLAIN]];
    assert [] + [PLAIN] == [PLAIN];
    assert [two] + [[PLAIN]] == [two, [PLAIN]];
    RealignBatch();
    RealignView();
  }
}
