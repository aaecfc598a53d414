/** Every editor operation is the corresponding operation on the flat text. */
module EditorProofs {
  import opened Prelude
  import opened EditorText
  import opened Editor

  /** `t` with the characters from `i` to `j` replaced by `s`. */
  function Edited(t: string, i: nat, j: nat, s: string): string
    requires i <= j <= |t|
  {
    t[..i] + s + t[j..]
  }

  /** The editor is well formed and reads as this text, with the cursor at this offset. */
  ghost predicate Reads(ui: Ui, text: string, offset: nat) {
    Well(ui.ed) && Text(ui.ed) == text && Offset(ui.ed) == offset
  }

  /** Where the cursor's line begins in the text. */
  ghost function LineStart(ed: Ed): nat
    requires ed.row < |ed.lines|
  {
    |Before(ed.lines[..ed.row])|
  }

  lemma EditInside(a: string, line: string, b: string, i: nat, j: nat, s: string)
    requires i <= j <= |line|
    ensures Edited(a + line + b, |a| + i, |a| + j, s) == a + (line[..i] + s + line[j..]) + b
  {
    var t := a + line + b;
    assert t[..|a| + i] == a + line[..i];
    assert t[|a| + j..] == line[j..] + b;
  }

  lemma OffsetInText(ed: Ed)
    requires Well(ed)
    ensures LineStart(ed) + |ed.lines[ed.row]| <= |Text(ed)|
    ensures Offset(ed) == LineStart(ed) + ed.col <= |Text(ed)|
  {
    AroundCursor(ed);
  }

  /** Editing inside the cursor's line edits the text at the same place. */
  lemma LineEdit(ed: Ed, i: nat, j: nat, s: string, col: nat)
    requires Well(ed) && i <= j <= |ed.lines[ed.row]| && OneLine(s)
    requires col <= i + |s| + |ed.lines[ed.row]| - j
    ensures LineStart(ed) + j <= |Text(ed)|
    ensures var line := ed.lines[ed.row];
            var e := ed.(lines := ed.lines[ed.row := line[..i] + s + line[j..]], col := col);
            && Lines(e.lines) && Offset(e) == LineStart(ed) + col
            && Text(e) == Edited(Text(ed), LineStart(ed) + i, LineStart(ed) + j, s)
  {
    var line := ed.lines[ed.row];
    var e := ed.(lines := ed.lines[ed.row := line[..i] + s + line[j..]], col := col);
    OffsetInText(ed);
    AroundCursor(ed);
    AroundCursor(e);
    assert e.lines[..ed.row] == ed.lines[..ed.row] && e.lines[ed.row + 1..] == ed.lines[ed.row + 1..];
    hide Join, Before, After;
    EditInside(Before(ed.lines[..ed.row]), line, After(ed.lines[ed.row + 1..]), i, j, s);
  }

  lemma EmptyMiddle(x: string, y: string)
    ensures x + "" + y == x + y
  {
  }

  // ---- inserting ------------------------------------------------------------------------

  lemma OnePart(n: string)
    requires |Split(n)| == 1
    ensures OneLine(n)
  {
    JoinSplit(n);
  }

  lemma NoEdit(t: string, i: nat)
    requires i <= |t|
    ensures Edited(t, i, i, "") == t
  {
  }

  lemma OneLineIsSplice(ui: Ui, n: string)
    requires Well(ui.ed) && OneLine(n)
    ensures Offset(ui.ed) <= |Text(ui.ed)|
    ensures var o := Offset(ui.ed);
            Reads(InsertOneLine(ui, n), Edited(Text(ui.ed), o, o, n), o + |n|)
  {
    hide Join, Before, After, Edited;
    OffsetInText(ui.ed);
    LineEdit(ui.ed, ui.ed.col, ui.ed.col, n, ui.ed.col + |n|);
  }

  lemma LinesAreSplice(ui: Ui, parts: seq<string>)
    requires Well(ui.ed) && |parts| > 1 && Lines(parts)
    ensures Offset(ui.ed) <= |Text(ui.ed)|
    ensures var o := Offset(ui.ed);
            Reads(InsertLines(ui, parts), Edited(Text(ui.ed), o, o, Join(parts)), o + |Join(parts)|)
  {
    hide Join, Before, After, Edited, Spread;
    SpreadInText(ui.ed, parts);
  }

  /** Inserting splices the newline-normalised text at the offset. */
  lemma InsertIsSplice(ui: Ui, text: string)
    requires Well(ui.ed)
    ensures Offset(ui.ed) <= |Text(ui.ed)|
    ensures var o, n := Offset(ui.ed), Normalize(text);
            Reads(InsertText(ui, text), Edited(Text(ui.ed), o, o, n), o + |n|)
  {
    assert ui.ed.row < |ui.ed.lines| && ui.ed.col <= |ui.ed.lines[ui.ed.row]|;
    hide Join, Before, After, Split, Edited, Reads, InsertOneLine, InsertLines, Lines, OneLine, Normalize, Well;
    var n := Normalize(text);
    OffsetInText(ui.ed);
    if text == "" {
      NormalizeKeeps(text);
      NoEdit(Text(ui.ed), Offset(ui.ed));
      StandsStill(ui);
    } else if |Split(n)| == 1 {
      OnePart(n);
      OneLineIsSplice(ui, n);
      assert InsertText(ui, text) == InsertOneLine(ui, n);
    } else {
      JoinSplit(n);
      LinesAreSplice(ui, Split(n));
      assert InsertText(ui, text) == InsertLines(ui, Split(n));
    }
  }

  lemma StandsStill(ui: Ui)
    requires Well(ui.ed)
    ensures Reads(ui, Text(ui.ed), Offset(ui.ed))
  {
  }

  lemma SpreadIsLines(a: seq<string>, x: string, parts: seq<string>, y: string, b: seq<string>)
    requires |parts| > 1 && Lines(parts) && OneLine(x) && OneLine(y)
    requires forall i | 0 <= i < |a| :: OneLine(a[i])
    requires forall i | 0 <= i < |b| :: OneLine(b[i])
    ensures Lines(a + Spread(x, parts, y) + b)
    ensures (a + Spread(x, parts, y) + b)[|a| + |parts| - 1] == parts[|parts| - 1] + y
  {
  }

  /** Several lines put at the cursor. */
  lemma SpreadInText(ed: Ed, parts: seq<string>)
    requires Well(ed) && |parts| > 1 && Lines(parts)
    ensures Offset(ed) <= |Text(ed)|
    ensures var line, n := ed.lines[ed.row], |parts| - 1;
            var spread := Spread(line[..ed.col], parts, line[ed.col..]);
            var e := ed.(lines := ed.lines[..ed.row] + spread + ed.lines[ed.row + 1..],
                         row := ed.row + n, col := |parts[n]|);
            && Lines(e.lines) && e.row < |e.lines| && e.col <= |e.lines[e.row]|
            && Text(e) == Edited(Text(ed), Offset(ed), Offset(ed), Join(parts))
            && Offset(e) == Offset(ed) + |Join(parts)|
  {
    hide Join, Before, After, Spread, Edited;
    var a, line, b := ed.lines[..ed.row], ed.lines[ed.row], ed.lines[ed.row + 1..];
    OffsetInText(ed);
    AroundCursor(ed);
    SpreadIsSplice(a, line[..ed.col], parts, line[ed.col..], b);
    SpreadIsLines(a, line[..ed.col], parts, line[ed.col..], b);
    EditInside(Before(a), line, After(b), ed.col, ed.col, Join(parts));
    Regroup(Before(a), line[..ed.col], Join(parts), line[ed.col..], After(b));
  }

  /** A new line is the one character spliced at the offset. */
  lemma NewlineIsSplice(ui: Ui)
    requires Well(ui.ed)
    ensures Offset(ui.ed) <= |Text(ui.ed)|
    ensures var o := Offset(ui.ed);
            Reads(InsertNewline(ui), Edited(Text(ui.ed), o, o, "\n"), o + 1)
  {
    var ed := ui.ed;
    var line := ed.lines[ed.row];
    var x, y := line[..ed.col], line[ed.col..];
    SpreadInText(ed, ["", ""]);
    assert Spread(x, ["", ""], y) == [x + ""] + ["", ""][1..1] + ["" + y];
    assert x + "" == x && "" + y == y && ["", ""][1..1] == [];
    assert [x] + [] + [y] == [x, y];
    assert Join(["", ""]) == "" + "\n" + Join(["", ""][1..]);
  }

  // ---- deleting ---------------------------------------------------------------------------

  /** Deleting removes the character at the offset, and nothing at the end of a line. */
  lemma DeleteIsDelete(ui: Ui)
    requires Well(ui.ed)
    ensures var o, t := Offset(ui.ed), Text(ui.ed);
            if o < |t| && t[o] != '\n' then Reads(DeleteChar(ui), Edited(t, o, o + 1, ""), o) else DeleteChar(ui) == ui
  {
    var ed := ui.ed;
    var line, b := ed.lines[ed.row], ed.lines[ed.row + 1..];
    AroundCursor(ed);
    if ed.col < |line| {
      assert Text(ed)[Offset(ed)] == line[ed.col];
      LineEdit(ed, ed.col, ed.col + 1, "", ed.col);
      EmptyMiddle(line[..ed.col], line[ed.col + 1..]);
    } else if b != [] {
      assert Text(ed)[Offset(ed)] == After(b)[0] == '\n';
    }
  }

  /** Backspace removes the previous character, a line break included. */
  lemma BackspaceIsBackspace(ui: Ui)
    requires Well(ui.ed)
    ensures Offset(ui.ed) <= |Text(ui.ed)|
    ensures var o, t := Offset(ui.ed), Text(ui.ed);
            if o > 0 then Reads(Backspace(ui), Edited(t, o - 1, o, ""), o - 1) else Backspace(ui) == ui
  {
    var ed := ui.ed;
    var line := ed.lines[ed.row];
    OffsetInText(ed);
    if ed.col > 0 {
      LineEdit(ed, ed.col - 1, ed.col, "", ed.col - 1);
      EmptyMiddle(line[..ed.col - 1], line[ed.col..]);
      hide Join, Before, After;
    } else if ed.row > 0 {
      MergeUp(ui);
    }
  }

  lemma MergeText(a: string, above: string, line: string, b: string)
    ensures var t := (a + above + "\n") + line + b;
            var o := |a + above + "\n"|;
            Edited(t, o - 1, o, "") == a + (above + line) + b
  {
    var t := (a + above + "\n") + line + b;
    var o := |a + above + "\n"|;
    assert t[..o - 1] == a + above;
    assert t[o..] == line + b;
  }

  lemma BeforeSnoc(a: seq<string>, above: string)
    ensures Before(a + [above]) == Before(a) + above + "\n"
  {
    BeforeConcat(a, [above]);
    assert Before([above]) == above + "\n" + Before([]);
  }

  lemma MergeUp(ui: Ui)
    requires Well(ui.ed) && ui.ed.col == 0 && ui.ed.row > 0
    ensures 0 < Offset(ui.ed) <= |Text(ui.ed)|
    ensures var o := Offset(ui.ed); Reads(Backspace(ui), Edited(Text(ui.ed), o - 1, o, ""), o - 1)
  {
    hide Join, Before, After, Edited;
    var ed := ui.ed;
    var a, above, line, b := ed.lines[..ed.row - 1], ed.lines[ed.row - 1], ed.lines[ed.row], ed.lines[ed.row + 1..];
    AroundCursor(ed);
    BeforeSnoc(a, above);
    assert ed.lines[..ed.row] == a + [above];
    var next := a + [above + line] + b;
    assert next[..ed.row - 1] == a && Lines(next);
    JoinAround(a, above + line, b);
    MergeText(Before(a), above, line, After(b));
    assert Backspace(ui) == Refreshed(ui.(ed := ed.(lines := next, row := ed.row - 1, col := |above|)));
  }

  // ---- the rest ------------------------------------------------------------------------------

  /** What is set is what is read back; moving changes nothing but the cursor. */
  lemma SetThenGet(ui: Ui, text: string, deltaRow: int, deltaCol: int)
    requires Well(ui.ed)
    ensures Well(SetText(ui, text).ed) && Text(SetText(ui, text).ed) == text
    ensures Well(MoveCursor(ui, deltaRow, deltaCol).ed)
    ensures Text(MoveCursor(ui, deltaRow, deltaCol).ed) == Text(ui.ed)
  {
    JoinSplit(text);
  }

  /** `at` is the position nearest to `wanted` among 0..most. */
  predicate Nearest(at: int, wanted: int, most: nat) {
    if wanted < 0 then at == 0 else if wanted > most then at == most else at == wanted
  }

  /** The cursor goes to the row asked for and in it to the column asked for, as near as there are. */
  lemma CursorGoes(ui: Ui, deltaRow: int, deltaCol: int, text: string)
    requires Well(ui.ed)
    ensures var e := MoveCursor(ui, deltaRow, deltaCol).ed;
            && e.lines == ui.ed.lines && Nearest(e.row, ui.ed.row + deltaRow, |e.lines| - 1)
            && Nearest(e.col, ui.ed.col + deltaCol, |e.lines[e.row]|)
    ensures var e := SetText(ui, text).ed;
            && e.lines == Split(text) && Nearest(e.row, ui.ed.row, |e.lines| - 1)
            && Nearest(e.col, ui.ed.col, |e.lines[e.row]|)
  {
    hide Split, Join, Lines;
  }

  /** Up and down go round the shown items. */
  lemma ChoiceGoesRound(ui: Ui, delta: int)
    requires Well(ui.ed) && ui.ed.active
    ensures var e := MoveChoice(ui, delta).ed;
            var n := |ui.ed.items|;
            && e == ui.ed.(index := e.index) && e.index < n
            && exists turns: int :: e.index == ui.ed.index + delta + turns * n
  {
    var n := |ui.ed.items|;
    var x := ui.ed.index + delta;
    assert x == x / n * n + x % n;
    assert x % n == x + (-(x / n)) * n;
  }

  /** The lines are determined by the text, so the flat view loses nothing. */
  lemma LinesAreTheText(e: Ed, f: Ed)
    requires Well(e) && Well(f) && Text(e) == Text(f)
    ensures e.lines == f.lines
  {
    SplitJoin(e.lines);
    SplitJoin(f.lines);
  }

  /** Where an accepted item's text goes, and how much before it goes away. */
  ghost function AcceptEnd(ed: Ed, replace: int): nat
    requires Well(ed)
  {
    var i := TokenEnd(ed.lines[ed.row], ed.col);
    if Min(replace, i) > 0 then LineStart(ed) + i else Offset(ed)
  }

  ghost function AcceptGone(ed: Ed, replace: int): nat
    requires Well(ed)
  {
    Max(0, Min(replace, TokenEnd(ed.lines[ed.row], ed.col)))
  }

  lemma ReplacedIsCut(ed: Ed, n: int)
    requires Well(ed)
    ensures AcceptGone(ed, n) <= AcceptEnd(ed, n) <= |Text(ed)|
    ensures var stop, gone, e := AcceptEnd(ed, n), AcceptGone(ed, n), Replaced(ed, n);
            Well(e) && Text(e) == Edited(Text(ed), stop - gone, stop, "") && Offset(e) == stop - gone
  {
    var line := ed.lines[ed.row];
    var i := TokenEnd(line, ed.col);
    OffsetInText(ed);
    if Min(n, i) > 0 {
      LineEdit(ed, i - Min(n, i), i, "", i - Min(n, i));
      EmptyMiddle(line[..i - Min(n, i)], line[i..]);
      hide Join, Before, After;
    } else {
      assert Edited(Text(ed), Offset(ed), Offset(ed), "") == Text(ed);
    }
  }

  lemma EditTwice(t: string, i: nat, j: nat, s: string)
    requires i <= j <= |t|
    ensures i <= |Edited(t, i, j, "")|
    ensures Edited(Edited(t, i, j, ""), i, i, s) == Edited(t, i, j, s)
  {
    var u := Edited(t, i, j, "");
    assert u[..i] == t[..i] && u[i..] == t[j..];
  }

  /**
   * Accepting removes the replaced characters of the last token before the
   * cursor, keeps the blanks after it, and puts the item's text there.
   */
  lemma AcceptIsReplace(ui: Ui)
    requires Well(ui.ed) && ui.ed.active
    ensures var item := ui.ed.items[ui.ed.index];
            AcceptGone(ui.ed, item.replace) <= AcceptEnd(ui.ed, item.replace) <= |Text(ui.ed)|
    ensures var item := ui.ed.items[ui.ed.index];
            var stop, gone := AcceptEnd(ui.ed, item.replace), AcceptGone(ui.ed, item.replace);
            var n := Normalize(item.insert);
            && Reads(Accept(ui), Edited(Text(ui.ed), stop - gone, stop, n), stop - gone + |n|)
            && !Accept(ui).ed.active && !Accept(ui).ed.pending
  {
    hide Join, Before, After, Replaced, AcceptEnd, AcceptGone, Edited, InsertText, Lines, Normalize, TokenEnd;
    var item, ed := ui.ed.items[ui.ed.index], ui.ed;
    var stop, gone := AcceptEnd(ed, item.replace), AcceptGone(ed, item.replace);
    var e := Replaced(ed, item.replace);
    ReplacedIsCut(ed, item.replace);
    EditTwice(Text(ed), stop - gone, stop, Normalize(item.insert));
    AcceptSteps(ui);
    InsertIsSplice(ui.(ed := e.(active := false, pending := false)), item.insert);
  }

  /** Accepting is replacing, inserting without a refresh, and dismissing. */
  lemma AcceptSteps(ui: Ui)
    requires Well(ui.ed) && ui.ed.active
    ensures Well(Replaced(ui.ed, ui.ed.items[ui.ed.index].replace))
    ensures var item := ui.ed.items[ui.ed.index];
            var quiet := Replaced(ui.ed, item.replace).(active := false, pending := false);
            var after := InsertText(ui.(ed := quiet), item.insert);
            && Accept(ui).ed.lines == after.ed.lines && Accept(ui).ed.row == after.ed.row
            && Accept(ui).ed.col == after.ed.col
            && !Accept(ui).ed.active && !Accept(ui).ed.pending
  {
    ReplacedIsCut(ui.ed, ui.ed.items[ui.ed.index].replace);
  }
}
