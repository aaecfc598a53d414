/**
 * The line editor with its asynchronous completion state, as functions on
 * values, and its meaning as a flat string with an offset.
 */
module Editor {
  import opened Prelude
  import opened EditorText

  datatype Item = Item(insert: string, replace: int)

  datatype Mode = NoMode | Tab | Refresh

  /** `gen` is the generation of the latest request or cancellation. */
  datatype Ed = Ed(lines: seq<string>, row: nat, col: nat,
                   items: seq<Item>, index: nat, active: bool, pending: bool, gen: nat, mode: Mode)

  datatype Request = Request(gen: nat, line: string, row: nat, col: nat, thread: string, snapshot: int)

  /** The app around the editor: the completion worker's slot and the current identity. */
  datatype Host = Host(worker: bool, stopping: bool, slot: Option<Request>, thread: string, snapshot: int)

  datatype Ui = Ui(ed: Ed, host: Host)

  ghost predicate Well(ed: Ed) {
    && Lines(ed.lines)
    && ed.row < |ed.lines|
    && ed.col <= |ed.lines[ed.row]|
    && (ed.active ==> ed.index < |ed.items|)
    && (ed.pending ==> !ed.active && ed.items == [] && ed.index == 0)
  }

  // ---- the flat meaning ---------------------------------------------------------------

  function Text(ed: Ed): string
    requires ed.lines != []
  {
    Join(ed.lines)
  }

  ghost function Offset(ed: Ed): nat
    requires ed.row < |ed.lines|
  {
    |Before(ed.lines[..ed.row])| + ed.col
  }

  /** The text is what is before the cursor's line, the line, and what is after it. */
  lemma AroundCursor(ed: Ed)
    requires ed.row < |ed.lines|
    ensures Text(ed) == Before(ed.lines[..ed.row]) + ed.lines[ed.row] + After(ed.lines[ed.row + 1..])
  {
    assert ed.lines == ed.lines[..ed.row] + [ed.lines[ed.row]] + ed.lines[ed.row + 1..];
    JoinAround(ed.lines[..ed.row], ed.lines[ed.row], ed.lines[ed.row + 1..]);
  }

  // ---- completion state -----------------------------------------------------------------

  function Cancel(ed: Ed): Ed {
    ed.(gen := ed.gen + 1, pending := false, mode := NoMode, active := false, items := [], index := 0)
  }

  /** Asks for completions of the present line; the newest request takes the slot. */
  function Ask(ui: Ui, mode: Mode): Ui
    requires ui.ed.row < |ui.ed.lines|
  {
    var ed := ui.ed.(gen := ui.ed.gen + 1, pending := ui.host.worker, mode := if ui.host.worker then mode else NoMode,
                     active := false, items := [], index := 0);
    var request := Request(ed.gen, ed.lines[ed.row], ed.row, ed.col, ui.host.thread, ui.host.snapshot);
    Ui(ed, if ui.host.worker && !ui.host.stopping then ui.host.(slot := Some(request)) else ui.host)
  }

  function Refreshed(ui: Ui): Ui
    requires ui.ed.row < |ui.ed.lines|
  {
    if ui.ed.active || ui.ed.pending then Ask(ui, Refresh) else ui
  }

  function Dismissed(ed: Ed): Ed {
    if ed.active || ed.pending then Cancel(ed) else ed
  }

  // ---- edits --------------------------------------------------------------------------------

  function Clamped(ed: Ed, row: int, col: int): (e: Ed)
    requires ed.lines != []
    ensures e.row < |e.lines| && e.col <= |e.lines[e.row]|
  {
    var r := Max(0, Min(row, |ed.lines| - 1));
    ed.(row := r, col := Max(0, Min(col, |ed.lines[r]|)))
  }

  function InsertOneLine(ui: Ui, text: string): Ui
    requires ui.ed.row < |ui.ed.lines| && ui.ed.col <= |ui.ed.lines[ui.ed.row]|
  {
    var ed := ui.ed;
    var line := ed.lines[ed.row];
    var next := ed.(lines := ed.lines[ed.row := line[..ed.col] + text + line[ed.col..]], col := ed.col + |text|);
    Refreshed(ui.(ed := next))
  }

  function InsertLines(ui: Ui, parts: seq<string>): Ui
    requires ui.ed.row < |ui.ed.lines| && ui.ed.col <= |ui.ed.lines[ui.ed.row]| && |parts| > 1
  {
    var ed := Dismissed(ui.ed);
    var line := ed.lines[ed.row];
    var n := |parts| - 1;
    ui.(ed := ed.(
      lines := ed.lines[..ed.row] + Spread(line[..ed.col], parts, line[ed.col..]) + ed.lines[ed.row + 1..],
      row := ed.row + n, col := |parts[n]|))
  }

  /** `insert_text` and `insert_text_block`. */
  function InsertText(ui: Ui, text: string): Ui
    requires ui.ed.row < |ui.ed.lines| && ui.ed.col <= |ui.ed.lines[ui.ed.row]|
  {
    if text == "" then ui
    else
      var parts := Split(Normalize(text));
      if |parts| == 1 then InsertOneLine(ui, Normalize(text)) else InsertLines(ui, parts)
  }

  function DeleteChar(ui: Ui): Ui
    requires ui.ed.row < |ui.ed.lines| && ui.ed.col <= |ui.ed.lines[ui.ed.row]|
  {
    var ed := ui.ed;
    var line := ed.lines[ed.row];
    if ed.col < |line|
    then Refreshed(ui.(ed := ed.(lines := ed.lines[ed.row := line[..ed.col] + line[ed.col + 1..]])))
    else ui
  }

  function Backspace(ui: Ui): Ui
    requires ui.ed.row < |ui.ed.lines| && ui.ed.col <= |ui.ed.lines[ui.ed.row]|
  {
    var ed := ui.ed;
    var line := ed.lines[ed.row];
    if ed.col > 0 then
      Refreshed(ui.(ed := ed.(lines := ed.lines[ed.row := line[..ed.col - 1] + line[ed.col..]], col := ed.col - 1)))
    else if ed.row > 0 then
      var above := ed.lines[ed.row - 1];
      Refreshed(ui.(ed := ed.(lines := ed.lines[..ed.row - 1] + [above + line] + ed.lines[ed.row + 1..],
                              row := ed.row - 1, col := |above|)))
    else ui
  }

  function InsertNewline(ui: Ui): Ui
    requires ui.ed.row < |ui.ed.lines| && ui.ed.col <= |ui.ed.lines[ui.ed.row]|
  {
    var ed := Dismissed(ui.ed);
    var line := ed.lines[ed.row];
    ui.(ed := ed.(lines := ed.lines[..ed.row] + [line[..ed.col], line[ed.col..]] + ed.lines[ed.row + 1..],
                  row := ed.row + 1, col := 0))
  }

  function MoveCursor(ui: Ui, deltaRow: int, deltaCol: int): Ui
    requires ui.ed.lines != []
  {
    var next := Clamped(ui.ed, ui.ed.row + deltaRow, ui.ed.col + deltaCol);
    if next.row == ui.ed.row && next.col == ui.ed.col then ui.(ed := next) else Refreshed(ui.(ed := next))
  }

  function SetText(ui: Ui, text: string): Ui
    requires ui.ed.lines != []
  {
    var next := Clamped(ui.ed.(lines := Split(text)), ui.ed.row, ui.ed.col);
    ui.(ed := if Text(ui.ed) != text then Dismissed(next) else next)
  }

  // ---- completion results -----------------------------------------------------------------------

  predicate IsSpace(c: char) {
    || c == ' ' || '\t' <= c <= '\r' || '\U{001c}' <= c <= '\U{001f}' || c == '\U{0085}' || c == '\U{00a0}'
    || c == '\U{1680}' || '\U{2000}' <= c <= '\U{200a}' || '\U{2028}' <= c <= '\U{2029}'
    || c == '\U{202f}' || c == '\U{205f}' || c == '\U{3000}'
  }

  /** Among ASCII characters the blanks are by code 9 to 13 and 28 to 32. */
  lemma SpacesByCode(c: char)
    requires c as int < 128
    ensures IsSpace(c) <==> 9 <= c as int <= 13 || 28 <= c as int <= 32
  {
  }

  /** The end of the last token before `col`. */
  function TokenEnd(line: string, col: nat): (i: nat)
    requires col <= |line|
    ensures i <= col
    ensures forall k | i <= k < col :: IsSpace(line[k])
    ensures i > 0 ==> !IsSpace(line[i - 1])
  {
    if col > 0 && IsSpace(line[col - 1]) then TokenEnd(line, col - 1) else col
  }

  /** Removes what the chosen item replaces. */
  function Replaced(ed: Ed, n: int): Ed
    requires ed.row < |ed.lines| && ed.col <= |ed.lines[ed.row]|
  {
    var line := ed.lines[ed.row];
    var i := TokenEnd(line, ed.col);
    var gone := Min(n, i);
    if gone > 0 then ed.(lines := ed.lines[ed.row := line[..i - gone] + line[i..]], col := i - gone) else ed
  }

  function Accept(ui: Ui): Ui
    requires ui.ed.row < |ui.ed.lines| && ui.ed.col <= |ui.ed.lines[ui.ed.row]|
    requires ui.ed.active ==> ui.ed.index < |ui.ed.items|
  {
    if !ui.ed.active then ui
    else
      var item := ui.ed.items[ui.ed.index];
      var ed := Replaced(ui.ed, item.replace);
      var inserted := if item.insert == "" then ui.(ed := ed)
                      else InsertText(ui.(ed := ed.(active := false, pending := false)), item.insert);
      inserted.(ed := Cancel(inserted.ed))
  }

  const MOST_ITEMS := 200

  function ApplyItems(ui: Ui, raw: seq<Item>, mode: Mode): Ui
    requires ui.ed.row < |ui.ed.lines| && ui.ed.col <= |ui.ed.lines[ui.ed.row]|
  {
    var items := raw[..Min(MOST_ITEMS, |raw|)];
    var ed := ui.ed.(pending := false, mode := NoMode, items := items);
    if items == [] then ui.(ed := ed.(active := false, index := 0))
    else if mode == Tab && |items| == 1 then Accept(ui.(ed := ed.(index := 0, active := true)))
    else ui.(ed := ed.(index := if ed.index >= |items| then 0 else ed.index, active := true))
  }

  /** Applies a result only while its generation is latest and its place is current. */
  function ApplyResult(ui: Ui, r: Request, raw: seq<Item>): Ui
    requires ui.ed.row < |ui.ed.lines| && ui.ed.col <= |ui.ed.lines[ui.ed.row]|
  {
    var ed := ui.ed;
    if r.gen != ed.gen || !ed.pending then ui
    else if r.row != ed.row || r.col != ed.col || ed.lines[ed.row] != r.line then ui.(ed := Cancel(ed))
    else ApplyItems(ui, raw, if ed.mode == NoMode then Refresh else ed.mode)
  }

  function Discard(ui: Ui, gen: nat): Ui {
    if gen != ui.ed.gen || !ui.ed.pending then ui else ui.(ed := Cancel(ui.ed))
  }

  /** The app's side: a result of another thread or snapshot is discarded. */
  function Deliver(ui: Ui, r: Request, raw: seq<Item>): Ui
    requires ui.ed.row < |ui.ed.lines| && ui.ed.col <= |ui.ed.lines[ui.ed.row]|
  {
    if ui.host.thread != r.thread || ui.host.snapshot != r.snapshot then Discard(ui, r.gen)
    else ApplyResult(ui, r, raw)
  }

  function PressTab(ui: Ui): Ui
    requires ui.ed.row < |ui.ed.lines| && ui.ed.col <= |ui.ed.lines[ui.ed.row]|
    requires ui.ed.active ==> ui.ed.index < |ui.ed.items|
  {
    if ui.ed.active then Accept(ui)
    else if ui.ed.pending then ui
    else Ask(ui, Tab)
  }

  /** Up and down in an open popup. */
  function MoveChoice(ui: Ui, delta: int): Ui {
    if ui.ed.active && ui.ed.items != []
    then ui.(ed := ui.ed.(index := (ui.ed.index + delta) % |ui.ed.items|)) else ui
  }
}
