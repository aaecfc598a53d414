/**
 * Wrapping styled text into terminal rows: the incremental form the full-screen
 * renderer keeps while a stream grows, and the batch form of the same text.
 *
 * Text is a sequence of tokens: clusters with their cell width, SGR sequences
 * with their parameters, and line breaks.
 */
module StreamRows {
  import opened Prelude

  /** The parameters of an SGR sequence: 0 for an empty one, -1 for one that is no number. */
  type Params = seq<int>

  datatype Tok = Glyph(id: int, cells: nat) | Sgr(params: Params) | Break {
    predicate Resets() {
      Sgr? && IsReset(params)
    }

    predicate Sets() {
      Sgr? && !IsReset(params)
    }
  }

  /** What the wrappers take for a reset: any parameter 0 before one that is no number. */
  predicate IsReset(params: Params) {
    params == [] || AnyZero(params)
  }

  predicate AnyZero(params: Params) {
    params != [] && (params[0] == 0 || (params[0] > 0 && AnyZero(params[1..])))
  }

  /** No parameter at all, or one that is 0 with only positive ones before it. */
  lemma ResetsByParameters(params: Params)
    ensures IsReset(params) <==> params == [] || exists i :: ZeroAt(params, i)
  {
    ZeroSomewhere(params);
  }

  ghost predicate ZeroAt(params: Params, i: nat) {
    i < |params| && params[i] == 0 && forall j | 0 <= j < i :: params[j] > 0
  }

  lemma {:induction false} ZeroSomewhere(params: Params)
    ensures AnyZero(params) <==> exists i :: ZeroAt(params, i)
    decreases params
  {
    if params != [] && params[0] == 0 {
      assert ZeroAt(params, 0);
    } else if params != [] && params[0] > 0 {
      var rest := params[1..];
      ZeroSomewhere(rest);
      if i: nat :| ZeroAt(rest, i) {
        forall j | 0 <= j < i + 1 ensures params[j] > 0 {
          assert j > 0 ==> params[j] == rest[j - 1];
        }
        assert ZeroAt(params, i + 1);
      }
      if i: nat :| ZeroAt(params, i) {
        assert forall j | 0 <= j < i - 1 :: rest[j] == params[j + 1];
        assert ZeroAt(rest, i - 1);
      }
    }
  }

  type Row = seq<Tok>

  /** `ESC[0m`, which ends every styled row. */
  const PLAIN := Sgr([0])

  datatype State = State(rows: seq<Row>, current: Row, col: nat, active: seq<Tok>,
                         lineStart: nat, content: bool, blank: bool)

  const FRESH := State([], [], 0, [], 0, false, false)

  function Close(current: Row, active: seq<Tok>): Row {
    if active != [] then current + [PLAIN] else current
  }

  function Emit(s: State): State {
    s.(rows := s.rows + [Close(s.current, s.active)],
       current := s.active, col := 0, content := false, blank := false)
  }

  function Add(s: State, t: Tok): State {
    s.(current := s.current + [t], content := true, blank := true)
  }

  /** Puts a cluster on the current row and starts a new row when that fills it. */
  function Place(s: State, t: Tok, w: nat): State
    requires t.Glyph?
  {
    var a := Add(s, t).(col := s.col + t.cells);
    if a.col >= w then Emit(a) else a
  }

  function Step(s: State, t: Tok, w: nat): State {
    match t
    case Break =>
      var rows := if s.col > 0 || s.content || |s.rows| == s.lineStart
                  then s.rows + [Close(s.current, s.active)] else s.rows;
      State(rows, s.active, 0, s.active, |rows|, false, true)
    case Sgr(params) =>
      if !IsReset(params) then Add(s, t).(active := s.active + [t]) else
      var a := Add(s, t).(active := []);
      if a.col == 0 && a.current == s.active + [t]
      then a.(current := [], content := false, blank := false) else a
    case Glyph(_, cells) =>
      Place(if cells > 0 && s.col > 0 && s.col + cells > w then Emit(s) else s, t, w)
  }

  function Feed(s: State, toks: seq<Tok>, w: nat): State {
    if toks == [] then s else Step(Feed(s, toks[..|toks| - 1], w), toks[|toks| - 1], w)
  }

  /** The rows on show: the completed ones and, when it matters, the current one. */
  function ShowsCurrent(s: State): bool {
    s.blank || (s.content && s.col > 0)
  }

  function View(s: State): seq<Row> {
    s.rows + if ShowsCurrent(s) then [Close(s.current, s.active)] else []
  }

  lemma {:induction false} FeedConcat(s: State, a: seq<Tok>, b: seq<Tok>, w: nat)
    ensures Feed(s, a + b, w) == Feed(Feed(s, a, w), b, w)
    decreases b
  {
    if b == [] {
      assert a + b == a;
    } else {
      var n := |b| - 1;
      assert (a + b)[..|a + b| - 1] == a + b[..n];
      FeedConcat(s, a, b[..n], w);
    }
  }

  /** Any cutting of a stream into chunks gives the state of the whole. */
  function FeedAll(s: State, chunks: seq<seq<Tok>>, w: nat): State
    decreases chunks
  {
    if chunks == [] then s else FeedAll(Feed(s, chunks[0], w), chunks[1..], w)
  }

  lemma {:induction false} FeedChunks(s: State, chunks: seq<seq<Tok>>, w: nat)
    ensures FeedAll(s, chunks, w) == Feed(s, Flatten(chunks), w)
    decreases chunks
  {
    if chunks != [] {
      FeedConcat(s, chunks[0], Flatten(chunks[1..]), w);
      FeedChunks(Feed(s, chunks[0], w), chunks[1..], w);
    }
  }

  // ---- completed rows never change ------------------------------------------------

  lemma {:induction false} RowsGrow(s: State, toks: seq<Tok>, w: nat)
    ensures s.rows <= Feed(s, toks, w).rows
    decreases toks
  {
    if toks != [] {
      RowsGrow(s, toks[..|toks| - 1], w);
    }
  }

  /**
   * Everything above the last row on show is the same after any more text,
   * although the view may lose its last row.
   */
  lemma FrozenAbove(s: State, toks: seq<Tok>, w: nat, n: nat)
    requires n < |View(s)| || n <= |s.rows|
    ensures n <= |View(Feed(s, toks, w))|
    ensures View(Feed(s, toks, w))[..n] == View(s)[..n]
  {
    RowsGrow(s, toks, w);
    var after := Feed(s, toks, w);
    assert n <= |s.rows|;
    assert View(s)[..n] == s.rows[..n] == after.rows[..n] == View(after)[..n];
  }

  /** The view can really shrink: a reset that cancels a style takes its row away. */
  lemma ViewMayShrink()
    ensures |View(Feed(FRESH, [Sgr([31])], 80))| == 1
    ensures |View(Feed(FRESH, [Sgr([31]), Sgr([0])], 80))| == 0
  {
    var one := [Sgr([31])];
    var two := [Sgr([31]), Sgr([0])];
    assert one[..0] == [];
    assert two[..1] == one;
    assert Feed(FRESH, one, 80) == Step(FRESH, Sgr([31]), 80);
  }

  // ---- meaning ---------------------------------------------------------------------

  /** A cluster as a terminal draws it: with the SGR sequences in force. */
  datatype Cell = Cell(glyph: Tok, style: seq<Tok>)

  function StyleAfter(toks: seq<Tok>): seq<Tok> {
    if toks == [] then []
    else
      var t := toks[|toks| - 1];
      var before := StyleAfter(toks[..|toks| - 1]);
      match t
      case Sgr(params) => if IsReset(params) then [] else before + [t]
      case _ => before
  }

  /** What `toks` draws on a terminal whose style is clean. */
  function Draw(toks: seq<Tok>): seq<Cell> {
    if toks == [] then []
    else
      var t := toks[|toks| - 1];
      var before := toks[..|toks| - 1];
      Draw(before) + if t.Glyph? then [Cell(t, StyleAfter(before))] else []
  }

  function DrawRows(rows: seq<Row>): seq<Cell> {
    if rows == [] then [] else DrawRows(rows[..|rows| - 1]) + Draw(rows[|rows| - 1])
  }

  function Width(toks: seq<Tok>): nat {
    if toks == [] then 0
    else Width(toks[..|toks| - 1]) + if toks[|toks| - 1].Glyph? then toks[|toks| - 1].cells else 0
  }

  /** How many clusters take up room. */
  function Solid(toks: seq<Tok>): nat {
    if toks == [] then 0
    else Solid(toks[..|toks| - 1]) + if toks[|toks| - 1].Glyph? && toks[|toks| - 1].cells > 0 then 1 else 0
  }

  /** A row stands alone: one line, ends clean, and fits or is one over-wide cluster. */
  ghost predicate GoodRow(r: Row, w: nat) {
    && Break !in r
    && StyleAfter(r) == []
    && (Width(r) <= w || Solid(r) == 1)
  }

  ghost predicate GoodRows(rows: seq<Row>, w: nat) {
    forall r | r in rows :: GoodRow(r, w)
  }

  predicate OnlySgr(a: seq<Tok>) {
    forall t | t in a :: t.Sets()
  }

  lemma {:induction false} SgrDrawsNothing(a: seq<Tok>)
    requires OnlySgr(a)
    ensures StyleAfter(a) == a && Draw(a) == [] && Width(a) == 0 && Solid(a) == 0
    decreases a
  {
    if a != [] {
      assert a[|a| - 1].Sets() by { assert a[|a| - 1] in a; }
      SgrDrawsNothing(a[..|a| - 1]);
    }
  }

  lemma Snoc(a: seq<Tok>, t: Tok)
    ensures StyleAfter(a + [t]) == (if t.Sets() then StyleAfter(a) + [t] else if t.Resets() then [] else StyleAfter(a))
    ensures Draw(a + [t]) == Draw(a) + if t.Glyph? then [Cell(t, StyleAfter(a))] else []
    ensures Width(a + [t]) == Width(a) + if t.Glyph? then t.cells else 0
    ensures Solid(a + [t]) == Solid(a) + if t.Glyph? && t.cells > 0 then 1 else 0
  {
    assert (a + [t])[..|a|] == a;
  }

  lemma SnocRows(rows: seq<Row>, r: Row)
    ensures DrawRows(rows + [r]) == DrawRows(rows) + Draw(r)
  {
    assert (rows + [r])[..|rows|] == rows;
  }

  /** What every state keeps about the text `seen` so far. */
  ghost predicate Faithful(s: State, seen: seq<Tok>, w: nat) {
    && GoodRows(s.rows, w)
    && DrawRows(s.rows) + Draw(s.current) == Draw(seen)
    && StyleAfter(s.current) == s.active == StyleAfter(seen)
    && OnlySgr(s.active) && Break !in s.current
    && s.col == Width(s.current) && s.col < w
    && (s.col == 0 ==> Solid(s.current) == 0)
    && (!s.blank ==> Draw(s.current) == [])
    && (Draw(s.current) != [] ==> s.content)
  }

  lemma EmitKeeps(s: State, seen: seq<Tok>, w: nat)
    requires GoodRows(s.rows, w) && w > 0
    requires DrawRows(s.rows) + Draw(s.current) == Draw(seen)
    requires StyleAfter(s.current) == s.active == StyleAfter(seen)
    requires OnlySgr(s.active) && Break !in s.current
    requires Width(s.current) <= w || Solid(s.current) == 1
    ensures Faithful(Emit(s), seen, w)
    ensures GoodRow(Close(s.current, s.active), w) && Draw(Close(s.current, s.active)) == Draw(s.current)
  {
    hide Draw, DrawRows, StyleAfter;
    Snoc(s.current, PLAIN);
    SnocRows(s.rows, Close(s.current, s.active));
    SgrDrawsNothing(s.active);
    hide Width, Solid;
    assert Draw(s.current) + [] == Draw(s.current);
  }

  lemma BreakFaithful(s: State, seen: seq<Tok>, w: nat)
    requires Faithful(s, seen, w)
    ensures Faithful(Step(s, Break, w), seen + [Break], w)
  {
    Snoc(seen, Break);
    EmitKeeps(s, seen, w);
    SgrDrawsNothing(s.active);
  }

  lemma SetFaithful(s: State, seen: seq<Tok>, t: Tok, w: nat)
    requires Faithful(s, seen, w) && t.Sets()
    ensures Faithful(Step(s, t, w), seen + [t], w)
  {
    Snoc(seen, t);
    Snoc(s.current, t);
    hide Draw, DrawRows, StyleAfter, Width, Solid, GoodRow;
  }

  lemma ResetFaithful(s: State, seen: seq<Tok>, t: Tok, w: nat)
    requires Faithful(s, seen, w) && t.Resets()
    ensures Faithful(Step(s, t, w), seen + [t], w)
  {
    Snoc(seen, t);
    Snoc(s.current, t);
    hide Draw, DrawRows, StyleAfter, Width, Solid, GoodRow;
    if s.col == 0 && s.current + [t] == s.active + [t] {
      assert s.current == (s.current + [t])[..|s.current|] == s.active;
      SgrDrawsNothing(s.active);
      SgrDrawsNothing([]);
      assert Step(s, t, w) == s.(current := [], active := [], content := false, blank := false);
    } else {
      assert Step(s, t, w) == s.(current := s.current + [t], active := [], content := true, blank := true);
    }
  }

  /** Adding a cluster to the current row, which may leave it full. */
  ghost predicate Nearly(s: State, seen: seq<Tok>, w: nat) {
    && GoodRows(s.rows, w)
    && DrawRows(s.rows) + Draw(s.current) == Draw(seen)
    && StyleAfter(s.current) == s.active == StyleAfter(seen)
    && OnlySgr(s.active) && Break !in s.current
    && s.col == Width(s.current)
    && (s.col <= w || Solid(s.current) == 1)
    && (s.col == 0 ==> Solid(s.current) == 0)
    && s.blank && s.content
  }

  lemma AddKeeps(b: State, seen: seq<Tok>, t: Tok, w: nat)
    requires Faithful(b, seen, w) && t.Glyph?
    requires b.col == 0 || t.cells == 0 || b.col + t.cells <= w
    ensures Nearly(Add(b, t).(col := b.col + t.cells), seen + [t], w)
  {
    Snoc(seen, t);
    Snoc(b.current, t);
    Assoc(DrawRows(b.rows), Draw(b.current), [Cell(t, b.active)]);
  }

  lemma PlaceKeeps(b: State, seen: seq<Tok>, t: Tok, w: nat)
    requires Faithful(b, seen, w) && t.Glyph?
    requires b.col == 0 || t.cells == 0 || b.col + t.cells <= w
    ensures Faithful(Place(b, t, w), seen + [t], w)
  {
    AddKeeps(b, seen, t, w);
    var a := Add(b, t).(col := b.col + t.cells);
    if a.col >= w {
      EmitKeeps(a, seen + [t], w);
    }
  }

  lemma GlyphFaithful(s: State, seen: seq<Tok>, t: Tok, w: nat)
    requires Faithful(s, seen, w) && t.Glyph?
    ensures Faithful(Step(s, t, w), seen + [t], w)
  {
    if t.cells > 0 && s.col > 0 && s.col + t.cells > w {
      EmitKeeps(s, seen, w);
      PlaceKeeps(Emit(s), seen, t, w);
    } else {
      PlaceKeeps(s, seen, t, w);
    }
  }

  lemma StepFaithful(s: State, seen: seq<Tok>, t: Tok, w: nat)
    requires Faithful(s, seen, w)
    ensures Faithful(Step(s, t, w), seen + [t], w)
  {
    match t
    case Break => BreakFaithful(s, seen, w);
    case Glyph(_, _) => GlyphFaithful(s, seen, t, w);
    case Sgr(_) =>
      if t.Resets() {
        ResetFaithful(s, seen, t, w);
      } else {
        SetFaithful(s, seen, t, w);
      }
  }

  lemma {:induction false} FeedFaithful(toks: seq<Tok>, w: nat)
    requires w > 0
    ensures Faithful(Feed(FRESH, toks, w), toks, w)
    decreases toks
  {
    if toks != [] {
      var n := |toks| - 1;
      FeedFaithful(toks[..n], w);
      assert toks[..n] + [toks[n]] == toks;
      StepFaithful(Feed(FRESH, toks[..n], w), toks[..n], toks[n], w);
    }
  }

  /**
   * Wrapping preserves meaning: drawing each row of the view alone, from a clean
   * style, draws the clusters of the whole stream in order, each in its style;
   * every row ends clean and none is wider than the terminal unless it is one
   * over-wide cluster.
   */
  lemma WrappingPreservesMeaning(toks: seq<Tok>, w: nat)
    requires w > 0
    ensures DrawRows(View(Feed(FRESH, toks, w))) == Draw(toks)
    ensures GoodRows(View(Feed(FRESH, toks, w)), w)
  {
    var s := Feed(FRESH, toks, w);
    FeedFaithful(toks, w);
    EmitKeeps(s, toks, w);
    if ShowsCurrent(s) {
      SnocRows(s.rows, Close(s.current, s.active));
    } else {
      assert View(s) == s.rows;
    }
  }
}
