/**
 * What a terminal makes of SGR sequences (ECMA-48 section 8.3.117, with the
 * colours of ISO 8613-6), and when the wrapper's simpler reading of them keeps
 * every cluster's rendition.
 */
module Rendition {
  import opened Prelude
  import opened StreamRows

  /** What the aspects of a rendition are set to, [] being the default. */
  type Look = map<int, Params>

  /** Each by the code that sets it: bold, faint, italic, ... and the three colours. */
  const ASPECTS: set<int> := {1, 2, 3, 4, 5, 7, 8, 9, 38, 48, 58}

  const COLOURS: set<int> := {38, 48, 58}

  const CLEAN: Look := map a | a in ASPECTS :: []

  /** The aspects that one code decides. */
  function Code(n: int): Look {
    if n == 0 then CLEAN
    else if n in ASPECTS then map[n := [n]]
    else if n == 6 then map[5 := [n]]
    else if n == 21 then map[4 := [n]]
    else if n == 22 then map[1 := [], 2 := []]
    else if 23 <= n <= 29 && n != 26 then map[n - 20 := []]
    else if 30 <= n <= 37 || 90 <= n <= 97 then map[38 := [n]]
    else if 40 <= n <= 47 || 100 <= n <= 107 then map[48 := [n]]
    else if n == 39 || n == 49 || n == 59 then map[n - 1 := []]
    else map[]
  }

  /** How many parameters a colour takes: an index, or three components; 0 when they are not there. */
  function ColourLength(p: Params): (n: nat)
    ensures n <= |p|
  {
    if |p| >= 3 && p[1] == 5 then 3 else if |p| >= 5 && p[1] == 2 then 5 else 0
  }

  function Effect(p: Params): Look
    decreases |p|
  {
    if p == [] then map[]
    else if p[0] !in COLOURS then Code(p[0]) + Effect(p[1..])
    else if ColourLength(p) == 0 then map[]
    else map[p[0] := p[..ColourLength(p)]] + Effect(p[ColourLength(p)..])
  }

  /** No parameter means 0; with one that is no number it is another control function. */
  function Change(p: Params): Look {
    if p == [] then CLEAN else if -1 in p then map[] else Effect(p)
  }

  function LookAfter(toks: seq<Tok>): Look {
    if toks == [] then CLEAN
    else
      var t := toks[|toks| - 1];
      LookAfter(toks[..|toks| - 1]) + if t.Sgr? then Change(t.params) else map[]
  }

  /** A cluster as the terminal shows it. */
  datatype Shown = Shown(glyph: Tok, look: Look)

  function Show(toks: seq<Tok>): seq<Shown> {
    if toks == [] then []
    else
      var t := toks[|toks| - 1];
      var before := toks[..|toks| - 1];
      Show(before) + if t.Glyph? then [Shown(t, LookAfter(before))] else []
  }

  function ShowRows(rows: seq<Row>): seq<Shown> {
    if rows == [] then [] else ShowRows(rows[..|rows| - 1]) + Show(rows[|rows| - 1])
  }

  /** Which code of the standard puts back what another sets. */
  predicate Undoes(off: int, on: int) {
    || (off == 22 && (on == 1 || on == 2)) || (off == 23 && on == 3) || (off == 24 && (on == 4 || on == 21))
    || (off == 25 && (on == 5 || on == 6)) || (off == 27 && on == 7) || (off == 28 && on == 8) || (off == 29 && on == 9)
    || (off == 39 && (30 <= on <= 37 || 90 <= on <= 97)) || (off == 49 && (40 <= on <= 47 || 100 <= on <= 107))
  }

  lemma UndoneAspect(off: int, on: int) returns (a: int)
    requires Undoes(off, on)
    ensures a in Code(on) && a in Code(off) && Code(on)[a] != []
    ensures Code(on).Keys <= Code(off).Keys <= ASPECTS && forall x | x in Code(off) :: Code(off)[x] == []
  {
    a := if on == 21 then 4 else if on == 6 then 5 else if on <= 9 then on else off - 1;
  }

  /** It does so whatever else is set, and changes nothing that is at its default; 0 puts back all. */
  lemma OffUndoesOn(off: int, on: int, look: Look)
    requires Undoes(off, on) && look.Keys == ASPECTS
    ensures (look + Code(on)) + Code(off) == look + Code(off) != look + Code(on)
    ensures CLEAN + Code(on) != CLEAN && CLEAN + Code(off) == CLEAN && (look + Code(on)) + Code(0) == CLEAN
  {
    var a := UndoneAspect(off, on);
    assert Code(0) == CLEAN;
    hide Code, Undoes;
    assert (look + Code(on))[a] != (look + Code(off))[a];
    assert (CLEAN + Code(on))[a] != CLEAN[a];
  }

  // ---- where the wrapper and the terminal agree ------------------------------------------

  /** What the wrapper takes for a reset leaves the terminal's rendition clean. */
  predicate Honest(p: Params) {
    IsReset(p) ==> Change(p) == CLEAN
  }

  predicate AllHonest(toks: seq<Tok>) {
    forall t | t in toks && t.Sgr? :: Honest(t.params)
  }

  lemma {:induction false} EffectKeys(p: Params)
    ensures Effect(p).Keys <= ASPECTS
    decreases |p|
  {
    if p != [] {
      if p[0] !in COLOURS {
        EffectKeys(p[1..]);
      } else if ColourLength(p) > 0 {
        EffectKeys(p[ColourLength(p)..]);
      }
    }
  }

  lemma ChangeKeys(p: Params)
    ensures Change(p).Keys <= ASPECTS
  {
    EffectKeys(p);
  }

  lemma {:induction false} LookKeys(toks: seq<Tok>)
    ensures LookAfter(toks).Keys == ASPECTS
    decreases toks
  {
    if toks != [] {
      var t := toks[|toks| - 1];
      LookKeys(toks[..|toks| - 1]);
      if t.Sgr? {
        ChangeKeys(t.params);
      }
    }
  }

  /** The wrapper is right about a reset if and only if the terminal is clean after it, whatever was set. */
  lemma HonestIff(p: Params)
    requires IsReset(p)
    ensures Honest(p) <==> forall look: Look | look.Keys == ASPECTS :: look + Change(p) == CLEAN
  {
    ChangeKeys(p);
    if forall look: Look | look.Keys == ASPECTS :: look + Change(p) == CLEAN {
      var all: Look := map a | a in ASPECTS :: [1];
      assert all + Change(p) == CLEAN;
      forall a | a in ASPECTS ensures a in Change(p) && Change(p)[a] == [] {
        assert (all + Change(p))[a] == [];
      }
      assert Change(p) == CLEAN;
    }
  }

  // ---- preservation -----------------------------------------------------------------------

  lemma LookSnoc(toks: seq<Tok>, t: Tok)
    ensures LookAfter(toks + [t]) == LookAfter(toks) + if t.Sgr? then Change(t.params) else map[]
    ensures Show(toks + [t]) == Show(toks) + if t.Glyph? then [Shown(t, LookAfter(toks))] else []
  {
    assert (toks + [t])[..|toks|] == toks;
  }

  /** Every sequence of the text that the wrapper takes for a reset leaves the rendition clean there. */
  predicate ResetsClean(toks: seq<Tok>) {
    forall k | 0 <= k < |toks| && toks[k].Resets() :: LookAfter(toks[..k + 1]) == CLEAN
  }

  lemma CleanSnoc(toks: seq<Tok>, t: Tok)
    ensures ResetsClean(toks + [t]) <==> ResetsClean(toks) && (t.Resets() ==> LookAfter(toks + [t]) == CLEAN)
  {
    hide LookAfter, IsReset;
    var all := toks + [t];
    assert all[..|toks| + 1] == all && all[|toks|] == t;
    forall k | 0 <= k < |toks| ensures all[..k + 1] == toks[..k + 1] && all[k] == toks[k] {
    }
    if ResetsClean(all) {
      forall k | 0 <= k < |toks| && toks[k].Resets() ensures LookAfter(toks[..k + 1]) == CLEAN {
        assert all[k].Resets();
      }
      assert t.Resets() ==> all[|toks|].Resets();
    }
  }

  /** Honest sequences leave it clean wherever they stand. */
  lemma HonestIsClean(toks: seq<Tok>)
    requires AllHonest(toks)
    ensures ResetsClean(toks)
  {
    hide IsReset, Change;
    forall k | 0 <= k < |toks| && toks[k].Resets() ensures LookAfter(toks[..k + 1]) == CLEAN {
      assert toks[k] in toks && toks[..k + 1] == toks[..k] + [toks[k]];
      LookSnoc(toks[..k], toks[k]);
      LookKeys(toks[..k]);
    }
  }

  /** The styles the wrapper has in force stand for the terminal's rendition. */
  lemma {:induction false} LooksFollow(toks: seq<Tok>)
    requires ResetsClean(toks)
    ensures LookAfter(toks) == LookAfter(StyleAfter(toks))
    decreases toks
  {
    if toks != [] {
      var n := |toks| - 1;
      assert toks == toks[..n] + [toks[n]];
      CleanSnoc(toks[..n], toks[n]);
      LooksFollow(toks[..n]);
      LookSnoc(StyleAfter(toks[..n]), toks[n]);
      hide Change, IsReset, ResetsClean;
    }
  }

  function AsShown(cells: seq<Cell>): seq<Shown> {
    seq(|cells|, i requires 0 <= i < |cells| => Shown(cells[i].glyph, LookAfter(cells[i].style)))
  }

  lemma AsShownConcat(a: seq<Cell>, b: seq<Cell>)
    ensures AsShown(a + b) == AsShown(a) + AsShown(b)
  {
  }

  lemma {:induction false} ShowFollows(toks: seq<Tok>)
    requires ResetsClean(toks)
    ensures Show(toks) == AsShown(Draw(toks))
    decreases toks
  {
    if toks != [] {
      var n := |toks| - 1;
      assert toks == toks[..n] + [toks[n]];
      CleanSnoc(toks[..n], toks[n]);
      ShowFollows(toks[..n]);
      LooksFollow(toks[..n]);
      hide ResetsClean;
    }
  }

  lemma {:induction false} ShowRowsFollow(rows: seq<Row>)
    requires forall r | r in rows :: ResetsClean(r)
    ensures ShowRows(rows) == AsShown(DrawRows(rows))
    decreases rows
  {
    if rows != [] {
      var n := |rows| - 1;
      ShowRowsFollow(rows[..n]);
      assert rows[n] in rows;
      ShowFollows(rows[n]);
      AsShownConcat(DrawRows(rows[..n]), Draw(rows[n]));
      hide Show, Draw, ResetsClean, AsShown;
    }
  }

  /** On the rows too, resets leave the rendition clean. */
  ghost predicate CleanState(s: State) {
    ResetsClean(s.current) && forall r | r in s.rows :: ResetsClean(r)
  }

  lemma PlainIsHonest()
    ensures Change([0]) == CLEAN
  {
    assert [0][1..] == [];
    assert Effect([0]) == CLEAN + Effect([]);
  }

  lemma SettingIsClean(active: seq<Tok>)
    requires OnlySgr(active)
    ensures ResetsClean(active)
  {
    hide IsReset;
    assert forall k | 0 <= k < |active| :: active[k] in active;
  }

  lemma CloseClean(s: State)
    requires CleanState(s)
    ensures ResetsClean(Close(s.current, s.active))
  {
    hide ResetsClean, Change;
    PlainIsHonest();
    LookKeys(s.current);
    LookSnoc(s.current, PLAIN);
    CleanSnoc(s.current, PLAIN);
  }

  lemma EmitClean(s: State)
    requires CleanState(s) && OnlySgr(s.active)
    ensures CleanState(Emit(s))
  {
    hide ResetsClean;
    CloseClean(s);
    SettingIsClean(s.active);
  }

  /** A row has the rendition of the stream, so a reset that is clean there is clean here. */
  lemma SgrClean(s: State, seen: seq<Tok>, t: Tok, w: nat)
    requires Faithful(s, seen, w) && CleanState(s) && ResetsClean(seen) && t.Sgr?
    requires ResetsClean(seen + [t])
    ensures CleanState(Step(s, t, w))
  {
    hide Draw, DrawRows, Width, Solid, GoodRows;
    CleanSnoc(seen, t);
    CleanSnoc(s.current, t);
    LooksFollow(seen);
    LooksFollow(s.current);
    LookSnoc(seen, t);
    LookSnoc(s.current, t);
    SettingIsClean([]);
    hide ResetsClean, LookAfter, Change, StyleAfter, IsReset;
  }

  lemma OtherClean(s: State, t: Tok, w: nat)
    requires CleanState(s) && OnlySgr(s.active) && !t.Sgr?
    ensures CleanState(Step(s, t, w))
  {
    hide ResetsClean;
    EmitClean(s);
    CloseClean(s);
    SettingIsClean(s.active);
    if t.Glyph? {
      var b := if t.cells > 0 && s.col > 0 && s.col + t.cells > w then Emit(s) else s;
      CleanSnoc(b.current, t);
      EmitClean(Add(b, t).(col := b.col + t.cells));
    }
  }

  lemma {:induction false} FeedClean(toks: seq<Tok>, w: nat)
    requires w > 0 && ResetsClean(toks)
    ensures CleanState(Feed(FRESH, toks, w))
    decreases toks
  {
    if toks != [] {
      var n := |toks| - 1;
      var s := Feed(FRESH, toks[..n], w);
      assert toks == toks[..n] + [toks[n]];
      CleanSnoc(toks[..n], toks[n]);
      FeedClean(toks[..n], w);
      FeedFaithful(toks[..n], w);
      assert Feed(FRESH, toks, w) == Step(s, toks[n], w);
      assert OnlySgr(s.active);
      hide Step, ResetsClean, Feed, Faithful;
      if toks[n].Sgr? {
        SgrClean(s, toks[..n], toks[n], w);
      } else {
        OtherClean(s, toks[n], w);
      }
    }
  }

  /**
   * Wrapping preserves what the terminal shows of every text in which the sequences
   * that the wrapper takes for resets leave the rendition clean: the rows, each
   * shown alone from a clean rendition, show the clusters of the stream in order,
   * each in its rendition, and every row ends clean.
   */
  lemma WrappingPreservesLooks(toks: seq<Tok>, w: nat)
    requires w > 0 && ResetsClean(toks)
    ensures ShowRows(View(Feed(FRESH, toks, w))) == Show(toks)
    ensures forall r | r in View(Feed(FRESH, toks, w)) :: LookAfter(r) == CLEAN
  {
    var s := Feed(FRESH, toks, w);
    FeedClean(toks, w);
    CloseClean(s);
    WrappingPreservesMeaning(toks, w);
    hide Feed, Close, ResetsClean;
    ShowRowsFollow(View(s));
    ShowFollows(toks);
    forall r | r in View(s) ensures LookAfter(r) == CLEAN {
      LooksFollow(r);
    }
  }

  // ---- and only then ------------------------------------------------------------------------

  /** Text of one sequence, of honest ones, and of anything else. */
  ghost predicate MadeOf(toks: seq<Tok>, p: Params) {
    forall t | t in toks && t.Sgr? :: t.params == p || Honest(t.params)
  }

  ghost predicate Preserved(toks: seq<Tok>, w: nat) {
    ShowRows(View(Feed(FRESH, toks, w))) == Show(toks)
  }

  const INK := Glyph(1, 1)

  lemma FeedNext(toks: seq<Tok>, t: Tok, w: nat)
    ensures Feed(FRESH, toks + [t], w) == Step(Feed(FRESH, toks, w), t, w)
  {
    assert (toks + [t])[..|toks|] == toks;
    hide Step;
  }

  /** Nothing fed, or one style set. */
  predicate Begins(styles: seq<Tok>) {
    styles == [] || (|styles| == 1 && styles[0].Sets())
  }

  lemma BeginsState(styles: seq<Tok>)
    requires Begins(styles)
    ensures var c := styles != []; Feed(FRESH, styles, 80) == State([], styles, 0, styles, 0, c, c)
  {
    if styles != [] {
      FeedNext([], styles[0], 80);
      assert [] + [styles[0]] == styles && Feed(FRESH, [], 80) == FRESH;
      hide Feed, IsReset;
    }
  }

  lemma ResetState(styles: seq<Tok>, p: Params, c: bool)
    requires IsReset(p)
    ensures Step(State([], styles, 0, styles, 0, c, c), Sgr(p), 80) == FRESH
  {
    hide IsReset;
  }

  /** At the start of a row a reset takes the styles before it, and itself, away. */
  lemma ResetVanishes(styles: seq<Tok>, p: Params)
    requires IsReset(p) && Begins(styles)
    ensures View(Feed(FRESH, styles + [Sgr(p)] + [INK], 80)) == [[INK]]
  {
    BeginsState(styles);
    FeedNext(styles, Sgr(p), 80);
    FeedNext(styles + [Sgr(p)], INK, 80);
    hide Feed, IsReset, Begins;
    ResetState(styles, p, styles != []);
    assert [] + [INK] == [INK];
    assert Step(FRESH, INK, 80) == State([], [INK], 1, [], 0, true, true);
  }

  lemma ShowInk(toks: seq<Tok>)
    requires forall t | t in toks :: t.Sgr?
    ensures Show(toks + [INK]) == [Shown(INK, LookAfter(toks))]
  {
    LookSnoc(toks, INK);
    StylesShowNothing(toks);
  }

  lemma {:induction false} StylesShowNothing(toks: seq<Tok>)
    requires forall t | t in toks :: t.Sgr?
    ensures Show(toks) == []
    decreases toks
  {
    if toks != [] {
      assert toks[|toks| - 1] in toks;
      StylesShowNothing(toks[..|toks| - 1]);
    }
  }

  lemma ShowOnlyRow()
    ensures ShowRows([[INK]]) == [Shown(INK, CLEAN)]
  {
    var row: Row := [INK];
    assert [row][..0] == [] && row[..0] == [];
    assert ShowRows([row]) == ShowRows([]) + Show(row);
  }

  /** A sequence that sets one aspect and nothing else. */
  function Setter(a: int): Params
    requires a in ASPECTS
  {
    if a == 38 then [31] else if a == 48 then [41] else if a == 58 then [58, 5, 1] else [a]
  }

  lemma OneCode(n: int)
    requires n > 0 && n !in COLOURS
    ensures !IsReset([n]) && Change([n]) == Code(n)
  {
    assert !AnyZero([n]) by { assert [n][1..] == []; }
    assert Effect([n]) == Code(n) + Effect([]);
  }

  lemma OneColour()
    ensures !IsReset([58, 5, 1]) && Change([58, 5, 1]) == map[58 := [58, 5, 1]]
  {
    var p := [58, 5, 1];
    assert p[1..] == [5, 1] && p[1..][1..] == [1] && [1][1..] == [] && p[3..] == [] && p[..3] == p;
    assert !AnyZero([1]) && !AnyZero(p[1..]);
    assert Effect(p) == map[58 := p] + Effect([]);
  }

  lemma SetterSets(a: int)
    requires a in ASPECTS
    ensures !IsReset(Setter(a)) && Change(Setter(a)).Keys == {a} && Change(Setter(a))[a] != []
  {
    hide Change, IsReset;
    if a == 58 {
      OneColour();
    } else {
      OneCode(Setter(a)[0]);
    }
  }

  /** Set something, then the sequence, then a cluster: the wrapper shows the cluster plain. */
  lemma DishonestIsSeen(styles: seq<Tok>, p: Params)
    requires IsReset(p) && Begins(styles)
    requires LookAfter(styles) + Change(p) != CLEAN
    ensures !Preserved(styles + [Sgr(p)] + [INK], 80)
  {
    hide Change, IsReset, Show, LookAfter;
    ResetVanishes(styles, p);
    hide Feed, View;
    LookSnoc(styles, Sgr(p));
    ShowInk(styles + [Sgr(p)]);
    ShowOnlyRow();
    hide ShowRows;
  }

  /** A sequence that clears what it touches but not everything leaves some aspect alone. */
  lemma LeavesAlone(p: Params) returns (a: int)
    requires Change(p) != CLEAN && CLEAN + Change(p) == CLEAN
    ensures a in ASPECTS && a !in Change(p)
  {
    ChangeKeys(p);
    hide Change;
    assert (forall x | x in ASPECTS :: x in Change(p)) ==> Change(p) == CLEAN + Change(p);
    a :| a in ASPECTS && a !in Change(p);
  }

  lemma SetterStays(p: Params, a: int)
    requires a in ASPECTS && a !in Change(p)
    ensures var styles := [Sgr(Setter(a))];
            Begins(styles) && !IsReset(Setter(a)) && LookAfter(styles) + Change(p) != CLEAN
  {
    SetterSets(a);
    hide Change, IsReset, Setter;
    assert [] + [Sgr(Setter(a))] == [Sgr(Setter(a))];
    LookSnoc([], Sgr(Setter(a)));
    hide LookAfter;
    assert (LookAfter([Sgr(Setter(a))]) + Change(p))[a] != [];
  }

  /** Styles after which a sequence does not leave the rendition clean. */
  lemma SomethingLeft(p: Params) returns (styles: seq<Tok>)
    requires !Honest(p)
    ensures Begins(styles) && LookAfter(styles) + Change(p) != CLEAN
    ensures forall t | t in styles :: t.Sgr? && Honest(t.params)
  {
    hide Change, IsReset, Setter;
    assert LookAfter([]) == CLEAN;
    hide LookAfter;
    styles := [];
    if CLEAN + Change(p) == CLEAN {
      var a := LeavesAlone(p);
      SetterStays(p, a);
      styles := [Sgr(Setter(a))];
    }
  }

  /**
   * A sequence is safe in every text made of it and honest ones, at every width, if
   * and only if it is honest.
   */
  lemma SequenceIsPreservedIff(p: Params)
    ensures Honest(p) <==> forall toks, w: nat | w > 0 && MadeOf(toks, p) :: Preserved(toks, w)
  {
    hide Change, IsReset, Preserved;
    if Honest(p) {
      forall toks, w: nat | w > 0 && MadeOf(toks, p) ensures Preserved(toks, w) {
        PreservedWhenHonest(toks, w);
      }
    } else {
      var styles := SomethingLeft(p);
      DishonestIsSeen(styles, p);
      assert MadeOf(styles + [Sgr(p)] + [INK], p);
    }
  }

  lemma PreservedWhenHonest(toks: seq<Tok>, w: nat)
    requires w > 0 && AllHonest(toks)
    ensures Preserved(toks, w)
  {
    HonestIsClean(toks);
    WrappingPreservesLooks(toks, w);
  }

  const CYBERPUNK: Params := [1, 38, 2, 0, 245, 255]

  lemma CyberpunkSets()
    ensures IsReset(CYBERPUNK) && Change(CYBERPUNK) == map[1 := [1], 38 := [38, 2, 0, 245, 255]]
  {
    var p, q := CYBERPUNK, [38, 2, 0, 245, 255];
    assert p[1..] == q && q[1..] == [2, 0, 245, 255] && q[1..][1..] == [0, 245, 255] && q[5..] == [] && q[..5] == q;
    assert AnyZero(q[1..][1..]) && AnyZero(q[1..]) && AnyZero(q);
    assert Effect(q) == map[38 := q] + Effect([]);
    assert Effect(p) == Code(1) + Effect(q);
  }

  /**
   * The style of the cyberpunk theme's assistant: bold and a colour with no red.
   * The wrapper takes it for a reset, and shows the text after it plain.
   */
  lemma ThemeColourIsLost()
    ensures IsReset(CYBERPUNK) && Change(CYBERPUNK) == map[1 := [1], 38 := [38, 2, 0, 245, 255]]
    ensures View(Feed(FRESH, [Sgr(CYBERPUNK), INK], 80)) == [[INK]] && !Preserved([Sgr(CYBERPUNK), INK], 80)
  {
    hide Change, IsReset, Preserved, View, Feed;
    CyberpunkSets();
    assert [] + [Sgr(CYBERPUNK)] + [INK] == [Sgr(CYBERPUNK), INK];
    ResetVanishes([], CYBERPUNK);
    assert LookAfter([]) == CLEAN;
    assert (CLEAN + Change(CYBERPUNK))[1] == [1];
    DishonestIsSeen([], CYBERPUNK);
  }
}
