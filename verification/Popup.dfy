/**
 * What the user gets from the protocol: the request submitted is the one whose
 * answer the editor accepts, its items come up, and edits under an open popup
 * close it and ask again.
 */
module Popup {
  import opened Prelude
  import opened EditorText
  import opened Editor
  import opened EditorProofs
  import opened Completion

  /** An idle worker is there to take requests. */
  predicate Alive(ui: Ui) {
    ui.host.worker && !ui.host.stopping
  }

  /** The request in the slot is the editor's present one, and nothing is shown meanwhile. */
  ghost predicate Asked(ui: Ui, u: Ui) {
    && Well(u.ed) && u.ed.pending && !u.ed.active && u.ed.items == []
    && u.ed.gen > ui.ed.gen && u.host.slot.Some? && Current(u, u.host.slot.value)
    && u.host == ui.host.(slot := u.host.slot)
  }

  lemma AskIsCurrent(ui: Ui, mode: Mode)
    requires Well(ui.ed.(active := false, pending := false)) && Alive(ui)
    ensures Asked(ui, Ask(ui, mode)) && Ask(ui, mode).ed.mode == mode
    ensures var u := Ask(ui, mode); u.ed.lines == ui.ed.lines && u.ed.row == ui.ed.row && u.ed.col == ui.ed.col
  {
  }

  // ---- edits under an open popup --------------------------------------------------------------

  /** Nothing happened, or lines were made and the popup is dismissed, or the new line is asked for. */
  ghost predicate AsksAnew(ui: Ui, u: Ui) {
    var same := u.ed.lines == ui.ed.lines && u.ed.row == ui.ed.row && u.ed.col == ui.ed.col;
    if same then u == ui
    else if |u.ed.lines| > |ui.ed.lines| then !u.ed.active && !u.ed.pending && u.ed.items == []
    else Asked(ui, u)
  }

  lemma RefreshAsks(ui: Ui, ed: Ed)
    requires Alive(ui) && (ui.ed.active || ui.ed.pending) && |ed.lines| <= |ui.ed.lines|
    requires ed == ui.ed.(lines := ed.lines, row := ed.row, col := ed.col)
    requires Lines(ed.lines) && ed.row < |ed.lines| && ed.col <= |ed.lines[ed.row]|
    requires ed.lines != ui.ed.lines || ed.row != ui.ed.row || ed.col != ui.ed.col
    ensures AsksAnew(ui, Refreshed(ui.(ed := ed)))
  {
    hide Lines;
    AskIsCurrent(ui.(ed := ed), Refresh);
  }

  lemma LineStays(ls: seq<string>, row: nat, line: string)
    requires Lines(ls) && row < |ls| && OneLine(line)
    ensures Lines(ls[row := line]) && |ls[row := line]| == |ls|
  {
  }

  lemma TypeAsksAnew(ui: Ui, text: string)
    requires Well(ui.ed) && Alive(ui) && (ui.ed.active || ui.ed.pending)
    ensures AsksAnew(ui, InsertText(ui, text))
  {
    var ed, n := ui.ed, Normalize(text);
    var line := ed.lines[ed.row];
    SplitCount(n);
    hide Split, Normalize, Spread;
    if text != "" {
      NormalizeNotEmpty(text);
      if |Split(n)| == 1 {
        assert OneLine(n);
        LineStays(ed.lines, ed.row, line[..ed.col] + n + line[ed.col..]);
        RefreshAsks(ui, ed.(lines := ed.lines[ed.row := line[..ed.col] + n + line[ed.col..]], col := ed.col + |n|));
      } else {
        assert InsertText(ui, text) == InsertLines(ui, Split(n));
      }
    }
  }

  lemma NormalizeNotEmpty(text: string)
    requires text != ""
    ensures Normalize(text) != ""
  {
  }

  lemma DeleteAsksAnew(ui: Ui)
    requires Well(ui.ed) && Alive(ui) && (ui.ed.active || ui.ed.pending)
    ensures AsksAnew(ui, DeleteChar(ui))
  {
    var ed := ui.ed;
    var line := ed.lines[ed.row];
    if ed.col < |line| {
      var shorter := line[..ed.col] + line[ed.col + 1..];
      LineStays(ed.lines, ed.row, shorter);
      assert |ed.lines[ed.row := shorter][ed.row]| < |ed.lines[ed.row]|;
      RefreshAsks(ui, ed.(lines := ed.lines[ed.row := shorter]));
    }
  }

  lemma BackAsksAnew(ui: Ui)
    requires Well(ui.ed) && Alive(ui) && (ui.ed.active || ui.ed.pending)
    ensures AsksAnew(ui, Backspace(ui))
  {
    BackspaceIsBackspace(ui);
    hide Join, Before, After, Edited;
    var ed := ui.ed;
    var line := ed.lines[ed.row];
    if ed.col > 0 {
      LineStays(ed.lines, ed.row, line[..ed.col - 1] + line[ed.col..]);
      RefreshAsks(ui, ed.(lines := ed.lines[ed.row := line[..ed.col - 1] + line[ed.col..]], col := ed.col - 1));
    } else if ed.row > 0 {
      var above := ed.lines[ed.row - 1];
      var lines := ed.lines[..ed.row - 1] + [above + line] + ed.lines[ed.row + 1..];
      RefreshAsks(ui, ed.(lines := lines, row := ed.row - 1, col := |above|));
    }
  }

  lemma MoveAsksAnew(ui: Ui, dr: int, dc: int)
    requires Well(ui.ed) && Alive(ui) && (ui.ed.active || ui.ed.pending)
    ensures AsksAnew(ui, MoveCursor(ui, dr, dc))
  {
    var next := Clamped(ui.ed, ui.ed.row + dr, ui.ed.col + dc);
    if next.row != ui.ed.row || next.col != ui.ed.col {
      RefreshAsks(ui, next);
    }
  }

  /**
   * While suggestions are shown or awaited, an edit within lines closes the popup
   * and asks for the line as it is now; one that makes lines dismisses it.
   */
  lemma EditAsksAnew(ui: Ui, key: Key)
    requires Well(ui.ed) && Alive(ui) && (ui.ed.active || ui.ed.pending)
    requires key.Type? || key.Delete? || key.Back? || key.Enter? || key.Move?
    ensures AsksAnew(ui, Press(ui, key))
  {
    hide AsksAnew, InsertText, DeleteChar, Backspace, MoveCursor, Well;
    match key
    case Type(text) => TypeAsksAnew(ui, text);
    case Delete => DeleteAsksAnew(ui);
    case Back => BackAsksAnew(ui);
    case Move(dr, dc) => MoveAsksAnew(ui, dr, dc);
    case Enter => EnterDismisses(ui);
  }

  lemma EnterDismisses(ui: Ui)
    requires Well(ui.ed) && (ui.ed.active || ui.ed.pending)
    ensures AsksAnew(ui, InsertNewline(ui))
  {
  }

  /** Another text dismisses what is shown or awaited; the same text leaves it. */
  lemma SetTextDismisses(ui: Ui, text: string)
    requires Well(ui.ed)
    ensures var e := SetText(ui, text).ed;
            if Join(ui.ed.lines) != text && (ui.ed.active || ui.ed.pending)
            then !e.active && !e.pending && e.items == [] && e.gen == ui.ed.gen + 1
            else e == ui.ed.(lines := e.lines, row := e.row, col := e.col)
  {
    hide Split, Join;
  }

  /** Tab while an answer is awaited asks for nothing more. */
  lemma TabWaits(ui: Ui)
    requires Well(ui.ed) && ui.ed.pending
    ensures Press(ui, TabKey) == ui
  {
  }

  // ---- from Tab to the popup ------------------------------------------------------------------------

  /** The editor waits for `r`, which is the only request of its generation that is on its way. */
  ghost predicate Awaits(s: Sys, r: Request) {
    && Kept(s) && Alive(s.ui) && Current(s.ui, r) && InFlight(s, r)
    && forall x | InFlight(s, x) && x.gen == r.gen :: x == r
  }

  /** `Tab` in a closed popup. */
  lemma TabAsks(s: Sys)
    requires Kept(s) && Alive(s.ui) && !s.ui.ed.active && !s.ui.ed.pending
    ensures var t := Next(s, User(TabKey));
            && Asked(s.ui, t.ui) && Awaits(t, t.ui.host.slot.value) && t.ui.ed.mode == Tab
            && t.ui.ed.lines == s.ui.ed.lines && t.ui.ed.row == s.ui.ed.row && t.ui.ed.col == s.ui.ed.col
            && (forall a | a in t.queue :: a.request != t.ui.host.slot.value)
            && t.computing != t.ui.host.slot
  {
    var t := Next(s, User(TabKey));
    NextKeeps(s, User(TabKey));
    AskIsCurrent(s.ui, Tab);
    assert t.ui == Ask(s.ui, Tab);
    var r := t.ui.host.slot.value;
    hide Ask, Well, NotLost;
    forall x | InFlight(t, x) && x.gen == r.gen ensures x == r {
      assert x != r ==> InFlight(s, x);
    }
    forall a | a in t.queue ensures a.request != r {
      assert InFlight(s, a.request);
    }
    assert t.computing == Some(r) ==> InFlight(s, r);
  }

  /** The popup with these items, or the only one of a Tab request accepted. */
  ghost predicate Shows(was: Ui, items: seq<Item>, ed: Ed)
    requires Well(was.ed)
  {
    var first := items[..Min(200, |items|)];
    var shown := was.ed.(pending := false, mode := NoMode, items := first, active := items != []);
    Well(shown) && ed == if was.ed.mode == Tab && |items| == 1 then Accept(was.(ed := shown)).ed else shown
  }

  /** Accepting does not look at the slot. */
  lemma AcceptIgnoresSlot(ed: Ed, h: Host, slot: Option<Request>)
    requires Well(ed)
    ensures Accept(Ui(ed, h)).ed == Accept(Ui(ed, h.(slot := slot))).ed
  {
    hide Split, Normalize, Spread, TokenEnd;
    if ed.active {
      ReplacedKeeps(ed, ed.items[ed.index].replace);
      ReplacedIsCut(ed, ed.items[ed.index].replace);
      hide Replaced, AcceptEnd, AcceptGone;
    }
  }

  lemma DeliveredShows(ui: Ui, r: Request, items: seq<Item>)
    requires Well(ui.ed) && Current(ui, r)
    ensures Shows(ui, items, Deliver(ui, r, items).ed) && !Deliver(ui, r, items).ed.pending
  {
    CurrentResultIsShown(ui, r, items);
    DeliverMoves(ui, r, items);
    hide Accept, Deliver;
  }

  lemma SlotDoesNotShow(was: Ui, slot: Option<Request>, items: seq<Item>, ed: Ed)
    requires Well(was.ed)
    ensures Shows(was, items, ed) <==> Shows(was.(host := was.host.(slot := slot)), items, ed)
  {
    var first := items[..Min(200, |items|)];
    var shown := was.ed.(pending := false, mode := NoMode, items := first, active := items != []);
    if Well(shown) {
      AcceptIgnoresSlot(shown, was.host, slot);
    }
    hide Accept, Well;
  }

  /** When nothing is awaited, late answers change nothing. */
  lemma {:induction false} QuietStays(s: Sys, steps: seq<Step>)
    requires Kept(s) && AllWork(s, steps) && !s.ui.ed.pending
    ensures RunSteps(s, steps).ui.ed == s.ui.ed
    decreases steps
  {
    if steps != [] {
      NextKeeps(s, steps[0]);
      if steps[0].Arrive? {
        DeliverMoves(s.ui, s.queue[0].request, s.queue[0].items);
      }
      hide Deliver, Kept;
      QuietStays(Next(s, steps[0]), steps[1..]);
    }
  }

  /** A step that is not the arrival of the awaited answer leaves the editor waiting for it. */
  lemma StillAwaits(s: Sys, r: Request, step: Step)
    requires Awaits(s, r) && Works(s, step) && !(step.Arrive? && s.queue[0].request == r)
    ensures var t := Next(s, step);
            && Awaits(t, r) && t.ui == s.ui.(host := s.ui.host.(slot := t.ui.host.slot))
            && forall items | Answer(r, items) in t.queue ::
                 Answer(r, items) in s.queue || step == Finish(items)
  {
    NextKeeps(s, step);
    var t := Next(s, step);
    if step.Arrive? {
      assert InFlight(s, s.queue[0].request);
      DeliverMoves(s.ui, s.queue[0].request, s.queue[0].items);
      assert s.queue == [s.queue[0]] + s.queue[1..];
    }
    hide Kept, Deliver, Well;
    if step.Finish? {
      assert t.queue[|s.queue|].request == s.computing.value;
      assert forall a | a in s.queue :: a in t.queue;
    }
    assert forall x | InFlight(t, x) :: InFlight(s, x);
    assert InFlight(t, r);
  }

  /** Every schedule that works off what is on its way ends with the awaited items on show. */
  lemma {:induction false} AnswerIsShown(s: Sys, r: Request, steps: seq<Step>)
    requires Awaits(s, r) && AllWork(s, steps) && |steps| == Backlog(s)
    ensures exists items :: (Finish(items) in steps || Answer(r, items) in s.queue)
              && Shows(s.ui, items, RunSteps(s, steps).ui.ed)
    decreases steps
  {
    assert steps != [];
    var step, rest := steps[0], steps[1..];
    var t := Next(s, step);
    NextKeeps(s, step);
    WorkShrinksBacklog(s, step);
    assert steps == [step] + rest && RunSteps(s, steps) == RunSteps(t, rest);
    if step.Arrive? && s.queue[0].request == r {
      var items := s.queue[0].items;
      DeliveredShows(s.ui, r, items);
      QuietStays(t, rest);
      assert s.queue[0] == Answer(r, items);
    } else {
      StillAwaits(s, r, step);
      hide Next, Kept, Awaits, Shows, RunSteps, Works, Backlog;
      AnswerIsShown(t, r, rest);
      var items :| (Finish(items) in rest || Answer(r, items) in t.queue)
                   && Shows(t.ui, items, RunSteps(t, rest).ui.ed);
      WellNow(s, r);
      SlotDoesNotShow(s.ui, t.ui.host.slot, items, RunSteps(t, rest).ui.ed);
      assert Finish(items) in steps || Answer(r, items) in s.queue;
    }
  }

  lemma WellNow(s: Sys, r: Request)
    requires Awaits(s, r)
    ensures Well(s.ui.ed)
  {
  }

  /**
   * Tab in a closed popup, with whatever is still on its way from before: when the
   * worker and the UI loop have worked it off, in any order, the popup shows items
   * that the worker finished since, or the only one is accepted.
   */
  lemma TabShowsItems(s: Sys, steps: seq<Step>)
    requires Kept(s) && Alive(s.ui) && !s.ui.ed.active && !s.ui.ed.pending
    ensures Kept(Next(s, User(TabKey)))
    ensures var t := Next(s, User(TabKey));
            AllWork(t, steps) && |steps| == Backlog(t) ==>
              exists items | Finish(items) in steps :: Shows(t.ui, items, RunSteps(t, steps).ui.ed)
  {
    TabAsks(s);
    var t := Next(s, User(TabKey));
    if AllWork(t, steps) && |steps| == Backlog(t) {
      var r := t.ui.host.slot.value;
      AnswerIsShown(t, r, steps);
      hide Next, Shows, RunSteps, Awaits;
      var items :| (Finish(items) in steps || Answer(r, items) in t.queue)
                   && Shows(t.ui, items, RunSteps(t, steps).ui.ed);
      assert Answer(r, items) !in t.queue by {
        assert Answer(r, items).request == r;
      }
    }
  }
}
