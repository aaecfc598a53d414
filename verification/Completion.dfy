/**
 * The completion protocol over all interleavings: the user edits, the app
 * changes thread or snapshot, the worker takes and finishes requests, and
 * results arrive late on the UI loop.
 */
module Completion {
  import opened Prelude
  import opened EditorText
  import opened Editor
  import opened EditorProofs

  datatype Answer = Answer(request: Request, items: seq<Item>)

  /** `computing` is the request in the worker; `queue` the results not yet delivered. */
  datatype Sys = Sys(ui: Ui, computing: Option<Request>, queue: seq<Answer>)

  datatype Key =
    | Type(text: string) | Delete | Back | Enter | Move(dr: int, dc: int) | Home | End
    | Set(text: string) | TabKey | AcceptKey | Choose(delta: int) | Escape

  datatype Step =
    | User(key: Key)
    | Switch(thread: string, snapshot: int)
    | Take                       // the worker empties its slot
    | Finish(items: seq<Item>)   // the worker posts a result
    | Arrive                     // the UI loop runs the oldest result
    | Stop

  function Press(ui: Ui, key: Key): (u: Ui)
    requires Well(ui.ed)
  {
    match key
    case Type(text) => InsertText(ui, text)
    case Delete => DeleteChar(ui)
    case Back => Backspace(ui)
    case Enter => InsertNewline(ui)
    case Move(dr, dc) => MoveCursor(ui, dr, dc)
    case Home => ui.(ed := ui.ed.(col := 0))
    case End => ui.(ed := ui.ed.(col := |ui.ed.lines[ui.ed.row]|))
    case Set(text) => SetText(ui, text)
    case TabKey => PressTab(ui)
    case AcceptKey => Accept(ui)
    case Choose(delta) => MoveChoice(ui, delta)
    case Escape => if ui.ed.active || ui.ed.pending then ui.(ed := Cancel(ui.ed)) else ui
  }

  /** A step that is not enabled changes nothing. */
  function Next(s: Sys, step: Step): Sys
    requires Well(s.ui.ed)
  {
    match step
    case User(key) => s.(ui := Press(s.ui, key))
    case Switch(thread, snapshot) => s.(ui := s.ui.(host := s.ui.host.(thread := thread, snapshot := snapshot)))
    case Take =>
      if s.computing.None? && s.ui.host.slot.Some? && !s.ui.host.stopping
      then s.(computing := s.ui.host.slot, ui := s.ui.(host := s.ui.host.(slot := None))) else s
    case Finish(items) =>
      if s.computing.Some? then s.(computing := None, queue := s.queue + [Answer(s.computing.value, items)]) else s
    case Arrive =>
      if s.queue == [] then s
      else s.(ui := Deliver(s.ui, s.queue[0].request, s.queue[0].items), queue := s.queue[1..])
    case Stop => s.(ui := s.ui.(host := s.ui.host.(stopping := true, slot := None)))
  }

  // ---- what every step keeps ------------------------------------------------------------

  ghost predicate InFlight(s: Sys, r: Request) {
    s.ui.host.slot == Some(r) || s.computing == Some(r) || exists a | a in s.queue :: a.request == r
  }

  /** The request of the present generation is in the slot, computing, or queued. */
  ghost predicate NotLost(s: Sys) {
    s.ui.ed.pending && !s.ui.host.stopping ==> exists r :: InFlight(s, r) && r.gen == s.ui.ed.gen
  }

  ghost predicate Kept(s: Sys) {
    && Well(s.ui.ed)
    && NotLost(s)
    && (s.ui.ed.pending ==> s.ui.host.worker)
    && (forall r | InFlight(s, r) :: r.gen <= s.ui.ed.gen)
  }

  /** What any editor operation may do to the completion state and the slot. */
  ghost predicate Moves(ui: Ui, u: Ui) {
    && Well(u.ed)
    && u.ed.gen >= ui.ed.gen
    && u.host == ui.host.(slot := u.host.slot)
    && (u.ed.pending ==> u.host.worker || (ui.ed.pending && u.ed.gen == ui.ed.gen))
    && (u.host.slot != ui.host.slot ==> u.host.slot.Some? && ui.ed.gen < u.host.slot.value.gen <= u.ed.gen)
    && (u.ed.pending && !u.host.stopping ==>
          || (u.ed.gen == ui.ed.gen && ui.ed.pending && u.host.slot == ui.host.slot)
          || (u.host.slot.Some? && u.host.slot.value.gen == u.ed.gen))
  }

  lemma InsertMoves(ui: Ui, text: string)
    requires Well(ui.ed)
    ensures Moves(ui, InsertText(ui, text))
    ensures !ui.ed.active && !ui.ed.pending ==>
              var u := InsertText(ui, text); u.host == ui.host && u.ed.gen == ui.ed.gen && !u.ed.pending
  {
    InsertIsSplice(ui, text);
    hide Join, Before, After, Split, Normalize, Spread, Edited, Lines, OneLine;
  }

  lemma AcceptMoves(ui: Ui)
    requires Well(ui.ed)
    ensures Moves(ui, Accept(ui)) && Accept(ui).host == ui.host
    ensures ui.ed.active ==> !Accept(ui).ed.pending && !Accept(ui).ed.active && Accept(ui).ed.gen > ui.ed.gen
  {
    if ui.ed.active {
      var item := ui.ed.items[ui.ed.index];
      AcceptIsReplace(ui);
      ReplacedIsCut(ui.ed, item.replace);
      var quiet := ui.(ed := Replaced(ui.ed, item.replace).(active := false, pending := false));
      hide Join, Before, After, Split, Normalize, Edited, Lines, OneLine, Replaced, AcceptEnd, AcceptGone, InsertText;
      assert quiet.ed.gen == ui.ed.gen by { ReplacedKeeps(ui.ed, item.replace); }
      InsertMoves(quiet, item.insert);
    }
  }

  lemma ReplacedKeeps(ed: Ed, n: int)
    requires Well(ed)
    ensures var e := Replaced(ed, n); e == ed.(lines := e.lines, col := e.col)
  {
  }

  lemma DeleteMoves(ui: Ui)
    requires Well(ui.ed)
    ensures Moves(ui, DeleteChar(ui))
  {
    DeleteIsDelete(ui);
    hide Join, Before, After, Edited, Lines, OneLine;
  }

  lemma BackMoves(ui: Ui)
    requires Well(ui.ed)
    ensures Moves(ui, Backspace(ui))
  {
    BackspaceIsBackspace(ui);
    hide Join, Before, After, Edited, Lines, OneLine;
  }

  lemma EnterMoves(ui: Ui)
    requires Well(ui.ed)
    ensures Moves(ui, InsertNewline(ui))
  {
    NewlineIsSplice(ui);
    hide Join, Before, After, Edited, Lines, OneLine;
  }

  lemma CursorMoves(ui: Ui, dr: int, dc: int, text: string)
    requires Well(ui.ed)
    ensures Moves(ui, MoveCursor(ui, dr, dc)) && Moves(ui, SetText(ui, text))
  {
    SetThenGet(ui, text, dr, dc);
    hide Join, Split, Lines, OneLine;
  }

  lemma PressMoves(ui: Ui, key: Key)
    requires Well(ui.ed)
    ensures Moves(ui, Press(ui, key))
  {
    hide Join, Split, Lines, OneLine, InsertText, DeleteChar, Backspace, InsertNewline, MoveCursor, SetText, Accept;
    match key
    case Type(text) => InsertMoves(ui, text);
    case Delete => DeleteMoves(ui);
    case Back => BackMoves(ui);
    case Enter => EnterMoves(ui);
    case Move(dr, dc) => CursorMoves(ui, dr, dc, "");
    case Home =>
    case End =>
    case Set(text) => CursorMoves(ui, 0, 0, text);
    case TabKey => AcceptMoves(ui);
    case AcceptKey => AcceptMoves(ui);
    case Choose(delta) =>
    case Escape =>
  }

  /** A result is current: latest generation, same place, line, thread and snapshot. */
  ghost predicate Current(ui: Ui, r: Request)
    requires ui.ed.row < |ui.ed.lines|
  {
    && r.gen == ui.ed.gen && ui.ed.pending
    && r.row == ui.ed.row && r.col == ui.ed.col && r.line == ui.ed.lines[ui.ed.row]
    && r.thread == ui.host.thread && r.snapshot == ui.host.snapshot
  }

  /**
   * A current result fills the popup with its first items and nothing else
   * changes, except that the only item of a Tab request is accepted at once.
   */
  lemma CurrentResultIsShown(ui: Ui, r: Request, raw: seq<Item>)
    requires Well(ui.ed) && Current(ui, r)
    ensures var items := raw[..Min(200, |raw|)];
            var shown := ui.(ed := ui.ed.(pending := false, mode := NoMode, items := items, active := items != []));
            && Well(shown.ed)
            && Deliver(ui, r, raw) == if ui.ed.mode == Tab && |raw| == 1 then Accept(shown) else shown
  {
    hide Accept;
  }

  lemma DeliverMoves(ui: Ui, r: Request, raw: seq<Item>)
    requires Well(ui.ed)
    ensures var u := Deliver(ui, r, raw);
            && Well(u.ed) && u.host == ui.host && u.ed.gen >= ui.ed.gen
            && (r.gen == ui.ed.gen || !ui.ed.pending ==> !u.ed.pending)
            && (r.gen != ui.ed.gen || !ui.ed.pending ==> u == ui)
  {
    if Current(ui, r) {
      var items := raw[..Min(MOST_ITEMS, |raw|)];
      var ed := ui.ed.(pending := false, mode := NoMode, items := items, index := 0, active := items != []);
      var shown := ui.(ed := ed);
      AcceptMoves(shown);
      hide Accept;
    }
  }

  lemma UserKeeps(s: Sys, key: Key)
    requires Kept(s)
    ensures Kept(Next(s, User(key)))
  {
    var t := Next(s, User(key));
    PressMoves(s.ui, key);
    hide Press, Lines;
    if t.ui.ed.pending && !t.ui.host.stopping {
      if t.ui.host.slot.Some? && t.ui.host.slot.value.gen == t.ui.ed.gen {
        assert InFlight(t, t.ui.host.slot.value);
      } else {
        var r :| InFlight(s, r) && r.gen == s.ui.ed.gen;
        assert InFlight(t, r);
      }
    }
    forall r | InFlight(t, r) ensures r.gen <= t.ui.ed.gen {
      assert InFlight(s, r) || t.ui.host.slot == Some(r);
    }
  }

  lemma ArriveKeeps(s: Sys)
    requires Kept(s) && s.queue != []
    ensures Kept(Next(s, Arrive))
  {
    var t := Next(s, Arrive);
    DeliverMoves(s.ui, s.queue[0].request, s.queue[0].items);
    hide Deliver, Lines;
    assert s.queue == [s.queue[0]] + s.queue[1..];
    if t.ui.ed.pending && !t.ui.host.stopping {
      var r :| InFlight(s, r) && r.gen == s.ui.ed.gen;
      assert InFlight(t, r);
    }
    forall r | InFlight(t, r) ensures r.gen <= t.ui.ed.gen {
      assert InFlight(s, r);
    }
  }

  lemma WorkerKeeps(s: Sys, step: Step)
    requires Kept(s) && !step.User? && !step.Arrive?
    ensures Kept(Next(s, step))
  {
    var t := Next(s, step);
    hide Lines;
    if step.Finish? && s.computing.Some? {
      assert t.queue[|s.queue|].request == s.computing.value;
      assert forall a | a in s.queue :: a in t.queue;
    }
    if t.ui.ed.pending && !t.ui.host.stopping {
      var r :| InFlight(s, r) && r.gen == s.ui.ed.gen;
      assert InFlight(t, r);
    }
    forall r | InFlight(t, r) ensures r.gen <= t.ui.ed.gen {
      assert InFlight(s, r);
    }
  }

  lemma NextKeeps(s: Sys, step: Step)
    requires Kept(s)
    ensures Kept(Next(s, step))
  {
    match step
    case User(key) => UserKeeps(s, key);
    case Arrive => if s.queue != [] { ArriveKeeps(s); }
    case _ => WorkerKeeps(s, step);
  }

  // ---- whole runs ----------------------------------------------------------------------------

  /** A fresh editor in an app with or without a worker. */
  ghost predicate Initial(s: Sys) {
    && s.ui.ed == Ed([""], 0, 0, [], 0, false, false, 0, NoMode)
    && s.ui.host.slot.None? && s.computing.None? && s.queue == []
  }

  ghost function RunSteps(s: Sys, steps: seq<Step>): (t: Sys)
    requires Kept(s)
    ensures Kept(t)
    decreases steps
  {
    if steps == [] then s
    else
      NextKeeps(s, steps[0]);
      RunSteps(Next(s, steps[0]), steps[1..])
  }

  lemma StartsKept(s: Sys)
    requires Initial(s)
    ensures Kept(s)
  {
    assert forall r :: !InFlight(s, r);
  }

  /** What the user sees of the editor: the text, the cursor and the popup. */
  ghost predicate SameSight(a: Ed, b: Ed) {
    && a.lines == b.lines && a.row == b.row && a.col == b.col
    && a.active == b.active && a.items == b.items && a.index == b.index
  }

  /**
   * In every reachable state, a result that arrives changes what the user sees
   * only if it is current; a current one always answers the request.
   */
  lemma StaleResultsChangeNothing(start: Sys, steps: seq<Step>)
    requires Initial(start)
    ensures Kept(start)
    ensures var s := RunSteps(start, steps);
            s.queue != [] ==>
              var r, t := s.queue[0].request, Next(s, Arrive);
              && (!Current(s.ui, r) ==> SameSight(s.ui.ed, t.ui.ed))
              && (Current(s.ui, r) ==> !t.ui.ed.pending)
  {
    StartsKept(start);
    var s := RunSteps(start, steps);
    if s.queue != [] {
      var r := s.queue[0].request;
      if Current(s.ui, r) {
        DeliverMoves(s.ui, r, s.queue[0].items);
        hide Deliver;
      }
    }
  }

  /** In every reachable state the present request is somewhere on its way. */
  lemma PendingIsOnItsWay(start: Sys, steps: seq<Step>)
    requires Initial(start)
    ensures Kept(start)
    ensures var s := RunSteps(start, steps);
            s.ui.ed.pending && !s.ui.host.stopping ==> exists r :: InFlight(s, r) && r.gen == s.ui.ed.gen
  {
    StartsKept(start);
  }

  // ---- and it arrives ----------------------------------------------------------------------------

  ghost function Backlog(s: Sys): nat {
    (if s.ui.host.slot.Some? then 3 else 0) + (if s.computing.Some? then 2 else 0) + |s.queue|
  }

  /** A step of the worker or the UI loop that has something to do. */
  ghost predicate Works(s: Sys, step: Step) {
    match step
    case Take => s.computing.None? && s.ui.host.slot.Some? && !s.ui.host.stopping
    case Finish(_) => s.computing.Some?
    case Arrive => s.queue != []
    case _ => false
  }

  ghost predicate AllWork(s: Sys, steps: seq<Step>)
    requires Kept(s)
    decreases steps
  {
    steps != [] ==>
      Works(s, steps[0]) && (NextKeeps(s, steps[0]); AllWork(Next(s, steps[0]), steps[1..]))
  }

  lemma WorkShrinksBacklog(s: Sys, step: Step)
    requires Kept(s) && Works(s, step)
    ensures Backlog(Next(s, step)) == Backlog(s) - 1
    ensures Next(s, step).ui.host.stopping == s.ui.host.stopping
  {
    if step.Arrive? {
      DeliverMoves(s.ui, s.queue[0].request, s.queue[0].items);
      hide Deliver;
    }
  }

  /**
   * Without further keys every schedule of the worker and the UI loop runs dry
   * after exactly the backlog's steps, some step works until then, and the editor
   * is then no longer waiting.
   */
  lemma {:induction false} EveryRequestIsAnswered(s: Sys, steps: seq<Step>)
    requires Kept(s) && !s.ui.host.stopping && AllWork(s, steps)
    ensures |steps| <= Backlog(s)
    ensures |steps| == Backlog(s) ==> !RunSteps(s, steps).ui.ed.pending
    ensures |steps| < Backlog(s) ==> exists step :: Works(RunSteps(s, steps), step)
    decreases steps
  {
    if steps == [] {
      assert RunSteps(s, steps) == s;
      if Backlog(s) == 0 {
        assert forall r :: !InFlight(s, r);
      } else if s.queue != [] {
        assert Works(s, Arrive);
      } else if s.computing.Some? {
        assert Works(s, Finish([]));
      } else {
        assert Works(s, Take);
      }
    } else {
      NextKeeps(s, steps[0]);
      WorkShrinksBacklog(s, steps[0]);
      var t := Next(s, steps[0]);
      EveryRequestIsAnswered(t, steps[1..]);
      assert RunSteps(s, steps) == RunSteps(t, steps[1..]);
      hide Next, RunSteps, Works;
    }
  }
}
