/**
 * Lists as the executor really runs them: their items interleaved at every point
 * where a coroutine can give way, lists inside items included.  The answer is the
 * direct one whatever the schedule, and even where items share a key.
 */
module FlowGather {
  import opened Prelude
  import opened FlowTasks
  import opened FlowMemo

  /**
   * An item's coroutine: not started, waiting for `recover()` over the row it read,
   * a generator at `body` with the coroutines of the flow it waits for, or ended.
   */
  datatype Co =
    | Fresh(item: Item)
    | AtRecovery(item: Item, task: Task, row: Row)
    | Inside(item: Item, body: Body, sub: seq<Co>)
    | Ready(item: Item, answer: Response)

  datatype Sys = Sys(co: Co, store: Store)

  function ItemsOf(f: Flow): seq<Item> {
    match f
    case One(it) => [it]
    case Many(items) => items
  }

  function Begin(f: Flow): (cos: seq<Co>)
    ensures |cos| == |ItemsOf(f)|
  {
    seq(|ItemsOf(f)|, i requires 0 <= i < |ItemsOf(f)| => Fresh(ItemsOf(f)[i]))
  }

  predicate AllReady(cos: seq<Co>) {
    forall i | 0 <= i < |cos| :: cos[i].Ready?
  }

  function Answers(cos: seq<Co>): seq<Response>
    requires AllReady(cos)
  {
    seq(|cos|, i requires 0 <= i < |cos| => cos[i].answer)
  }

  function FlowAnswer(f: Flow, cos: seq<Co>): Response
    requires AllReady(cos) && |cos| == |ItemsOf(f)|
  {
    if f.One? then cos[0].answer else Collect(Answers(cos))
  }

  function Enter(it: Item, b: Body): Co {
    Inside(it, b, if b.Yield? then Begin(b.flow) else [])
  }

  /** The generator ended: a cacheable task records it. */
  function Finish(it: Item, end: End, s: Store): Sys {
    match it.work
    case Cached(t) =>
      var r := ResultOf(end);
      Sys(Ready(it, RespondTask(it.wrapped, r)),
          if t.cacheable then Apply(s, Updated(t.key, Outcome(r), Some(r))) else s)
    case Uncached(_) => Sys(Ready(it, RespondRaw(it.wrapped, false, end)), s)
    case Coroutine(_) => Sys(Ready(it, RespondRaw(it.wrapped, true, end)), s)
  }

  /** From the first look at the row to the body, to `recover()`, or to the answer. */
  function StartTask(it: Item, t: Task, s: Store): Sys {
    if !t.cacheable then Sys(Enter(it, t.body), s)
    else match PlanFor(t, s)
      case FromRow(r) => Sys(Ready(it, RespondTask(it.wrapped, r)), s)
      case GiveUp(_, _) => Sys(AtRecovery(it, t, s[t.key]), s)
      case Start(log) =>
        if t.key in s && s[t.key].status != PENDING then Sys(AtRecovery(it, t, s[t.key]), s)
        else Sys(Enter(it, t.body), Replay(s, log))
  }

  /** After `recover()`; the store may be another by now, the row read is not. */
  function AfterRecovery(it: Item, t: Task, row: Row, s: Store): Sys {
    if t.recovery == Retry then Sys(Enter(it, t.body), Apply(s, Updated(t.key, RUNNING, None)))
    else
      var r := if t.recovery.RecoverFails?
               then Result(Nil, Some(RECOVERY_FAILED + t.recovery.x.Msg()), t.recovery.x.IsTerminal())
               else if row.blob.Some? then row.blob.value else Result(Nil, Some(REFUSED), false);
      Sys(Ready(it, RespondTask(it.wrapped, r)), Apply(s, Updated(t.key, FAILED, Some(r))))
  }

  /** One step; `path` says which coroutine of each list on the way down takes it. */
  function Step(co: Co, s: Store, path: seq<nat>): Sys
    decreases co
  {
    match co
    case Fresh(it) =>
      (match it.work
       case Cached(t) => StartTask(it, t, s)
       case Uncached(t) => Sys(Enter(it, t.body), s)
       case Coroutine(end) => Finish(it, end, s))
    case AtRecovery(it, t, row) => AfterRecovery(it, t, row, s)
    case Inside(it, b, sub) =>
      if b.Return? then Finish(it, Returned(b.v), s)
      else if b.Raise? then Finish(it, Failed(b.x), s)
      else if |sub| == |ItemsOf(b.flow)| && AllReady(sub) then
        var r := FlowAnswer(b.flow, sub);
        if r in b.resume then Sys(Enter(it, b.resume[r]), s) else Finish(it, Unhandled(r), s)
      else if path != [] && path[0] < |sub| then
        var next := Step(sub[path[0]], s, path[1..]);
        Sys(Inside(it, b, sub[path[0] := next.co]), next.store)
      else Sys(co, s)
    case Ready(_, _) => Sys(co, s)
  }

  // ---- what every step keeps ----------------------------------------------------------------

  function BodyOf(it: Item): Body {
    match it.work
    case Cached(t) => t.body
    case Uncached(t) => t.body
    case Coroutine(end) => if end.Returned? then Return(end.v) else Raise(end.x)
  }

  /** Whatever happens to the store, this coroutine can only end in the direct answer. */
  ghost predicate Right(co: Co, m: Meaning)
    decreases co
  {
    match co
    case Fresh(it) => KeyedItem(it, m)
    case AtRecovery(it, t, _) => KeyedItem(it, m) && it.work == Cached(t) && t.cacheable
    case Inside(it, b, sub) =>
      && KeyedItem(it, m) && KeyedBody(b, m) && DirectBody(b) == DirectBody(BodyOf(it))
      && (b.Yield? ==>
            && |sub| == |ItemsOf(b.flow)|
            && forall i | 0 <= i < |sub| :: sub[i].item == ItemsOf(b.flow)[i] && Right(sub[i], m))
    case Ready(it, r) => r == DirectItem(it)
  }

  ghost predicate AllRight(cos: seq<Co>, f: Flow, m: Meaning) {
    && |cos| == |ItemsOf(f)|
    && forall i | 0 <= i < |cos| :: cos[i].item == ItemsOf(f)[i] && Right(cos[i], m)
  }

  lemma BeginIsRight(f: Flow, m: Meaning)
    requires KeyedFlow(f, m)
    ensures AllRight(Begin(f), f, m)
  {
    forall i | 0 <= i < |ItemsOf(f)| ensures KeyedItem(ItemsOf(f)[i], m) {
      assert ItemsOf(f)[i] in ItemsOf(f);
    }
  }

  lemma EnterIsRight(it: Item, b: Body, m: Meaning)
    requires KeyedItem(it, m) && KeyedBody(b, m) && DirectBody(b) == DirectBody(BodyOf(it))
    ensures Right(Enter(it, b), m)
  {
    if b.Yield? {
      BeginIsRight(b.flow, m);
    }
  }

  /** An item that is no list item of its own answers what its body's end makes of it. */
  lemma {:induction false} DirectItemsAt(items: seq<Item>, i: nat)
    requires i < |items|
    ensures DirectItems(items)[i] == DirectItem(items[i])
    decreases items
  {
    if i > 0 {
      DirectItemsAt(items[1..], i - 1);
    }
  }

  lemma AnswerIsDirect(f: Flow, cos: seq<Co>, m: Meaning)
    requires AllRight(cos, f, m) && AllReady(cos)
    ensures FlowAnswer(f, cos) == DirectFlow(f)
  {
    if f.Many? {
      forall i | 0 <= i < |cos| ensures Answers(cos)[i] == DirectItems(f.items)[i] {
        DirectItemsAt(f.items, i);
      }
      assert Answers(cos) == DirectItems(f.items);
    }
  }

  /** Any task's last write, into whatever store the others have made meanwhile. */
  lemma FinishIsRight(it: Item, end: End, s: Store, m: Meaning)
    requires KeyedItem(it, m) && Consistent(s, m)
    requires end == DirectBody(BodyOf(it))
    ensures var n := Finish(it, end, s); Right(n.co, m) && n.co.item == it && Consistent(n.store, m)
  {
  }

  lemma StartIsRight(it: Item, t: Task, s: Store, m: Meaning)
    requires KeyedItem(it, m) && it.work == Cached(t) && Consistent(s, m)
    ensures var n := StartTask(it, t, s); Right(n.co, m) && n.co.item == it && Consistent(n.store, m)
  {
    EnterIsRight(it, t.body, m);
    if t.cacheable && PlanFor(t, s).Start? {
      StartConsistent(t, s, PlanFor(t, s).log, m);
    }
  }

  lemma RecoveredIsRight(it: Item, t: Task, row: Row, s: Store, m: Meaning)
    requires KeyedItem(it, m) && it.work == Cached(t) && t.cacheable && Consistent(s, m)
    ensures var n := AfterRecovery(it, t, row, s); Right(n.co, m) && n.co.item == it && Consistent(n.store, m)
  {
    EnterIsRight(it, t.body, m);
  }

  lemma ResumeIsRight(it: Item, b: Body, sub: seq<Co>, s: Store, m: Meaning)
    requires Right(Inside(it, b, sub), m) && b.Yield? && AllReady(sub) && Consistent(s, m)
    ensures var n := Step(Inside(it, b, sub), s, []);
            Right(n.co, m) && n.co.item == it && Consistent(n.store, m)
  {
    var r := FlowAnswer(b.flow, sub);
    assert AllRight(sub, b.flow, m);
    AnswerIsDirect(b.flow, sub, m);
    if r in b.resume {
      EnterIsRight(it, b.resume[r], m);
    } else {
      FinishIsRight(it, Unhandled(r), s, m);
    }
  }

  lemma {:induction false} StepIsRight(co: Co, s: Store, path: seq<nat>, m: Meaning)
    requires Right(co, m) && Consistent(s, m)
    ensures var n := Step(co, s, path); Right(n.co, m) && n.co.item == co.item && Consistent(n.store, m)
    decreases co
  {
    match co
    case Fresh(it) =>
      match it.work {
        case Cached(t) => StartIsRight(it, t, s, m);
        case Uncached(t) => EnterIsRight(it, t.body, m);
        case Coroutine(end) => FinishIsRight(it, end, s, m);
      }
    case AtRecovery(it, t, row) => RecoveredIsRight(it, t, row, s, m);
    case Inside(it, b, sub) =>
      if b.Return? {
        FinishIsRight(it, Returned(b.v), s, m);
      } else if b.Raise? {
        FinishIsRight(it, Failed(b.x), s, m);
      } else if AllReady(sub) {
        ResumeIsRight(it, b, sub, s, m);
        assert Step(co, s, path) == Step(co, s, []);
      } else if path != [] && path[0] < |sub| {
        StepIsRight(sub[path[0]], s, path[1..], m);
      }
    case Ready(_, _) =>
  }

  lemma {:induction false} ResumedIsAnother(b: Body, r: Response)
    requires b.Yield? && r in b.resume
    ensures b.resume[r] != b
    decreases b
  {
    if b.resume[r] == b {
      ResumedIsAnother(b.resume[r], r);
    }
  }

  /** A coroutine that has not ended can always take a step that gets it on. */
  lemma {:induction false} NeverStuck(co: Co, s: Store, m: Meaning) returns (path: seq<nat>)
    requires Right(co, m) && !co.Ready?
    ensures Step(co, s, path).co != co
    decreases co
  {
    path := [];
    if co.Inside? && co.body.Yield? {
      if AllReady(co.sub) {
        var r := FlowAnswer(co.body.flow, co.sub);
        if r in co.body.resume {
          ResumedIsAnother(co.body, r);
        }
      } else {
        var i :| 0 <= i < |co.sub| && !co.sub[i].Ready?;
        var rest := NeverStuck(co.sub[i], s, m);
        path := [i] + rest;
        assert path[1..] == rest;
        assert co.sub[i := Step(co.sub[i], s, rest).co][i] != co.sub[i];
      }
    }
  }

  // ---- whole runs -------------------------------------------------------------------------------

  /** A list of coroutines and the store between them. */
  datatype World = World(cos: seq<Co>, store: Store)

  /** Any schedule: which of the list steps, and which inside it. */
  datatype Move = Move(index: nat, path: seq<nat>)

  function RunMoves(w: World, moves: seq<Move>): World
    decreases moves
  {
    if moves == [] then w
    else
      var v := RunMoves(w, moves[..|moves| - 1]);
      var last := moves[|moves| - 1];
      if last.index >= |v.cos| then v
      else
        var n := Step(v.cos[last.index], v.store, last.path);
        World(v.cos[last.index := n.co], n.store)
  }

  /**
   * Under every schedule of a flow's coroutines, the store is consistent after each
   * step, and when all have ended the flow's answer is the direct one.
   */
  lemma {:induction false} EveryScheduleAnswersDirectly(f: Flow, s: Store, moves: seq<Move>, m: Meaning)
    requires KeyedFlow(f, m) && Consistent(s, m)
    ensures var w := RunMoves(World(Begin(f), s), moves);
            && Consistent(w.store, m) && AllRight(w.cos, f, m)
            && (AllReady(w.cos) ==> FlowAnswer(f, w.cos) == DirectFlow(f))
    decreases moves
  {
    var w := RunMoves(World(Begin(f), s), moves);
    if moves == [] {
      BeginIsRight(f, m);
    } else {
      var n := |moves| - 1;
      var v := RunMoves(World(Begin(f), s), moves[..n]);
      EveryScheduleAnswersDirectly(f, s, moves[..n], m);
      if moves[n].index < |v.cos| {
        StepIsRight(v.cos[moves[n].index], v.store, moves[n].path, m);
      }
    }
    if AllReady(w.cos) {
      AnswerIsDirect(f, w.cos, m);
    }
  }
}
