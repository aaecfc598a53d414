/**
 * Tasks, results, errors and the persistent store of eggflow, and what one
 * execution does to the store, as functions on values.
 *
 * A task body is a deterministic generator: it returns, raises, or yields a
 * flow and continues with the response.  The continuation is a finite-depth
 * tree indexed by responses; a response it does not mention is one the
 * generator does not handle, so an error leaves it uncaught.
 */
module FlowTasks {
  import opened Prelude

  type Key = string

  datatype Value = Nil | Atom(n: int) | Slots(items: seq<Value>) | Wrap(result: Result)

  datatype Result = Result(value: Value, error: Option<string>, terminal: bool) {
    predicate IsTerminal() {
      error.Some? && (terminal || ContextLimit(error.value))
    }
  }

  datatype TaskError = TaskError(msg: string, result: Option<Result>, terminal: bool) {
    predicate IsTerminal() {
      terminal || ContextLimit(msg)
    }
  }

  /** `flagged` is a context-limit exception class or a true `terminal` attribute. */
  datatype Exn = Raised(err: TaskError) | Other(text: string, flagged: bool) {
    function Msg(): string {
      if Raised? then err.msg else text
    }

    predicate IsTerminal() {
      (if Raised? then err.terminal else flagged) || ContextLimit(Msg())
    }
  }

  datatype Response = Sent(v: Value) | Threw(e: TaskError)

  datatype Body =
    | Return(v: Value)
    | Raise(x: Exn)
    | Yield(flow: Flow, resume: imap<Response, Body>)

  datatype Recovery = Retry | Refuse | RecoverFails(x: Exn)

  datatype Restored = RestoredTo(v: Value) | RestoreFails(x: Exn)

  datatype Task = Task(key: Key, cacheable: bool, body: Body,
                       recovery: Recovery, restore: Value -> Restored)

  /** How a generator or coroutine ends. */
  datatype End = Returned(v: Value) | Failed(x: Exn)

  /** What may stand alone or in a list; `wrapped` asks for the Result object. */
  datatype Work = Cached(task: Task) | Uncached(task: Task) | Coroutine(end: End)
  datatype Item = Item(wrapped: bool, work: Work)
  datatype Flow = One(item: Item) | Many(items: seq<Item>)

  // ---- terminal errors ------------------------------------------------------

  predicate Mentions(text: string, part: string) {
    exists i | 0 <= i <= |text| :: part <= text[i..]
  }

  function Lower(text: string): string {
    seq(|text|, i requires 0 <= i < |text| =>
      if 'A' <= text[i] <= 'Z' then (text[i] as int + 32) as char else text[i])
  }

  predicate ContextLimit(message: string) {
    var m := Lower(message);
    || Mentions(m, "maximum context length")
    || Mentions(m, "context limit exceeded")
    || (Mentions(m, "context size") && Mentions(m, "exceed"))
    || (Mentions(m, "token limit") && (Mentions(m, "exceed") || Mentions(m, "maximum")))
  }

  // ---- the store ------------------------------------------------------------

  datatype Status = PENDING | RUNNING | COMPLETED | FAILED

  /** `blob` is None for a row without a result and for one that does not unpickle. */
  datatype Row = Row(status: Status, blob: Option<Result>)

  type Store = map<Key, Row>

  /** Everything an execution does that a later run or an observer can notice. */
  datatype Event =
    | Created(key: Key)
    | Updated(key: Key, status: Status, result: Option<Result>)
    | Recovering(key: Key, reply: Recovery)
    | Entered(key: Key)

  function Apply(s: Store, ev: Event): Store {
    match ev
    case Created(k) => s[k := Row(PENDING, None)]
    case Updated(k, status, result) =>
      if k in s then s[k := Row(status, if result.Some? then result else s[k].blob)] else s
    case _ => s
  }

  function Replay(s: Store, log: seq<Event>): Store
    decreases log
  {
    if log == [] then s else Replay(Apply(s, log[0]), log[1..])
  }

  // ---- what a caller receives -----------------------------------------------

  function ResultOf(end: End): Result {
    match end
    case Returned(v) => Result(v, None, false)
    case Failed(x) => Result(Nil, Some(x.Msg()), x.IsTerminal())
  }

  /** A finished (cached or uncacheable) task, seen by the code that yielded it. */
  function RespondTask(wrapped: bool, r: Result): Response {
    if wrapped then
      if r.IsTerminal() then Threw(TaskError(r.error.value, Some(r), true)) else Sent(Wrap(r))
    else if r.error.Some? && r.error.value != "" then
      Threw(TaskError(r.error.value, Some(r), r.IsTerminal()))
    else
      Sent(r.value)
  }

  /** A `nocache` task or a raw coroutine, whose exception reaches the wrapper itself. */
  function RespondRaw(wrapped: bool, coroutine: bool, end: End): Response {
    var r := ResultOf(end);
    if end.Returned? then
      Sent(if wrapped then Wrap(r) else end.v)
    else if wrapped then
      if end.x.IsTerminal() then Threw(TaskError(end.x.Msg(), Some(r), true)) else Sent(Wrap(r))
    else if end.x.Raised? && !coroutine then
      Threw(end.x.err)
    else
      Threw(TaskError(end.x.Msg(), Some(r), end.x.IsTerminal()))
  }

  /** How a generator ends on a response it does not handle. */
  function Unhandled(r: Response): End {
    if r.Threw? then Failed(Raised(r.e)) else Returned(Nil)
  }

  /** A list's slot for one item: its value, or what a terminal error left. */
  function Slot(r: Response): Value {
    match r
    case Sent(v) => v
    case Threw(e) => if e.IsTerminal() && e.result.Some? then e.result.value.value else Nil
  }

  predicate Blocks(r: Response) {
    r.Threw? && !r.e.IsTerminal()
  }

  function FirstBlock(rs: seq<Response>): Option<TaskError> {
    if rs == [] then None
    else if Blocks(rs[0]) then Some(rs[0].e)
    else FirstBlock(rs[1..])
  }

  function Collect(rs: seq<Response>): Response {
    var b := FirstBlock(rs);
    if b.Some? then Threw(b.value)
    else Sent(Slots(seq(|rs|, i requires 0 <= i < |rs| => Slot(rs[i]))))
  }

  // ---- direct evaluation: no store, no recovery, no restoring -----------------

  function DirectBody(b: Body): End
    decreases b
  {
    match b
    case Return(v) => Returned(v)
    case Raise(x) => Failed(x)
    case Yield(flow, _) =>
      var r := DirectFlow(flow);
      if r in b.resume then DirectBody(b.resume[r]) else Unhandled(r)
  }

  function DirectItem(it: Item): Response
    decreases it
  {
    match it.work
    case Cached(t) => RespondTask(it.wrapped, ResultOf(DirectBody(t.body)))
    case Uncached(t) => RespondRaw(it.wrapped, false, DirectBody(t.body))
    case Coroutine(end) => RespondRaw(it.wrapped, true, end)
  }

  function DirectItems(items: seq<Item>): (rs: seq<Response>)
    ensures |rs| == |items|
    decreases items
  {
    if items == [] then [] else [DirectItem(items[0])] + DirectItems(items[1..])
  }

  function DirectFlow(f: Flow): Response
    decreases f
  {
    match f
    case One(it) => DirectItem(it)
    case Many(items) => Collect(DirectItems(items))
  }

  // ---- memoised execution -----------------------------------------------------

  /** An answer together with the events that produced it. */
  datatype Ran<+A> = Ran(out: A, log: seq<Event>)

  /** How an execution request is met, decided from the row alone. */
  datatype Plan =
    | FromRow(r: Result)                                     // nothing is written
    | GiveUp(r: Result, reply: Recovery)                     // recovery failed or refused
    | Start(log: seq<Event>)                                 // the body is entered

  function PlanFor(t: Task, s: Store): Plan {
    if t.key !in s then Start([Created(t.key), Entered(t.key)])
    else
      var row := s[t.key];
      var begin := [Updated(t.key, RUNNING, None), Entered(t.key)];
      if row.status == COMPLETED then
        if row.blob.None? then FromRow(Result(Nil, Some(CORRUPT), false))
        else (match t.restore(row.blob.value.value)
              case RestoredTo(v) => FromRow(row.blob.value.(value := v))
              case RestoreFails(x) => FromRow(Result(Nil, Some(RESTORE_FAILED + x.Msg()), x.IsTerminal())))
      else if row.status == PENDING then Start(begin)
      else if row.status == FAILED && row.blob.Some? && row.blob.value.IsTerminal() then FromRow(row.blob.value)
      else match t.recovery
        case Retry => Start([Recovering(t.key, Retry)] + begin)
        case Refuse => GiveUp(if row.blob.Some? then row.blob.value else Result(Nil, Some(REFUSED), false), Refuse)
        case RecoverFails(x) =>
          GiveUp(Result(Nil, Some(RECOVERY_FAILED + x.Msg()), x.IsTerminal()), t.recovery)
  }

  const CORRUPT := "Completed Task but the result not unpickeling, error: "
  const RESTORE_FAILED := "Completed Task restore failed: "
  const RECOVERY_FAILED := "Task recovery failed: "
  const REFUSED := "Task recovery returned False, not retrying"

  function Outcome(r: Result): Status {
    if r.error.None? then COMPLETED else FAILED
  }

  function RunBody(b: Body, s: Store): Ran<End>
    decreases b
  {
    match b
    case Return(v) => Ran(Returned(v), [])
    case Raise(x) => Ran(Failed(x), [])
    case Yield(flow, _) =>
      var a := RunFlow(flow, s);
      if a.out in b.resume then
        var c := RunBody(b.resume[a.out], Replay(s, a.log));
        Ran(c.out, a.log + c.log)
      else Ran(Unhandled(a.out), a.log)
  }

  function RunTask(t: Task, s: Store): Ran<Result>
    decreases t
  {
    if !t.cacheable then
      var b := RunBody(t.body, s);
      Ran(ResultOf(b.out), b.log)
    else match PlanFor(t, s)
      case FromRow(r) => Ran(r, [])
      case GiveUp(r, reply) => Ran(r, [Recovering(t.key, reply), Updated(t.key, FAILED, Some(r))])
      case Start(log) =>
        var b := RunBody(t.body, Replay(s, log));
        var r := ResultOf(b.out);
        Ran(r, log + b.log + [Updated(t.key, Outcome(r), Some(r))])
  }

  function RunItem(it: Item, s: Store): Ran<Response>
    decreases it
  {
    match it.work
    case Cached(t) => var r := RunTask(t, s); Ran(RespondTask(it.wrapped, r.out), r.log)
    case Uncached(t) => var b := RunBody(t.body, s); Ran(RespondRaw(it.wrapped, false, b.out), b.log)
    case Coroutine(end) => Ran(RespondRaw(it.wrapped, true, end), [])
  }

  function RunItems(items: seq<Item>, s: Store): (r: Ran<seq<Response>>)
    ensures |r.out| == |items|
    decreases items
  {
    if items == [] then Ran([], [])
    else
      var a := RunItem(items[0], s);
      var c := RunItems(items[1..], Replay(s, a.log));
      Ran([a.out] + c.out, a.log + c.log)
  }

  function RunFlow(f: Flow, s: Store): Ran<Response>
    decreases f
  {
    match f
    case One(it) => RunItem(it, s)
    case Many(items) => var r := RunItems(items, s); Ran(Collect(r.out), r.log)
  }
}
