/**
 * What a caller receives from each kind of work, said without the executor's own
 * rules for responding, and what a finished task leaves for the next run.
 */
module FlowAnswers {
  import opened Prelude
  import opened FlowTasks
  import opened FlowProofs
  import opened FlowMemo
  import opened FlowGather

  /** How the work under an item ends, evaluated directly. */
  function EndOf(it: Item): End {
    DirectBody(BodyOf(it))
  }

  /**
   * A value arrives as it is, or as a Result under `wrapped`.  An error is raised
   * with its message and terminality, except that `wrapped` turns one that is not
   * terminal into a Result, and a task whose row or result carries an empty message
   * answers None.
   */
  ghost predicate Handed(it: Item, end: End, r: Response) {
    match end
    case Returned(v) => r == Sent(if it.wrapped then Wrap(Result(v, None, false)) else v)
    case Failed(x) =>
      if it.wrapped && !x.IsTerminal() then r == Sent(Wrap(Result(Nil, Some(x.Msg()), false)))
      else if !it.wrapped && it.work.Cached? && x.Msg() == "" then r == Sent(Nil)
      else r.Threw? && r.e.msg == x.Msg() && r.e.IsTerminal() == x.IsTerminal()
  }

  lemma DirectlyHanded(it: Item)
    ensures Handed(it, EndOf(it), DirectItem(it))
  {
    match it.work
    case Cached(t) =>
      assert DirectItem(it) == RespondTask(it.wrapped, ResultOf(DirectBody(t.body)));
    case Uncached(t) =>
      assert DirectItem(it) == RespondRaw(it.wrapped, false, DirectBody(t.body));
    case Coroutine(end) =>
      assert EndOf(it) == end;
      assert DirectItem(it) == RespondRaw(it.wrapped, true, end);
  }

  /** From any consistent store, an item hands over how its body ends. */
  lemma ItemIsHanded(it: Item, s: Store, m: Meaning)
    requires KeyedItem(it, m) && Consistent(s, m)
    ensures Handed(it, EndOf(it), RunFlow(One(it), s).out)
  {
    FlowMemo.FlowMemo(One(it), s, m);
    DirectlyHanded(it);
  }

  /** A list whose items all return hands over their values, in order. */
  lemma ListIsHanded(items: seq<Item>, values: seq<Value>, s: Store, m: Meaning)
    requires KeyedFlow(Many(items), m) && Consistent(s, m) && |values| == |items|
    requires forall i | 0 <= i < |items| :: EndOf(items[i]) == Returned(values[i]) && !items[i].wrapped
    ensures RunFlow(Many(items), s).out == Sent(Slots(values))
  {
    FlowMemo.FlowMemo(Many(items), s, m);
    var rs := DirectItems(items);
    forall i | 0 <= i < |items| ensures rs[i] == Sent(values[i]) {
      DirectItemsAt(items, i);
      DirectlyHanded(items[i]);
    }
    NothingBlocks(rs);
    assert seq(|rs|, i requires 0 <= i < |rs| => Slot(rs[i])) == values;
  }

  lemma {:induction false} NothingBlocks(rs: seq<Response>)
    requires forall i | 0 <= i < |rs| :: rs[i].Sent?
    ensures FirstBlock(rs).None?
    decreases rs
  {
    if rs != [] {
      NothingBlocks(rs[1..]);
    }
  }

  /** A generator goes on from exactly what the yielded item hands over. */
  lemma GeneratorReceives(b: Body, it: Item, s: Store, m: Meaning)
    requires KeyedBody(b, m) && Consistent(s, m) && b.Yield? && b.flow == One(it)
    ensures exists r :: Handed(it, EndOf(it), r)
              && RunBody(b, s).out == if r in b.resume then DirectBody(b.resume[r])
                                      else if r.Threw? then Failed(Raised(r.e)) else Returned(Nil)
  {
    BodyMemo(b, s, m);
    DirectlyHanded(it);
    var r := DirectItem(it);
    assert DirectFlow(b.flow) == r;
  }

  /** An error that a task does not handle becomes its own, word for word. */
  lemma UncaughtErrorPasses(t: Task, it: Item, s: Store, m: Meaning)
    requires KeyedTask(t, m) && Consistent(s, m) && t.body.Yield? && t.body.flow == One(it)
    requires forall r | r in t.body.resume :: !r.Threw?
    requires EndOf(it).Failed? && EndOf(it).x.Msg() != "" && (it.wrapped ==> EndOf(it).x.IsTerminal())
    ensures RunTask(t, s).out.error == Some(EndOf(it).x.Msg())
    ensures RunTask(t, s).out.IsTerminal() == EndOf(it).x.IsTerminal()
  {
    TaskMemo(t, s, m);
    DirectlyHanded(it);
    assert DirectFlow(t.body.flow) == DirectItem(it);
  }

  // ---- what stays ---------------------------------------------------------------------------

  /** The row of a task that ran to its end: COMPLETED with the value, or FAILED with the error. */
  function RowOf(end: End): Row {
    match end
    case Returned(v) => Row(COMPLETED, Some(Result(v, None, false)))
    case Failed(x) => Row(FAILED, Some(Result(Nil, Some(x.Msg()), x.IsTerminal())))
  }

  /** A task whose body is entered leaves the row of how it ended. */
  lemma FinishedIsStored(t: Task, s: Store, m: Meaning)
    requires KeyedTask(t, m) && t.cacheable && Consistent(s, m) && (t.key in s ==> !Settled(s[t.key]))
    ensures var after := Replay(s, RunTask(t, s).log);
            t.key in after && after[t.key] == RowOf(DirectBody(t.body))
  {
    var start := PlanFor(t, s).log;
    var s1 := Replay(s, start);
    var b := RunBody(t.body, s1);
    var r := ResultOf(b.out);
    var last := Updated(t.key, Outcome(r), Some(r));
    StartConsistent(t, s, start, m);
    BodyMemo(t.body, s1, m);
    StartShape(t, s, start);
    ReplayConcat(s, start, b.log);
    KeysStay(s1, b.log, t.key);
    ReplayConcat(s, start + b.log, [last]);
    Unroll(Replay(s, start + b.log), last, []);
    assert [last] == [last] + [];
    assert RunTask(t, s).log == start + b.log + [last];
  }

  /**
   * The point of it all: once a task has succeeded, or failed for good, running it
   * again gives the same answer and does nothing.
   */
  lemma SecondRunIsFree(t: Task, s: Store, m: Meaning)
    requires KeyedTask(t, m) && t.cacheable && Consistent(s, m)
    requires DirectBody(t.body).Returned? || DirectBody(t.body).x.IsTerminal()
    ensures RunTask(t, Replay(s, RunTask(t, s).log)) == Ran(ResultOf(DirectBody(t.body)), [])
  {
    TaskMemo(t, s, m);
    if t.key in s && Settled(s[t.key]) {
      assert RunTask(t, s).log == [];
    } else {
      FinishedIsStored(t, s, m);
    }
  }

  /** A COMPLETED row answers with its stored value, restored by the task. */
  lemma CompletedIsRestored(t: Task, s: Store, r: Result)
    requires t.cacheable && t.key in s && s[t.key] == Row(COMPLETED, Some(r))
    ensures t.restore(r.value).RestoredTo? ==>
              RunTask(t, s) == Ran(Result(t.restore(r.value).v, r.error, r.terminal), [])
    ensures t.restore(r.value).RestoreFails? ==>
              var out := RunTask(t, s).out;
              && out.error == Some("Completed Task restore failed: " + t.restore(r.value).x.Msg())
              && out.value == Nil
              && out.IsTerminal() == (t.restore(r.value).x.IsTerminal() || ContextLimit(out.error.value))
              && RunTask(t, s).log == []
  {
  }

  /** A COMPLETED row that cannot be read is answered with an error, and left alone. */
  lemma CompletedIsUnreadable(t: Task, s: Store)
    requires t.cacheable && t.key in s && s[t.key] == Row(COMPLETED, None)
    ensures var out := RunTask(t, s).out;
            && out.error == Some("Completed Task but the result not unpickeling, error: ") && out.value == Nil
            && RunTask(t, s).log == []
  {
  }

  /** A task that will not recover answers with its old failure, and one that cannot with the reason. */
  lemma RefusalAnswers(t: Task, s: Store)
    requires t.cacheable && t.key in s && s[t.key].status in {FAILED, RUNNING} && !Settled(s[t.key])
    ensures t.recovery == Refuse && s[t.key].blob.Some? ==> RunTask(t, s).out == s[t.key].blob.value
    ensures t.recovery == Refuse && s[t.key].blob.None? ==>
              RunTask(t, s).out == Result(Nil, Some("Task recovery returned False, not retrying"), false)
    ensures t.recovery.RecoverFails? ==>
              var x, out := t.recovery.x, RunTask(t, s).out;
              out == Result(Nil, Some("Task recovery failed: " + x.Msg()), x.IsTerminal())
  {
  }

  /** While a task is retried its row is RUNNING and keeps the old result. */
  lemma RetryKeepsTheOldResult(t: Task, s: Store)
    requires t.cacheable && t.key in s && PlanFor(t, s).Start?
    ensures var start := PlanFor(t, s).log;
            && Replay(s, start) == s[t.key := Row(RUNNING, s[t.key].blob)] && start[|start| - 1] == Entered(t.key)
  {
    var k := t.key;
    Unroll(s, Updated(k, RUNNING, None), [Entered(k)]);
    Unroll(Apply(s, Updated(k, RUNNING, None)), Entered(k), []);
    Unroll(s, Recovering(k, Retry), [Updated(k, RUNNING, None), Entered(k)]);
    assert [Entered(k)] == [Entered(k)] + [];
    assert [Updated(k, RUNNING, None), Entered(k)] == [Updated(k, RUNNING, None)] + [Entered(k)];
    assert [Recovering(k, Retry)] + [Updated(k, RUNNING, None), Entered(k)]
        == [Recovering(k, Retry), Updated(k, RUNNING, None), Entered(k)];
    if s[k].status == PENDING {
      assert PlanFor(t, s).log == [Updated(k, RUNNING, None), Entered(k)];
    } else {
      assert PlanFor(t, s).log == [Recovering(k, Retry)] + [Updated(k, RUNNING, None), Entered(k)];
    }
  }

  // ---- context limits ---------------------------------------------------------------------------

  lemma MentionsInside(a: string, part: string, b: string)
    ensures Mentions(a + part + b, part)
  {
    assert (a + part + b)[|a|..] == part + b;
  }

  lemma LowerConcat(a: string, b: string)
    ensures Lower(a + b) == Lower(a) + Lower(b)
  {
  }

  /** Messages that make an error terminal, whatever stands around the words and in any case. */
  lemma ContextLimitMessages(a: string, words: string, b: string)
    requires Lower(words) == "maximum context length" || Lower(words) == "context limit exceeded"
    ensures ContextLimit(a + words + b)
    ensures TaskError(a + words + b, None, false).IsTerminal()
    ensures Result(Nil, Some(a + words + b), false).IsTerminal()
  {
    LowerConcat(a + words, b);
    LowerConcat(a, words);
    MentionsInside(Lower(a), Lower(words), Lower(b));
  }

  /** The other two kinds need two words, in either order. */
  lemma ContextSizeMessages(message: string, a: string, b: string, c: string, d: string)
    requires Lower(message) == a + "context size" + b == c + "exceed" + d
          || Lower(message) == a + "token limit" + b == c + "exceed" + d
          || Lower(message) == a + "token limit" + b == c + "maximum" + d
    ensures ContextLimit(message)
  {
    MentionsInside(a, "context size", b);
    MentionsInside(a, "token limit", b);
    MentionsInside(c, "exceed", d);
    MentionsInside(c, "maximum", d);
  }
}
