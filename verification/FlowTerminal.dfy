/**
 * Terminal errors: `wrapped` never hands one back, every enclosing task that
 * lets one through is marked with it, and lists turn one into a slot.
 */
module FlowTerminal {
  import opened Prelude
  import opened FlowTasks
  import opened FlowProofs

  // ---- one hop ------------------------------------------------------------------

  /**
   * A yielded cacheable task raises in its caller exactly when it failed with a
   * non-empty message or, under `wrapped`, terminally; terminality and message
   * survive the hop.
   */
  lemma HopOfTask(t: Task, wrapped: bool, s: Store)
    ensures var r, out := RunTask(t, s).out, RunItem(Item(wrapped, Cached(t)), s).out;
            && (out.Threw? <==> if wrapped then r.IsTerminal() else r.error.Some? && r.error.value != "")
            && (out.Threw? ==> Some(out.e.msg) == r.error && out.e.IsTerminal() == r.IsTerminal())
            && (wrapped && out.Sent? ==> out.v == Wrap(r))
  {
    var out := RunItem(Item(wrapped, Cached(t)), s).out;
    assert out == RespondTask(wrapped, RunTask(t, s).out);
  }

  /** A failure whose message is empty is not raised: the caller receives None. */
  lemma EmptyMessageIsLost()
    ensures exists t: Task ::
              && DirectBody(t.body).Failed? && DirectBody(t.body).x.IsTerminal()
              && DirectItem(Item(false, Cached(t))) == Sent(Nil)
  {
    var t := Task("k", true, Raise(Other("", true)), Retry, v => RestoredTo(v));
    assert DirectItem(Item(false, Cached(t))) == Sent(Nil);
  }

  /** Whatever stands under `wrapped`, the Result handed back is not terminal. */
  lemma WrappedNeverHandsBackTerminal(work: Work, s: Store)
    ensures var out := RunItem(Item(true, work), s).out;
            out.Sent? ==> out.v.Wrap? && !out.v.result.IsTerminal()
  {
    match work
    case Cached(t) => HopOfTask(t, true, s);
    case Uncached(t) => assert RunItem(Item(true, work), s).out == RespondRaw(true, false, RunBody(t.body, s).out);
    case Coroutine(end) =>
  }

  // ---- any depth ------------------------------------------------------------------

  /**
   * The keys of the tasks an error passes through uncaught, outermost first: a
   * body adds the tasks of the flow whose error it re-raises unchanged.
   */
  ghost function BodySpine(b: Body, s: Store): seq<Key>
    decreases b
  {
    if !b.Yield? then []
    else
      var a := RunFlow(b.flow, s);
      if a.out in b.resume then
        var n := b.resume[a.out];
        if a.out.Threw? && n.Raise? && n.x == Raised(a.out.e) then FlowSpine(b.flow, s)
        else BodySpine(n, Replay(s, a.log))
      else if a.out.Threw? then FlowSpine(b.flow, s) else []
  }

  ghost function TaskSpine(t: Task, s: Store): seq<Key>
    decreases t
  {
    if !t.cacheable then BodySpine(t.body, s)
    else match PlanFor(t, s)
      case FromRow(_) => []
      case GiveUp(_, _) => [t.key]
      case Start(log) => [t.key] + BodySpine(t.body, Replay(s, log))
  }

  ghost function FlowSpine(f: Flow, s: Store): seq<Key>
    decreases f
  {
    if f.Many? then []
    else match f.item.work
      case Cached(t) => TaskSpine(t, s)
      case Uncached(t) => BodySpine(t.body, s)
      case Coroutine(_) => []
  }

  /** Row `k` is FAILED for good with this message. */
  ghost predicate Marked(s: Store, k: Key, msg: string) {
    && k in s && s[k].status == FAILED && s[k].blob.Some?
    && s[k].blob.value.IsTerminal() && s[k].blob.value.error == Some(msg)
  }

  lemma {:induction false} BodyMarks(b: Body, s: Store)
    requires RunBody(b, s).out.Failed? && RunBody(b, s).out.x.IsTerminal()
    ensures forall k | k in BodySpine(b, s) ::
              Marked(Replay(s, RunBody(b, s).log), k, RunBody(b, s).out.x.Msg())
    decreases b
  {
    if b.Yield? {
      var a := RunFlow(b.flow, s);
      if a.out in b.resume {
        var n := b.resume[a.out];
        var s' := Replay(s, a.log);
        if a.out.Threw? && n.Raise? && n.x == Raised(a.out.e) {
          FlowMarks(b.flow, s);
          assert RunBody(n, s').log == [];
          assert RunBody(b, s).log == a.log;
        } else {
          BodyMarks(n, s');
          ReplayConcat(s, a.log, RunBody(n, s').log);
        }
      } else {
        FlowMarks(b.flow, s);
      }
    }
  }

  /**
   * When an execution of a task ends in a terminal failure, every task on its
   * spine, at any depth, is left FAILED with a terminal result of that message.
   */
  lemma {:induction false} TerminalMarksEveryEnclosingTask(t: Task, s: Store)
    requires RunTask(t, s).out.IsTerminal()
    ensures forall k | k in TaskSpine(t, s) ::
              Marked(Replay(s, RunTask(t, s).log), k, RunTask(t, s).out.error.value)
    decreases t
  {
    var r := RunTask(t, s).out;
    if !t.cacheable {
      BodyMarks(t.body, s);
    } else {
      match PlanFor(t, s)
      case FromRow(_) =>
      case GiveUp(_, reply) =>
        var last := Updated(t.key, FAILED, Some(r));
        Unroll(s, Recovering(t.key, reply), [last]);
        Unroll(s, last, []);
        assert [last] == [last] + [];
        assert RunTask(t, s).log == [Recovering(t.key, reply)] + [last];
      case Start(start) =>
        var s1 := Replay(s, start);
        var b := RunBody(t.body, s1);
        var last := Updated(t.key, FAILED, Some(r));
        var s2 := Replay(s, start + b.log);
        BodyMarks(t.body, s1);
        StartShape(t, s, start);
        ReplayConcat(s, start, b.log);
        KeysStay(s1, b.log, t.key);
        ReplayConcat(s, start + b.log, [last]);
        Unroll(s2, last, []);
        assert [last] == [last] + [];
        assert RunTask(t, s).log == start + b.log + [last];
    }
  }

  lemma {:induction false} FlowMarks(f: Flow, s: Store)
    requires RunFlow(f, s).out.Threw? && RunFlow(f, s).out.e.IsTerminal()
    ensures forall k | k in FlowSpine(f, s) ::
              Marked(Replay(s, RunFlow(f, s).log), k, RunFlow(f, s).out.e.msg)
    decreases f
  {
    if f.One? {
      match f.item.work
      case Cached(t) =>
        HopOfTask(t, f.item.wrapped, s);
        assert f.item == Item(f.item.wrapped, Cached(t));
        TerminalMarksEveryEnclosingTask(t, s);
      case Uncached(t) => BodyMarks(t.body, s);
      case Coroutine(_) =>
    }
  }

  // ---- lists --------------------------------------------------------------------------

  lemma {:induction false} FirstBlockIsFirst(rs: seq<Response>)
    ensures FirstBlock(rs).None? <==> forall i | 0 <= i < |rs| :: !Blocks(rs[i])
    ensures FirstBlock(rs).Some? ==>
              exists i | 0 <= i < |rs| :: Blocks(rs[i]) && FirstBlock(rs) == Some(rs[i].e)
                && forall j | 0 <= j < i :: !Blocks(rs[j])
  {
    if rs != [] && !Blocks(rs[0]) {
      FirstBlockIsFirst(rs[1..]);
      if FirstBlock(rs).Some? {
        var i :| 0 <= i < |rs[1..]| && Blocks(rs[1..][i]) && FirstBlock(rs[1..]) == Some(rs[1..][i].e)
                 && forall j | 0 <= j < i :: !Blocks(rs[1..][j]);
        assert Blocks(rs[i + 1]);
        forall j | 0 <= j < i + 1 ensures !Blocks(rs[j]) {
          assert j > 0 ==> rs[j] == rs[1..][j - 1];
        }
      } else {
        forall i | 0 <= i < |rs| ensures !Blocks(rs[i]) {
          assert i > 0 ==> rs[i] == rs[1..][i - 1];
        }
      }
    }
  }

  /** `e` is the error of some response, and no earlier one blocks the list. */
  ghost predicate FirstAt(rs: seq<Response>, e: TaskError) {
    exists i | 0 <= i < |rs| :: rs[i] == Threw(e) && (forall j | 0 <= j < i :: !Blocks(rs[j]))
  }

  /**
   * A list answers with one slot per item, in order, exactly when no item failed
   * non-terminally; otherwise it raises the first such error.  Every item runs.
   */
  lemma ListAnswers(items: seq<Item>, s: Store)
    ensures var rs, out := RunItems(items, s).out, RunFlow(Many(items), s).out;
            && |rs| == |items|
            && (out.Sent? <==> forall i | 0 <= i < |rs| :: rs[i].Threw? ==> rs[i].e.IsTerminal())
            && (out.Sent? ==> out.v.Slots? && |out.v.items| == |items|
                              && forall i | 0 <= i < |rs| :: out.v.items[i] == Slot(rs[i]))
            && (out.Threw? ==> !out.e.IsTerminal() && FirstAt(rs, out.e))
  {
    var rs := RunItems(items, s).out;
    FirstBlockIsFirst(rs);
    assert forall i | 0 <= i < |rs| :: Blocks(rs[i]) <==> rs[i].Threw? && !rs[i].e.IsTerminal();
    if FirstBlock(rs).Some? {
      var i :| 0 <= i < |rs| && Blocks(rs[i]) && FirstBlock(rs) == Some(rs[i].e)
               && forall j | 0 <= j < i :: !Blocks(rs[j]);
      assert rs[i] == Threw(rs[i].e);
    }
  }

  /**
   * The slot of a terminal failure is None, except for a task whose failed result
   * carries a value and a bare `nocache` body that raised an error carrying one.
   */
  lemma {:induction false} TerminalSlot(it: Item, s: Store)
    requires RunItem(it, s).out.Threw? && RunItem(it, s).out.e.IsTerminal()
    ensures Slot(RunItem(it, s).out) == Nil <==>
            match it.work
            case Cached(t) => RunTask(t, s).out.value == Nil
            case Uncached(t) =>
              var e := RunItem(it, s).out.e;
              !(&& !it.wrapped && e.result.Some? && e.result.value.value != Nil
                && RunBody(t.body, s).out == Failed(Raised(e)))
            case Coroutine(_) => true
  {
    if it.work.Uncached? {
      var end := RunBody(it.work.task.body, s).out;
      assert RunItem(it, s).out == RespondRaw(it.wrapped, false, end);
    }
  }

  /** Only a row already stored gives a failed result a value. */
  lemma FailedValueIsStored(t: Task, s: Store)
    requires RunTask(t, s).out.error.Some? && RunTask(t, s).out.value != Nil
    ensures t.cacheable && t.key in s && s[t.key].blob.Some? && s[t.key].blob.value.error == RunTask(t, s).out.error
    ensures s[t.key].status != PENDING
  {
  }
}
