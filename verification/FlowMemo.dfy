/**
 * Memoised execution refines direct evaluation, through any number of crashes.
 *
 * `m` gives the result that a key stands for.  A flow is well keyed when every
 * cacheable task that can occur in it evaluates directly to what its key stands
 * for and uses the default recovery and restoration.
 */
module FlowMemo {
  import opened Prelude
  import opened FlowTasks
  import opened FlowProofs

  type Meaning = Key -> Result

  ghost predicate KeyedBody(b: Body, m: Meaning)
    decreases b
  {
    b.Yield? ==> KeyedFlow(b.flow, m) && forall r | r in b.resume :: KeyedBody(b.resume[r], m)
  }

  ghost predicate KeyedTask(t: Task, m: Meaning)
    decreases t
  {
    && KeyedBody(t.body, m)
    && (t.cacheable ==>
          && m(t.key) == ResultOf(DirectBody(t.body))
          && t.recovery == Retry
          && forall v :: t.restore(v) == RestoredTo(v))
  }

  ghost predicate KeyedItem(it: Item, m: Meaning)
    decreases it
  {
    match it.work
    case Cached(t) => KeyedTask(t, m)
    case Uncached(t) => KeyedBody(t.body, m)
    case Coroutine(_) => true
  }

  ghost predicate KeyedFlow(f: Flow, m: Meaning)
    decreases f
  {
    match f
    case One(it) => KeyedItem(it, m)
    case Many(items) => forall it | it in items :: KeyedItem(it, m)
  }

  /** Completed and terminally failed rows hold what their key stands for. */
  ghost predicate Consistent(s: Store, m: Meaning) {
    forall k | k in s ::
      && (s[k].status == COMPLETED ==> s[k].blob == Some(m(k)) && m(k).error == None)
      && (s[k].status == FAILED && s[k].blob.Some? && s[k].blob.value.IsTerminal() ==> s[k].blob.value == m(k))
  }

  ghost function Consistency(m: Meaning): Store -> bool {
    s => Consistent(s, m)
  }

  lemma StartConsistent(t: Task, s: Store, start: seq<Event>, m: Meaning)
    requires t.cacheable && PlanFor(t, s) == Start(start) && Consistent(s, m)
    ensures Always(s, start, Consistency(m)) && Consistent(Replay(s, start), m)
  {
    var k := t.key;
    var enter := [Entered(k)];
    assert enter == [Entered(k)] + [];
    Unroll(if k in s then Apply(s, Updated(k, RUNNING, None)) else Apply(s, Created(k)), Entered(k), []);
    if k !in s {
      Unroll(s, Created(k), enter);
      assert start == [Created(k)] + enter;
    } else {
      var begin := [Updated(k, RUNNING, None)] + enter;
      Unroll(s, Updated(k, RUNNING, None), enter);
      Unroll(s, Recovering(k, Retry), begin);
      if s[k].status == PENDING {
        assert start == begin;
      } else {
        assert start == [Recovering(k, Retry)] + begin;
      }
    }
  }

  lemma AlwaysEnds(s: Store, log: seq<Event>, m: Meaning)
    requires Always(s, log, Consistency(m))
    ensures Consistent(Replay(s, log), m)
  {
    AlwaysAt(s, log, Consistency(m), |log|);
    assert log[..|log|] == log;
  }

  lemma {:induction false} BodyMemo(b: Body, s: Store, m: Meaning)
    requires KeyedBody(b, m) && Consistent(s, m)
    ensures RunBody(b, s).out == DirectBody(b)
    ensures Always(s, RunBody(b, s).log, Consistency(m))
    decreases b
  {
    if b.Yield? {
      var a := RunFlow(b.flow, s);
      FlowMemo(b.flow, s, m);
      AlwaysEnds(s, a.log, m);
      if a.out in b.resume {
        var s' := Replay(s, a.log);
        BodyMemo(b.resume[a.out], s', m);
        AlwaysConcat(s, a.log, RunBody(b.resume[a.out], s').log, Consistency(m));
      }
    }
  }

  lemma {:induction false} TaskMemo(t: Task, s: Store, m: Meaning)
    requires KeyedTask(t, m) && Consistent(s, m)
    ensures RunTask(t, s).out == ResultOf(DirectBody(t.body))
    ensures Always(s, RunTask(t, s).log, Consistency(m))
    decreases t
  {
    if !t.cacheable {
      BodyMemo(t.body, s, m);
    } else if PlanFor(t, s).Start? {
      var start := PlanFor(t, s).log;
      var s1 := Replay(s, start);
      var b := RunBody(t.body, s1);
      var r := ResultOf(b.out);
      var last := Updated(t.key, Outcome(r), Some(r));
      StartConsistent(t, s, start, m);
      BodyMemo(t.body, s1, m);
      AlwaysConcat(s, start, b.log, Consistency(m));
      AlwaysEnds(s, start + b.log, m);
      Unroll(Replay(s, start + b.log), last, []);
      AlwaysConcat(s, start + b.log, [last] + [], Consistency(m));
      assert RunTask(t, s).log == start + b.log + ([last] + []);
    }
  }

  lemma {:induction false} ItemMemo(it: Item, s: Store, m: Meaning)
    requires KeyedItem(it, m) && Consistent(s, m)
    ensures RunItem(it, s).out == DirectItem(it)
    ensures Always(s, RunItem(it, s).log, Consistency(m))
    decreases it
  {
    match it.work
    case Cached(t) => TaskMemo(t, s, m);
    case Uncached(t) => BodyMemo(t.body, s, m);
    case Coroutine(end) =>
  }

  lemma {:induction false} ItemsMemo(items: seq<Item>, s: Store, m: Meaning)
    requires (forall it | it in items :: KeyedItem(it, m)) && Consistent(s, m)
    ensures RunItems(items, s).out == DirectItems(items)
    ensures Always(s, RunItems(items, s).log, Consistency(m))
    decreases items
  {
    if items != [] {
      var a := RunItem(items[0], s);
      var s' := Replay(s, a.log);
      ItemMemo(items[0], s, m);
      AlwaysEnds(s, a.log, m);
      ItemsMemo(items[1..], s', m);
      AlwaysConcat(s, a.log, RunItems(items[1..], s').log, Consistency(m));
    }
  }

  /**
   * Starting from any consistent store, a memoised run answers as direct
   * evaluation does, and the store is consistent after each single write.
   */
  lemma {:induction false} FlowMemo(f: Flow, s: Store, m: Meaning)
    requires KeyedFlow(f, m) && Consistent(s, m)
    ensures RunFlow(f, s).out == DirectFlow(f)
    ensures Always(s, RunFlow(f, s).log, Consistency(m))
    decreases f
  {
    match f
    case One(it) => ItemMemo(it, s, m);
    case Many(items) => ItemsMemo(items, s, m);
  }

  // ---- crashes ----------------------------------------------------------------

  /** A run of a flow that stopped after this many events, or at its end. */
  datatype Stopped = Stopped(flow: Flow, after: nat)

  /** The rows that runs leave behind, each starting from what the one before it left. */
  ghost function AfterRuns(runs: seq<Stopped>, s: Store): Store
    decreases runs
  {
    if runs == [] then s
    else
      var log := RunFlow(runs[0].flow, s).log;
      AfterRuns(runs[1..], Replay(s, log[..Min(runs[0].after, |log|)]))
  }

  lemma {:induction false} RunsConsistent(runs: seq<Stopped>, s: Store, m: Meaning)
    requires (forall r | r in runs :: KeyedFlow(r.flow, m)) && Consistent(s, m)
    ensures Consistent(AfterRuns(runs, s), m)
    decreases runs
  {
    if runs != [] {
      var log := RunFlow(runs[0].flow, s).log;
      var n := Min(runs[0].after, |log|);
      FlowMemo(runs[0].flow, s, m);
      AlwaysAt(s, log, Consistency(m), n);
      RunsConsistent(runs[1..], Replay(s, log[..n]), m);
    }
  }

  /**
   * Whatever well keyed flows were run before, each stopped after any of its
   * writes, running a flow on the rows left gives the uninterrupted outcome.
   */
  lemma CrashAndResume(f: Flow, s: Store, runs: seq<Stopped>, m: Meaning)
    requires KeyedFlow(f, m) && (forall r | r in runs :: KeyedFlow(r.flow, m)) && Consistent(s, m)
    ensures RunFlow(f, AfterRuns(runs, s)).out == RunFlow(f, s).out == DirectFlow(f)
  {
    RunsConsistent(runs, s, m);
    FlowMemo(f, AfterRuns(runs, s), m);
    FlowMemo(f, s, m);
  }

  /**
   * A task whose row is COMPLETED, or FAILED for good, has no event in any later
   * run of any flow, however the runs before it were stopped; the row itself
   * never changes.  No hypothesis on the tasks is needed.
   */
  lemma {:induction false} SettledForever(f: Flow, s: Store, runs: seq<Stopped>, k: Key)
    requires k in s && Settled(s[k])
    ensures k in AfterRuns(runs, s) && AfterRuns(runs, s)[k] == s[k]
    ensures forall ev | ev in RunFlow(f, AfterRuns(runs, s)).log :: ev.key != k
    decreases runs
  {
    if runs == [] {
      FlowDisciplined(f, s);
      SettledRowStays(s, RunFlow(f, s).log, k);
    } else {
      var log := RunFlow(runs[0].flow, s).log;
      var n := Min(runs[0].after, |log|);
      FlowDisciplined(runs[0].flow, s);
      SettledRowStays(s, log, k);
      UntouchedKeeps(s, log[..n], k);
      SettledForever(f, Replay(s, log[..n]), runs[1..], k);
    }
  }

  /** In particular a COMPLETED body is not entered again. */
  lemma CompletedNotReentered(f: Flow, s: Store, runs: seq<Stopped>, k: Key)
    requires k in s && s[k].status == COMPLETED
    ensures k in AfterRuns(runs, s) && AfterRuns(runs, s)[k] == s[k]
    ensures Entered(k) !in RunFlow(f, AfterRuns(runs, s)).log
  {
    SettledForever(f, s, runs, k);
  }

  /**
   * The recovery gate over whole runs, from any store: settled rows are left
   * alone, each body entered over a FAILED or RUNNING row follows a recover()
   * that returned, and no RUNNING row ever carries a terminal result.
   */
  lemma RecoveryGate(f: Flow, s: Store)
    requires Sane(s)
    ensures Gated(s, RunFlow(f, s).log)
    ensures forall n | 0 <= n <= |RunFlow(f, s).log| :: Sane(Replay(s, RunFlow(f, s).log[..n]))
    ensures forall k | k in s && Settled(s[k]) ::
              && k in Replay(s, RunFlow(f, s).log) && Replay(s, RunFlow(f, s).log)[k] == s[k]
              && forall ev | ev in RunFlow(f, s).log :: ev.key != k
  {
    var log := RunFlow(f, s).log;
    FlowDisciplined(f, s);
    forall n | 0 <= n <= |log| ensures Sane(Replay(s, log[..n])) {
      AlwaysAt(s, log, Sanity(), n);
    }
    forall k | k in s && Settled(s[k])
      ensures k in Replay(s, log) && Replay(s, log)[k] == s[k]
      ensures forall ev | ev in log :: ev.key != k
    {
      SettledRowStays(s, log, k);
    }
  }

  /** A terminal FAILED row is the answer, with no event at all, whoever asks. */
  lemma TerminalRowIsTheAnswer(t: Task, s: Store)
    requires t.cacheable && t.key in s
    requires s[t.key].status == FAILED && s[t.key].blob.Some? && s[t.key].blob.value.IsTerminal()
    ensures RunTask(t, s) == Ran(s[t.key].blob.value, [])
  {
  }

  /** A refused or failed recovery stops the task before its body, and is recorded. */
  lemma NoEntryWithoutRecovery(t: Task, s: Store)
    requires t.cacheable && t.key in s && s[t.key].status in {FAILED, RUNNING}
    requires !Settled(s[t.key])
    requires t.recovery != Retry
    ensures Entered(t.key) !in RunTask(t, s).log
    ensures Replay(s, RunTask(t, s).log) == s[t.key := Row(FAILED, Some(RunTask(t, s).out))]
  {
    var r := RunTask(t, s).out;
    Unroll(s, Recovering(t.key, t.recovery), [Updated(t.key, FAILED, Some(r))]);
    Unroll(s, Updated(t.key, FAILED, Some(r)), []);
    assert RunTask(t, s).log == [Recovering(t.key, t.recovery)] + ([Updated(t.key, FAILED, Some(r))] + []);
  }
}
