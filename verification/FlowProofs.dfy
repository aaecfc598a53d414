/**
 * What every execution keeps, and that memoised execution, crashed and resumed
 * any number of times, answers exactly as direct evaluation does.
 */
module FlowProofs {
  import opened Prelude
  import opened FlowTasks

  // ---- logs -------------------------------------------------------------------

  lemma {:induction false} ReplayConcat(s: Store, a: seq<Event>, b: seq<Event>)
    ensures Replay(s, a + b) == Replay(Replay(s, a), b)
    decreases a
  {
    if a == [] {
      assert a + b == b;
    } else {
      assert (a + b)[1..] == a[1..] + b;
      ReplayConcat(Apply(s, a[0]), a[1..], b);
    }
  }

  lemma {:induction false} KeysStay(s: Store, log: seq<Event>, k: Key)
    requires k in s
    ensures k in Replay(s, log)
    decreases log
  {
    if log != [] {
      KeysStay(Apply(s, log[0]), log[1..], k);
    }
  }

  /** `p` holds of the store at the start and after every single write. */
  ghost predicate Always(s: Store, log: seq<Event>, p: Store -> bool)
    decreases log
  {
    p(s) && (log != [] ==> Always(Apply(s, log[0]), log[1..], p))
  }

  lemma {:induction false} AlwaysConcat(s: Store, a: seq<Event>, b: seq<Event>, p: Store -> bool)
    requires Always(s, a, p) && Always(Replay(s, a), b, p)
    ensures Always(s, a + b, p)
    decreases a
  {
    if a == [] {
      assert a + b == b;
    } else {
      assert (a + b)[1..] == a[1..] + b;
      AlwaysConcat(Apply(s, a[0]), a[1..], b, p);
    }
  }

  lemma {:induction false} AlwaysAt(s: Store, log: seq<Event>, p: Store -> bool, n: nat)
    requires Always(s, log, p) && n <= |log|
    ensures p(Replay(s, log[..n]))
    decreases n
  {
    if n > 0 {
      assert log[..n][1..] == log[1..][..n - 1];
      AlwaysAt(Apply(s, log[0]), log[1..], p, n - 1);
    }
  }

  // ---- discipline: kept by every execution, whatever the tasks do ---------------

  /** A row nothing overwrites: finished, or failed for good. */
  predicate Settled(row: Row) {
    || row.status == COMPLETED
    || (row.status == FAILED && row.blob.Some? && row.blob.value.IsTerminal())
  }

  ghost predicate Untouched(s: Store, log: seq<Event>) {
    forall ev | ev in log :: !(ev.key in s && Settled(s[ev.key]))
  }

  /** No unfinished row carries a terminal result, so none can be mistaken for one. */
  ghost predicate Sane(s: Store) {
    forall k | k in s ::
      && (s[k].status == PENDING ==> s[k].blob == None)
      && (s[k].status == RUNNING && s[k].blob.Some? ==> !s[k].blob.value.IsTerminal())
  }

  ghost function Sanity(): Store -> bool {
    s => Sane(s)
  }

  /** The write just before a body is entered, and the recovery that allowed it. */
  ghost predicate Allowed(s: Store, log: seq<Event>, i: nat)
    requires i < |log| && log[i].Entered?
  {
    i >= 1 &&
    var k, before := log[i].key, Replay(s, log[..i - 1]);
    if k !in before then log[i - 1] == Created(k)
    else
      && log[i - 1] == Updated(k, RUNNING, None)
      && before[k].status != COMPLETED
      && (before[k].status != PENDING ==> i >= 2 && log[i - 2] == Recovering(k, Retry))
  }

  ghost predicate Gated(s: Store, log: seq<Event>) {
    forall i | 0 <= i < |log| && log[i].Entered? :: Allowed(s, log, i)
  }

  ghost predicate Disciplined(s: Store, log: seq<Event>) {
    && Untouched(s, log)
    && Gated(s, log)
    && (Sane(s) ==> Always(s, log, Sanity()))
  }

  lemma {:induction false} UntouchedKeeps(s: Store, log: seq<Event>, k: Key)
    requires forall ev | ev in log :: ev.key != k
    ensures k in Replay(s, log) <==> k in s
    ensures k in s ==> Replay(s, log)[k] == s[k]
    decreases log
  {
    if log != [] {
      UntouchedKeeps(Apply(s, log[0]), log[1..], k);
    }
  }

  /** A settled row is the same row after the run. */
  lemma SettledRowStays(s: Store, log: seq<Event>, k: Key)
    requires Untouched(s, log) && k in s && Settled(s[k])
    ensures k in Replay(s, log) && Replay(s, log)[k] == s[k]
    ensures forall ev | ev in log :: ev.key != k
  {
    UntouchedKeeps(s, log, k);
  }

  lemma UntouchedConcat(s: Store, a: seq<Event>, b: seq<Event>)
    requires Untouched(s, a) && Untouched(Replay(s, a), b)
    ensures Untouched(s, a + b)
  {
    forall ev | ev in a + b ensures !(ev.key in s && Settled(s[ev.key])) {
      if ev.key in s && Settled(s[ev.key]) {
        SettledRowStays(s, a, ev.key);
      }
    }
  }

  lemma GatedConcat(s: Store, a: seq<Event>, b: seq<Event>)
    requires Gated(s, a) && Gated(Replay(s, a), b)
    ensures Gated(s, a + b)
  {
    forall i | 0 <= i < |a + b| && (a + b)[i].Entered? ensures Allowed(s, a + b, i) {
      if i < |a| {
        assert Allowed(s, a, i);
        assert (a + b)[..i - 1] == a[..i - 1];
      } else {
        var j := i - |a|;
        assert Allowed(Replay(s, a), b, j);
        assert (a + b)[..i - 1] == a + b[..j - 1];
        ReplayConcat(s, a, b[..j - 1]);
      }
    }
  }

  lemma DisciplinedConcat(s: Store, a: seq<Event>, b: seq<Event>)
    requires Disciplined(s, a) && Disciplined(Replay(s, a), b)
    ensures Disciplined(s, a + b)
  {
    UntouchedConcat(s, a, b);
    GatedConcat(s, a, b);
    if Sane(s) {
      AlwaysAt(s, a, Sanity(), |a|);
      assert a[..|a|] == a;
      AlwaysConcat(s, a, b, Sanity());
    }
  }

  /** The events of one attempt around the body's own. */
  lemma AttemptDisciplined(t: Task, s: Store, start: seq<Event>, inner: seq<Event>, r: Result)
    requires t.cacheable && PlanFor(t, s) == Start(start)
    requires Disciplined(Replay(s, start), inner)
    ensures Disciplined(s, start + inner + [Updated(t.key, Outcome(r), Some(r))])
  {
    var k := t.key;
    var s1 := Replay(s, start);
    var last := [Updated(k, Outcome(r), Some(r))];
    StartShape(t, s, start);
    assert forall ev | ev in start :: ev.key == k;
    // keys other than the task's own keep their settled rows
    forall ev | ev in start + inner + last ensures !(ev.key in s && Settled(s[ev.key])) {
      if ev.key != k {
        UntouchedKeeps(s, start, ev.key);
      }
    }
    assert Gated(s, start);
    GatedConcat(s, start, inner);
    assert Gated(Replay(s, start + inner), last);
    GatedConcat(s, start + inner, last);
    if Sane(s) {
      AlwaysAt(s, start, Sanity(), |start|);
      assert start[..|start|] == start;
      AlwaysConcat(s, start, inner, Sanity());
      var s2 := Replay(s, start + inner);
      AlwaysAt(s, start + inner, Sanity(), |start + inner|);
      assert (start + inner)[..|start + inner|] == start + inner;
      assert Sane(Apply(s2, last[0]));
      assert last[1..] == [];
      assert Always(Apply(s2, last[0]), [], Sanity());
      assert Always(s2, last, Sanity());
      AlwaysConcat(s, start + inner, last, Sanity());
    }
  }

  lemma Unroll(s: Store, a: Event, rest: seq<Event>)
    ensures Replay(s, [a] + rest) == Replay(Apply(s, a), rest)
    ensures forall p :: Always(s, [a] + rest, p) <==> p(s) && Always(Apply(s, a), rest, p)
  {
    assert ([a] + rest)[1..] == rest;
  }

  /** What the events before a body do: they concern its row alone, and leave it unfinished. */
  ghost predicate Shaped(k: Key, s: Store, start: seq<Event>) {
    && (forall ev | ev in start :: ev.key == k)
    && Gated(s, start)
    && k in Replay(s, start) && Replay(s, start)[k].status in {PENDING, RUNNING}
    && Replay(s, start) == s[k := Replay(s, start)[k]]
    && (Sane(s) ==> Always(s, start, Sanity()))
  }

  lemma CreatedShape(k: Key, s: Store)
    requires k !in s
    ensures Shaped(k, s, [Created(k), Entered(k)])
  {
    Unroll(s, Created(k), [Entered(k)]);
    Unroll(Apply(s, Created(k)), Entered(k), []);
    assert [Entered(k)] == [Entered(k)] + [] && [Created(k), Entered(k)] == [Created(k)] + [Entered(k)];
    assert [Created(k), Entered(k)][..0] == [];
  }

  lemma BegunShape(k: Key, s: Store)
    requires k in s && s[k].status == PENDING
    ensures Shaped(k, s, [Updated(k, RUNNING, None), Entered(k)])
  {
    var begin := [Updated(k, RUNNING, None), Entered(k)];
    Unroll(s, Updated(k, RUNNING, None), [Entered(k)]);
    Unroll(Apply(s, Updated(k, RUNNING, None)), Entered(k), []);
    assert [Entered(k)] == [Entered(k)] + [] && begin == [Updated(k, RUNNING, None)] + [Entered(k)];
    assert begin[..0] == [];
  }

  lemma RecoveredShape(k: Key, s: Store)
    requires k in s && !Settled(s[k]) && s[k].status in {FAILED, RUNNING}
    ensures Shaped(k, s, [Recovering(k, Retry), Updated(k, RUNNING, None), Entered(k)])
  {
    var begin := [Updated(k, RUNNING, None), Entered(k)];
    var start := [Recovering(k, Retry), Updated(k, RUNNING, None), Entered(k)];
    Unroll(s, Recovering(k, Retry), begin);
    Unroll(s, Updated(k, RUNNING, None), [Entered(k)]);
    Unroll(Apply(s, Updated(k, RUNNING, None)), Entered(k), []);
    Unroll(s, Recovering(k, Retry), []);
    assert [Entered(k)] == [Entered(k)] + [] && begin == [Updated(k, RUNNING, None)] + [Entered(k)];
    assert start == [Recovering(k, Retry)] + begin && start[..1] == [Recovering(k, Retry)] + [];
  }

  lemma StartShape(t: Task, s: Store, start: seq<Event>)
    requires t.cacheable && PlanFor(t, s) == Start(start)
    ensures Shaped(t.key, s, start) && (t.key in s ==> !Settled(s[t.key]))
  {
    hide Shaped;
    var k := t.key;
    if k !in s {
      CreatedShape(k, s);
    } else if s[k].status == PENDING {
      BegunShape(k, s);
    } else {
      assert start == [Recovering(k, Retry), Updated(k, RUNNING, None), Entered(k)];
      RecoveredShape(k, s);
    }
  }

  lemma GiveUpDisciplined(t: Task, s: Store, r: Result, reply: Recovery)
    requires t.cacheable && PlanFor(t, s) == GiveUp(r, reply)
    ensures Disciplined(s, [Recovering(t.key, reply), Updated(t.key, FAILED, Some(r))])
  {
    var log := [Recovering(t.key, reply), Updated(t.key, FAILED, Some(r))];
    if Sane(s) {
      assert log[1..][1..] == [];
      assert Sane(Apply(s, log[1]));
    }
  }

  lemma {:induction false} BodyDisciplined(b: Body, s: Store)
    ensures Disciplined(s, RunBody(b, s).log)
    decreases b
  {
    if b.Yield? {
      var a := RunFlow(b.flow, s);
      FlowDisciplined(b.flow, s);
      if a.out in b.resume {
        BodyDisciplined(b.resume[a.out], Replay(s, a.log));
        DisciplinedConcat(s, a.log, RunBody(b.resume[a.out], Replay(s, a.log)).log);
      }
    }
  }

  lemma {:induction false} TaskDisciplined(t: Task, s: Store)
    ensures Disciplined(s, RunTask(t, s).log)
    decreases t
  {
    if !t.cacheable {
      BodyDisciplined(t.body, s);
    } else {
      match PlanFor(t, s)
      case FromRow(r) =>
      case GiveUp(r, reply) => GiveUpDisciplined(t, s, r, reply);
      case Start(log) =>
        var b := RunBody(t.body, Replay(s, log));
        BodyDisciplined(t.body, Replay(s, log));
        AttemptDisciplined(t, s, log, b.log, ResultOf(b.out));
    }
  }

  lemma {:induction false} ItemDisciplined(it: Item, s: Store)
    ensures Disciplined(s, RunItem(it, s).log)
    decreases it
  {
    match it.work
    case Cached(t) => TaskDisciplined(t, s);
    case Uncached(t) => BodyDisciplined(t.body, s);
    case Coroutine(end) =>
  }

  lemma {:induction false} ItemsDisciplined(items: seq<Item>, s: Store)
    ensures Disciplined(s, RunItems(items, s).log)
    decreases items
  {
    if items != [] {
      var a := RunItem(items[0], s);
      ItemDisciplined(items[0], s);
      ItemsDisciplined(items[1..], Replay(s, a.log));
      DisciplinedConcat(s, a.log, RunItems(items[1..], Replay(s, a.log)).log);
    }
  }

  lemma {:induction false} FlowDisciplined(f: Flow, s: Store)
    ensures Disciplined(s, RunFlow(f, s).log)
    decreases f
  {
    match f
    case One(it) => ItemDisciplined(it, s);
    case Many(items) => ItemsDisciplined(items, s);
  }
}
