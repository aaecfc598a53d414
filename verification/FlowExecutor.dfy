/**
 * The executor itself: it changes the rows of a store, drives generators in a
 * loop, and does what the functions of FlowTasks say.
 */
module FlowExecution {
  import opened Prelude
  import opened FlowTasks
  import opened FlowProofs

  class TaskStore {
    var rows: map<Key, Row>
    ghost var log: seq<Event>

    constructor ()
      ensures rows == map[] && log == []
    {
      rows, log := map[], [];
    }

    /** Inserting a key that has a row fails, and changes nothing. */
    method Create(key: Key) returns (created: bool)
      modifies this
      ensures created <==> key !in old(rows)
      ensures if created then rows == Apply(old(rows), Created(key)) && log == old(log) + [Created(key)]
              else rows == old(rows) && log == old(log)
    {
      if key in rows {
        return false;
      }
      created := true;
      rows := rows[key := Row(PENDING, None)];
      log := log + [Created(key)];
    }

    method Update(key: Key, status: Status, result: Option<Result>)
      modifies this
      ensures rows == Apply(old(rows), Updated(key, status, result))
      ensures log == old(log) + [Updated(key, status, result)]
    {
      if key in rows {
        rows := rows[key := Row(status, if result.Some? then result else rows[key].blob)];
      }
      log := log + [Updated(key, status, result)];
    }

    /** Records an event that leaves the rows as they are. */
    ghost method Note(ev: Event)
      requires ev.Recovering? || ev.Entered?
      modifies this`log
      ensures log == old(log) + [ev]
    {
      log := log + [ev];
    }

    /** The store took exactly the events `done` since it held `rows0` and `log0`. */
    ghost predicate Took(rows0: Store, log0: seq<Event>, done: seq<Event>)
      reads this
    {
      rows == Replay(rows0, done) && log == log0 + done
    }
  }

  lemma TakeOne(s: Store, done: seq<Event>, ev: Event)
    ensures Replay(s, done + [ev]) == Apply(Replay(s, done), ev)
  {
    ReplayConcat(s, done, [ev]);
    Unroll(Replay(s, done), ev, []);
    assert [ev] == [ev] + [];
  }

  lemma TakeFirst(s: Store, ev: Event)
    ensures Replay(s, [ev]) == Apply(s, ev)
  {
    assert [ev] == [] + [ev];
    TakeOne(s, [], ev);
  }

  class FlowExecutor {
    const store: TaskStore

    constructor (store: TaskStore)
      ensures this.store == store
    {
      this.store := store;
    }

    method RunInternal(flow: Flow) returns (r: Response)
      modifies store
      ensures r == RunFlow(flow, old(store.rows)).out
      ensures store.Took(old(store.rows), old(store.log), RunFlow(flow, old(store.rows)).log)
      decreases flow
    {
      match flow
      case One(item) => r := RunOne(item);
      case Many(items) =>
        // gather, with the items run one after the other
        var results: seq<Response> := [];
        ghost var rows0, log0 := store.rows, store.log;
        ghost var done: seq<Event> := [];
        assert items[0..] == items && log0 + done == log0;
        for i := 0 to |items|
          invariant |results| == i && store.Took(rows0, log0, done)
          invariant RunItems(items, rows0).out == results + RunItems(items[i..], store.rows).out
          invariant RunItems(items, rows0).log == done + RunItems(items[i..], store.rows).log
        {
          ghost var a := RunItem(items[i], store.rows);
          var one := RunOne(items[i]);
          assert items[i..][1..] == items[i + 1..];
          ghost var rest := RunItems(items[i + 1..], store.rows);
          Assoc(results, [one], rest.out);
          Assoc(done, a.log, rest.log);
          Assoc(log0, done, a.log);
          ReplayConcat(rows0, done, a.log);
          results, done := results + [one], done + a.log;
        }
        assert items[|items|..] == [];
        assert results + [] == results && done + [] == done;
        r := Process(results);
    }

    /** The slots of a list in order, unless some error is not terminal. */
    method Process(results: seq<Response>) returns (r: Response)
      ensures r == Collect(results)
    {
      var processed: seq<Value> := [];
      var nonTerminal: Option<TaskError> := None;
      for i := 0 to |results|
        invariant |processed| == i
        invariant FirstBlock(results) == (if nonTerminal.Some? then nonTerminal else FirstBlock(results[i..]))
        invariant nonTerminal.None? ==> forall j | 0 <= j < i :: processed[j] == Slot(results[j])
      {
        assert results[i..][1..] == results[i + 1..];
        if results[i].Threw? && !results[i].e.IsTerminal() {
          if nonTerminal.None? {
            nonTerminal := Some(results[i].e);
          }
          processed := processed + [Nil];
        } else {
          processed := processed + [Slot(results[i])];
        }
      }
      r := if nonTerminal.Some? then Threw(nonTerminal.value) else Sent(Slots(processed));
      assert nonTerminal.None? ==>
          processed == seq(|results|, i requires 0 <= i < |results| => Slot(results[i]));
    }

    method RunOne(item: Item) returns (r: Response)
      modifies store
      ensures r == RunItem(item, old(store.rows)).out
      ensures store.Took(old(store.rows), old(store.log), RunItem(item, old(store.rows)).log)
      decreases item
    {
      match item.work
      case Cached(t) =>
        var result := ExecuteTask(t);
        r := RespondTask(item.wrapped, result);
      case Uncached(t) =>
        var end := Drive(t.body);
        r := RespondRaw(item.wrapped, false, end);
      case Coroutine(end) =>
        r := RespondRaw(item.wrapped, true, end);
        assert store.log + [] == store.log;
    }

    method ExecuteTask(t: Task) returns (r: Result)
      modifies store
      ensures r == RunTask(t, old(store.rows)).out
      ensures store.Took(old(store.rows), old(store.log), RunTask(t, old(store.rows)).log)
      decreases t, 1
    {
      if !t.cacheable {
        var end := Drive(t.body);
        return ResultOf(end);
      }
      ghost var rows0, log0 := store.rows, store.log;
      var answer, start := Prepare(t);
      if answer.Some? {
        return answer.value;
      }
      r := Attempt(t);
      ghost var b := RunBody(t.body, Replay(rows0, start));
      ghost var last := [Updated(t.key, Outcome(r), Some(r))];
      ReplayConcat(rows0, start, b.log + last);
      Assoc(log0, start, b.log + last);
      Assoc(start, b.log, last);
    }

    /** Reads the row: answers from it, gives up, or starts an attempt. */
    method Prepare(t: Task) returns (answer: Option<Result>, ghost start: seq<Event>)
      requires t.cacheable
      modifies store
      ensures answer.Some? ==> answer.value == RunTask(t, old(store.rows)).out
      ensures answer.Some? ==> store.Took(old(store.rows), old(store.log), RunTask(t, old(store.rows)).log)
      ensures answer.None? ==> PlanFor(t, old(store.rows)) == Start(start)
      ensures answer.None? ==> store.Took(old(store.rows), old(store.log), start)
    {
      ghost var rows0, log0 := store.rows, store.log;
      var key := t.key;
      assert log0 + [] == log0;
      answer, start := None, [];
      ghost var begin;
      if key !in store.rows {
        begin := Created(key);
        var created := store.Create(key);
      } else {
        var row := store.rows[key];
        if row.status == COMPLETED {
          if row.blob.None? {
            return Some(Result(Nil, Some(CORRUPT), false)), [];
          }
          match t.restore(row.blob.value.value)
          case RestoredTo(v) => return Some(row.blob.value.(value := v)), [];
          case RestoreFails(x) => return Some(Result(Nil, Some(RESTORE_FAILED + x.Msg()), x.IsTerminal())), [];
        }
        if row.status in {FAILED, RUNNING} {
          if row.status == FAILED && row.blob.Some? && row.blob.value.IsTerminal() {
            return row.blob, [];
          }
          var refusal := Recover(t, row);
          if refusal.Some? {
            return refusal, [];
          }
          start := [Recovering(key, Retry)];
        }
        begin := Updated(key, RUNNING, None);
        store.Update(key, RUNNING, None);
      }
      store.Note(Entered(key));
      TakeOne(rows0, start, begin);
      TakeOne(rows0, start + [begin], Entered(key));
      Assoc(log0, start, [begin]);
      Assoc(log0, start + [begin], [Entered(key)]);
      start := start + [begin] + [Entered(key)];
      assert PlanFor(t, rows0) == Start(start);
    }

    /** Asks the task whether to retry; a refusal or a failure is written and answered. */
    method Recover(t: Task, row: Row) returns (refusal: Option<Result>)
      requires t.cacheable && t.key in store.rows && row == store.rows[t.key]
      requires row.status in {FAILED, RUNNING} && !Settled(row)
      modifies store
      ensures refusal.None? <==> t.recovery == Retry
      ensures refusal.None? ==> store.Took(old(store.rows), old(store.log), [Recovering(t.key, Retry)])
      ensures refusal.Some? ==> refusal.value == RunTask(t, old(store.rows)).out
      ensures refusal.Some? ==> store.Took(old(store.rows), old(store.log), RunTask(t, old(store.rows)).log)
    {
      ghost var rows0, log0 := store.rows, store.log;
      store.Note(Recovering(t.key, t.recovery));
      TakeFirst(rows0, Recovering(t.key, t.recovery));
      if t.recovery == Retry {
        return None;
      }
      var r := if t.recovery.RecoverFails?
      then Result(Nil, Some(RECOVERY_FAILED + t.recovery.x.Msg()), t.recovery.x.IsTerminal())
      else if row.blob.Some? then row.blob.value else Result(Nil, Some(REFUSED), false);
      store.Update(t.key, FAILED, Some(r));
      TakeOne(rows0, [Recovering(t.key, t.recovery)], Updated(t.key, FAILED, Some(r)));
      Assoc(log0, [Recovering(t.key, t.recovery)], [Updated(t.key, FAILED, Some(r))]);
      return Some(r);
    }

    /** Runs the body and records how it ended. */
    method Attempt(t: Task) returns (r: Result)
      modifies store
      ensures r == ResultOf(RunBody(t.body, old(store.rows)).out)
      ensures store.Took(old(store.rows), old(store.log),
                         RunBody(t.body, old(store.rows)).log + [Updated(t.key, Outcome(r), Some(r))])
      decreases t, 0
    {
      ghost var rows0, log0 := store.rows, store.log;
      var end := Drive(t.body);
      r := ResultOf(end);
      if end.Returned? {
        store.Update(t.key, COMPLETED, Some(r));
      } else {
        store.Update(t.key, FAILED, Some(r));
      }
      ghost var log := RunBody(t.body, rows0).log;
      TakeOne(rows0, log, Updated(t.key, Outcome(r), Some(r)));
      Assoc(log0, log, [Updated(t.key, Outcome(r), Some(r))]);
    }

    /** Steps the generator, giving each yielded flow's value or error back to it. */
    method Drive(body: Body) returns (end: End)
      modifies store
      ensures end == RunBody(body, old(store.rows)).out
      ensures store.Took(old(store.rows), old(store.log), RunBody(body, old(store.rows)).log)
      decreases body
    {
      ghost var rows0, log0 := store.rows, store.log;
      ghost var done: seq<Event> := [];
      var b := body;
      assert log0 + done == log0;
      while b.Yield?
        invariant b == body || (body decreases to b)
        invariant store.Took(rows0, log0, done)
        invariant RunBody(body, rows0).out == RunBody(b, store.rows).out
        invariant RunBody(body, rows0).log == done + RunBody(b, store.rows).log
        decreases b
      {
        ghost var a := RunFlow(b.flow, store.rows);
        var r := RunInternal(b.flow);
        ReplayConcat(rows0, done, a.log);
        Assoc(log0, done, a.log);
        if r !in b.resume {
          return Unhandled(r);
        }
        b := b.resume[r];
        Assoc(done, a.log, RunBody(b, store.rows).log);
        done := done + a.log;
      }
      assert done + [] == done;
      end := if b.Return? then Returned(b.v) else Failed(b.x);
    }
  }
}
