/**
 * The reload supervisor as interleaved steps: the main loop of `supervise`, and
 * signals that may arrive between any two of its steps.
 */
module Supervisor {
  import opened Prelude

  const SIGHUP := 1
  const SIGINT := 2
  const SIGKILL := 9
  const SIGTERM := 15
  const SIGCONT := 18

  predicate Terminating(sig: nat) {
    sig == SIGHUP || sig == SIGINT || sig == SIGTERM
  }

  // ---- the relay ---------------------------------------------------------------------

  /** What was sent to the process group of which generation. */
  datatype Sent = Sent(generation: nat, sig: nat)

  datatype Relay = Relay(child: Option<nat>, latched: nat, killDue: bool, sent: seq<Sent>)

  function Forward(r: Relay, sig: nat): Relay {
    if r.child.Some? then r.(sent := r.sent + [Sent(r.child.value, sig)]) else r
  }

  function Handle(r: Relay, sig: nat): Relay {
    Forward(if Terminating(sig) && r.latched == 0 then r.(latched := sig, killDue := true) else r, sig)
  }

  function Attach(r: Relay, child: nat): Relay {
    var a := r.(child := Some(child));
    if a.latched != 0 then Forward(a, a.latched) else a
  }

  function Escalate(r: Relay): Relay {
    if r.child.Some? && r.killDue then Forward(Forward(r, SIGCONT), SIGKILL).(killDue := false) else r
  }

  /** The relay as the source has it: fields latched by handlers. */
  class SignalRelay {
    var childPid: Option<nat>
    var terminationSignal: nat
    var killDeadline: bool
    ghost var sent: seq<Sent>

    ghost function Model(): Relay
      reads this
    {
      Relay(childPid, terminationSignal, killDeadline, sent)
    }

    constructor ()
      ensures Model() == Relay(None, 0, false, [])
    {
      childPid, terminationSignal, killDeadline, sent := None, 0, false, [];
    }

    method HandleSignal(signum: nat)
      modifies this
      ensures Model() == Handle(old(Model()), signum)
    {
      if Terminating(signum) && terminationSignal == 0 {
        terminationSignal, killDeadline := signum, true;
      }
      if childPid.Some? {
        sent := sent + [Sent(childPid.value, signum)];
      }
    }

    method AttachChild(pid: nat)
      modifies this
      ensures Model() == Attach(old(Model()), pid)
    {
      childPid := Some(pid);
      if terminationSignal != 0 {
        sent := sent + [Sent(pid, terminationSignal)];
      }
    }

    method DetachChild()
      modifies this
      ensures Model() == old(Model()).(child := None)
    {
      childPid := None;
    }

    method EscalateIfDue(due: bool)
      modifies this
      ensures Model() == if due then Escalate(old(Model())) else old(Model())
    {
      if childPid.Some? && killDeadline && due {
        sent := sent + [Sent(childPid.value, SIGCONT)] + [Sent(childPid.value, SIGKILL)];
        killDeadline := false;
      }
    }
  }

  // ---- the machine ---------------------------------------------------------------------

  /** Where `supervise` stands; the last five are `finalize_decision`. */
  datatype Pc =
    | Install | Check | Spawn | Publish | Await | Reap | Detach | Decide | Clean | CleanDetach
    | Block | Unblock | BlockAgain | Finalize | Restore | Done

  /**
   * `child` is the leader the loop has not reaped; `failing` that an exception is on
   * its way.  `exits`, the exit statuses seen, and `saved`, whether a thread was saved
   * for the last reload asked for, are history only.
   */
  datatype Proc = Proc(child: Option<nat>, spawned: nat, reaped: nat, reloads: nat, status: int,
                       result: Option<int>, failing: bool,
                       exits: seq<int>, saved: bool)

  /**
   * `arrived`, `relayGot` and `callerGot` are the terminating signals sent to the
   * wrapper, and those run by the relay and by the handlers it replaced;
   * `blocked` holds those waiting for the mask.
   */
  datatype Sigs = Sigs(installed: bool, masked: bool, blocked: multiset<nat>, decision: nat,
                       arrived: multiset<nat>, relayGot: multiset<nat>, callerGot: multiset<nat>)

  /** `spawnedAtLatch` is history only. */
  datatype State = State(pc: Pc, relay: Relay, proc: Proc, sigs: Sigs, spawnedAtLatch: nat)

  datatype Config = Config(reloadCode: int, maxReloads: int)

  /** What the operating system answers to a step. */
  datatype Reply = Fine | Fails | Exited(status: int) | Polled(due: bool) | SavedThread(saved: bool)

  datatype Event = Signal(sig: nat) | Deliver(sig: nat) | Main(reply: Reply)

  const START := State(Install, Relay(None, 0, false, []), Proc(None, 0, 0, 0, 0, None, false, [], false),
                       Sigs(false, false, multiset{}, 0, multiset{}, multiset{}, multiset{}), 0)

  /** A signal runs the handler that is installed. */
  function RunHandler(s: State, sig: nat): State {
    var g := s.sigs;
    if g.installed then
      s.(relay := Handle(s.relay, sig),
         sigs := if Terminating(sig) then g.(relayGot := g.relayGot + multiset{sig}) else g,
         spawnedAtLatch := if s.relay.latched == 0 then s.proc.spawned else s.spawnedAtLatch)
    else
      s.(sigs := if Terminating(sig) then g.(callerGot := g.callerGot + multiset{sig}) else g)
  }

  function OnSignal(s: State, sig: nat): State {
    if !Terminating(sig) then RunHandler(s, sig)
    else
      var g := s.sigs.(arrived := s.sigs.arrived + multiset{sig});
      if g.masked then s.(sigs := g.(blocked := g.blocked + multiset{sig})) else RunHandler(s.(sigs := g), sig)
  }

  function Fail(s: State): State {
    s.(proc := s.proc.(failing := true), pc := Clean)
  }

  function End(s: State, result: int): State {
    s.(proc := s.proc.(result := Some(result)), pc := Clean)
  }

  function Reaped(p: Proc): Proc {
    p.(reaped := p.reaped + 1, child := None)
  }

  /** One step of the supervision itself. */
  function Supervise(s: State, c: Config, reply: Reply): State {
    var p := s.proc;
    match s.pc
    case Check => if s.relay.latched != 0 then End(s, 128 + s.relay.latched) else s.(pc := Spawn)
    case Spawn =>
      if reply.Fails? then Fail(s)
      else s.(proc := p.(child := Some(p.spawned), spawned := p.spawned + 1), pc := Publish)
    case Publish => if p.child.Some? then s.(relay := Attach(s.relay, p.child.value), pc := Await) else s
    case Await =>
      (match reply
       case Exited(status) => s.(proc := p.(status := status, exits := p.exits + [status]), pc := Reap)
       case Polled(due) => if due then s.(relay := Escalate(s.relay)) else s
       case Fails => Fail(s)
       case _ => s)
    case Reap => if reply.Fails? then Fail(s) else s.(proc := Reaped(p), pc := Detach)
    case Detach => s.(relay := s.relay.(child := None), pc := Decide)
    case Decide =>
      if s.relay.latched != 0 then End(s, 128 + s.relay.latched)
      else if p.status != c.reloadCode then End(s, p.status)
      else
        var q := p.(saved := reply != SavedThread(false));
        if !q.saved || q.reloads >= c.maxReloads then End(s.(proc := q), c.reloadCode)
        else s.(proc := q.(reloads := q.reloads + 1), pc := Check)
    case Clean =>
      if p.child.None? then s.(pc := CleanDetach)
      else s.(proc := if reply.Fails? then p.(failing := true) else Reaped(p), pc := CleanDetach)
    case CleanDetach =>
      s.(relay := s.relay.(child := None), proc := p.(failing := p.failing || reply.Fails?), pc := Block)
    case _ => s
  }

  /** Installing the handlers, and `finalize_decision`. */
  function Mask(s: State, reply: Reply): State {
    var g := s.sigs;
    match s.pc
    case Install => (if reply.Fails? then Fail(s) else s.(pc := Check)).(sigs := g.(installed := true))
    case Block => s.(sigs := g.(masked := true), pc := Unblock)
    case Unblock => s.(sigs := g.(masked := false), pc := BlockAgain)
    case BlockAgain => if g.blocked != multiset{} then s else s.(sigs := g.(masked := true), pc := Finalize)
    case Finalize => s.(sigs := g.(decision := s.relay.latched, installed := false), pc := Restore)
    case Restore => s.(sigs := g.(masked := false), pc := Done)
    case _ => s
  }

  predicate MaskStep(pc: Pc) {
    pc.Install? || pc.Block? || pc.Unblock? || pc.BlockAgain? || pc.Finalize? || pc.Restore? || pc.Done?
  }

  function Advance(s: State, c: Config, reply: Reply): State {
    if MaskStep(s.pc) then Mask(s, reply) else Supervise(s, c, reply)
  }

  function Taken(s: State, sig: nat): State {
    s.(sigs := s.sigs.(blocked := s.sigs.blocked - multiset{sig}))
  }

  /** A blocked signal is delivered once the mask is lifted. */
  function Next(s: State, c: Config, ev: Event): State {
    match ev
    case Signal(sig) => OnSignal(s, sig)
    case Deliver(sig) =>
      if s.sigs.masked || sig !in s.sigs.blocked then s else RunHandler(Taken(s, sig), sig)
    case Main(reply) => Advance(s, c, reply)
  }

  function RunAll(c: Config, evs: seq<Event>): State {
    if evs == [] then START else Next(RunAll(c, evs[..|evs| - 1]), c, evs[|evs| - 1])
  }

  /** How a finished supervision ends: with an exit status, or by raising. */
  function ExitStatus(s: State): Option<int> {
    if s.proc.failing then None
    else if s.sigs.decision != 0 then Some(128 + s.sigs.decision)
    else s.proc.result
  }

  // ---- what every step keeps ---------------------------------------------------------------

  predicate Early(pc: Pc) {
    pc.Install? || pc.Check? || pc.Spawn?
  }

  predicate Working(pc: Pc) {
    pc.Publish? || pc.Await? || pc.Reap? || pc.Detach? || pc.Decide?
  }

  predicate Closing(pc: Pc) {
    !Early(pc) && !Working(pc)
  }

  ghost predicate Processes(pc: Pc, p: Proc, c: Config) {
    && p.reloads <= Max(0, c.maxReloads)
    && p.reaped <= p.spawned <= p.reaped + 1
    && (p.child.Some? ==> p.child.value == p.reaped == p.spawned - 1)
    && (p.child.None? ==> p.reaped == p.spawned)
    && (Early(pc) ==> p.child.None? && p.spawned == p.reloads)
    && (!Early(pc) ==> p.spawned <= p.reloads + 1)
    && (pc.Publish? || pc.Await? || pc.Reap? ==> p.child.Some?)
    && (pc.Detach? || pc.Decide? ==> p.child.None?)
    && (Working(pc) ==> p.spawned == p.reloads + 1)
    && (!Closing(pc) ==> !p.failing)
    && (Closing(pc) && !p.failing ==> p.result.Some?)
  }

  /** The generation attached has been sent the latched signal. */
  ghost predicate Reached(s: State) {
    && (s.relay.child.Some? ==>
          && (s.pc.Await? || s.pc.Reap? || s.pc.Detach? || s.pc.Clean? || s.pc.CleanDetach?)
          && s.relay.child.value + 1 == s.proc.spawned
          && (s.relay.latched != 0 ==> Sent(s.relay.child.value, s.relay.latched) in s.relay.sent))
    && (s.pc.Await? || s.pc.Reap? ==> s.relay.child.Some?)
    && (s.pc.Install? ==> s.relay.latched == 0)
  }

  /** At most one generation is started after a signal is latched. */
  ghost predicate StopsSoon(s: State) {
    s.relay.latched != 0 ==>
      && s.spawnedAtLatch <= s.proc.spawned <= s.spawnedAtLatch + 1
      && (s.pc.Check? || s.pc.Spawn? ==> s.proc.spawned == s.spawnedAtLatch)
  }

  ghost predicate AllTerminating(got: multiset<nat>) {
    forall x | x in got :: Terminating(x)
  }

  /** Every signal that arrived was run or waits; the latch is set by one that was run. */
  ghost predicate Handled(g: Sigs, latched: nat) {
    && g.arrived == g.relayGot + g.callerGot + g.blocked
    && AllTerminating(g.relayGot) && AllTerminating(g.blocked)
    && (latched != 0 ==> latched in g.relayGot)
    && (latched == 0 ==> g.relayGot == multiset{})
  }

  ghost predicate Masked(s: State) {
    && (s.sigs.masked <==> s.pc.Unblock? || s.pc.Finalize? || s.pc.Restore?)
    && (s.sigs.installed <==> !s.pc.Install? && !s.pc.Restore? && !s.pc.Done?)
    && (s.sigs.blocked != multiset{} ==> MaskStep(s.pc) && !s.pc.Install? && !s.pc.Block?)
    && (s.pc.Restore? || s.pc.Done? ==> s.sigs.decision == s.relay.latched)
  }

  ghost predicate Kept(s: State, c: Config) {
    Processes(s.pc, s.proc, c) && Reached(s) && StopsSoon(s) && Handled(s.sigs, s.relay.latched) && Masked(s)
  }

  lemma HandlerPlaces(s: State, c: Config, sig: nat)
    requires Reached(s) && StopsSoon(s) && Masked(s)
    ensures var t := RunHandler(s, sig);
            t.pc == s.pc && t.proc == s.proc && Reached(t) && StopsSoon(t) && Masked(t)
  {
  }

  /** As Handled, with one signal in hand. */
  ghost predicate InHand(g: Sigs, latched: nat, sig: nat) {
    Handled(g.(arrived := g.relayGot + g.callerGot + g.blocked), latched)
    && g.arrived == g.relayGot + g.callerGot + g.blocked + if Terminating(sig) then multiset{sig} else multiset{}
  }

  lemma RelayCounts(g: Sigs, latched: nat, sig: nat)
    requires InHand(g, latched, sig) && Terminating(sig)
    ensures Handled(g.(relayGot := g.relayGot + multiset{sig}), if latched == 0 then sig else latched)
  {
  }

  lemma CallerCounts(g: Sigs, latched: nat, sig: nat)
    requires InHand(g, latched, sig)
    ensures Handled(if Terminating(sig) then g.(callerGot := g.callerGot + multiset{sig}) else g, latched)
  {
  }

  lemma HandlerCounts(s: State, sig: nat)
    requires InHand(s.sigs, s.relay.latched, sig)
    ensures Handled(RunHandler(s, sig).sigs, RunHandler(s, sig).relay.latched)
  {
    hide Handled, InHand;
    CallerCounts(s.sigs, s.relay.latched, sig);
    if Terminating(sig) {
      RelayCounts(s.sigs, s.relay.latched, sig);
    }
  }

  /** Running a handler for a signal that no longer waits. */
  lemma HandlerKeeps(s: State, c: Config, sig: nat)
    requires Processes(s.pc, s.proc, c) && Reached(s) && StopsSoon(s) && Masked(s)
    requires InHand(s.sigs, s.relay.latched, sig)
    ensures Kept(RunHandler(s, sig), c)
  {
    hide Processes, Reached, StopsSoon, Masked, Handled, InHand, RunHandler;
    HandlerPlaces(s, c, sig);
    HandlerCounts(s, sig);
  }

  lemma SameButWaiting(s: State, t: State)
    requires t == s.(sigs := s.sigs.(arrived := t.sigs.arrived, blocked := t.sigs.blocked))
    ensures Reached(s) ==> Reached(t)
    ensures StopsSoon(s) ==> StopsSoon(t)
    ensures Masked(s) && (t.sigs.blocked <= s.sigs.blocked || s.sigs.masked) ==> Masked(t)
  {
  }

  lemma SignalKeeps(s: State, c: Config, sig: nat)
    requires Kept(s, c)
    ensures Kept(OnSignal(s, sig), c)
  {
    hide Processes, Reached, StopsSoon, Masked, RunHandler;
    var a := s.(sigs := s.sigs.(arrived := s.sigs.arrived + multiset{sig}));
    SameButWaiting(s, a);
    SameButWaiting(s, a.(sigs := a.sigs.(blocked := a.sigs.blocked + multiset{sig})));
    if !Terminating(sig) {
      HandlerKeeps(s, c, sig);
    } else if !s.sigs.masked {
      HandlerKeeps(a, c, sig);
    }
  }

  lemma OneTaken(g: Sigs, latched: nat, sig: nat)
    requires Handled(g, latched) && sig in g.blocked
    ensures InHand(g.(blocked := g.blocked - multiset{sig}), latched, sig)
  {
  }

  lemma DeliverKeeps(s: State, c: Config, sig: nat)
    requires Kept(s, c) && !s.sigs.masked && sig in s.sigs.blocked
    ensures Kept(Next(s, c, Deliver(sig)), c)
  {
    hide Processes, Reached, StopsSoon, Masked, RunHandler;
    SameButWaiting(s, Taken(s, sig));
    OneTaken(s.sigs, s.relay.latched, sig);
    hide Handled, InHand;
    HandlerKeeps(Taken(s, sig), c, sig);
  }

  lemma MaskKeeps(s: State, c: Config, reply: Reply)
    requires Kept(s, c) && MaskStep(s.pc)
    ensures Kept(Mask(s, reply), c)
  {
  }

  lemma SuperviseKeepsSignals(s: State, c: Config, reply: Reply)
    requires Masked(s) && !MaskStep(s.pc)
    ensures var t := Supervise(s, c, reply);
            t.sigs == s.sigs && t.relay.latched == s.relay.latched && Masked(t)
  {
  }

  lemma SuperviseKeepsProcesses(s: State, c: Config, reply: Reply)
    requires Processes(s.pc, s.proc, c) && !MaskStep(s.pc)
    ensures var t := Supervise(s, c, reply); Processes(t.pc, t.proc, c)
  {
  }

  lemma SuperviseReaches(s: State, c: Config, reply: Reply)
    requires Processes(s.pc, s.proc, c) && Reached(s) && StopsSoon(s) && !MaskStep(s.pc)
    ensures Reached(Supervise(s, c, reply)) && StopsSoon(Supervise(s, c, reply))
  {
  }

  lemma NextKeeps(s: State, c: Config, ev: Event)
    requires Kept(s, c)
    ensures Kept(Next(s, c, ev), c)
  {
    hide Processes, Reached, StopsSoon, Masked, Handled, Supervise, Mask, RunHandler;
    match ev
    case Signal(sig) => SignalKeeps(s, c, sig);
    case Deliver(sig) => if !s.sigs.masked && sig in s.sigs.blocked { DeliverKeeps(s, c, sig); }
    case Main(reply) =>
      if MaskStep(s.pc) {
        MaskKeeps(s, c, reply);
      } else {
        SuperviseKeepsSignals(s, c, reply);
        SuperviseKeepsProcesses(s, c, reply);
        SuperviseReaches(s, c, reply);
      }
  }

  lemma {:induction false} RunsKeep(c: Config, evs: seq<Event>)
    ensures Kept(RunAll(c, evs), c)
    decreases evs
  {
    if evs != [] {
      RunsKeep(c, evs[..|evs| - 1]);
      NextKeeps(RunAll(c, evs[..|evs| - 1]), c, evs[|evs| - 1]);
    }
  }

  // ---- whole runs --------------------------------------------------------------------------

  /**
   * In every run at most one generation more than the reload limit is spawned,
   * none while an earlier leader is unreaped, and at most one after a signal is
   * latched.
   */
  lemma GenerationsAreBounded(c: Config, evs: seq<Event>)
    ensures var s := RunAll(c, evs);
            && s.proc.spawned <= Max(0, c.maxReloads) + 1
            && (s.pc.Spawn? ==> s.proc.reaped == s.proc.spawned && s.proc.child.None?)
            && (s.relay.latched != 0 ==> s.proc.spawned <= s.spawnedAtLatch + 1)
  {
    RunsKeep(c, evs);
  }

  /** In every run, the attached generation has been sent the signal latched. */
  lemma LatchedSignalReachesTheChild(c: Config, evs: seq<Event>)
    ensures var s := RunAll(c, evs);
            s.relay.child.Some? && s.relay.latched != 0 ==>
              Sent(s.relay.child.value, s.relay.latched) in s.relay.sent
  {
    RunsKeep(c, evs);
  }

  lemma LatchKept(s: State, c: Config, ev: Event)
    requires s.relay.latched != 0
    ensures Next(s, c, ev).relay.latched == s.relay.latched
  {
  }

  /** The first signal latched is never replaced, whatever happens afterwards. */
  lemma {:induction false} LatchIsFinal(c: Config, evs: seq<Event>, more: seq<Event>)
    requires RunAll(c, evs).relay.latched != 0
    ensures RunAll(c, evs + more).relay.latched == RunAll(c, evs).relay.latched
    decreases more
  {
    hide Next;
    if more == [] {
      assert evs + more == evs;
    } else {
      var n := |more| - 1;
      assert (evs + more)[..|evs + more| - 1] == evs + more[..n];
      LatchIsFinal(c, evs, more[..n]);
      LatchKept(RunAll(c, evs + more[..n]), c, more[n]);
    }
  }

  lemma SpawnNeedsCheck(s: State, c: Config, ev: Event)
    requires s.relay.latched != 0 && !s.pc.Spawn?
    ensures var t := Next(s, c, ev); t.proc.spawned == s.proc.spawned && t.relay.latched != 0 && !t.pc.Spawn?
  {
  }

  /** Once a signal is latched nothing is spawned any more, but for a spawn already decided on. */
  lemma {:induction false} LatchStopsSpawning(c: Config, evs: seq<Event>, more: seq<Event>)
    requires RunAll(c, evs).relay.latched != 0 && !RunAll(c, evs).pc.Spawn?
    ensures var s, t := RunAll(c, evs), RunAll(c, evs + more);
            t.proc.spawned == s.proc.spawned && t.relay.latched != 0 && !t.pc.Spawn?
    decreases more
  {
    if more == [] {
      assert evs + more == evs;
    } else {
      var n := |more| - 1;
      assert evs + more == (evs + more[..n]) + [more[n]];
      LatchStopsSpawning(c, evs, more[..n]);
      RunSnoc(c, evs + more[..n], more[n]);
      hide Next, RunAll;
      SpawnNeedsCheck(RunAll(c, evs + more[..n]), c, more[n]);
    }
  }

  /**
   * When supervision is over and the mask lifted, each terminating signal that
   * arrived was run by the relay or by the caller's restored handler; a normal
   * return is 128 plus the latched one if the relay ran any, and otherwise the
   * status that ended the loop.
   */
  lemma NoSignalIsLost(c: Config, evs: seq<Event>)
    ensures var s := RunAll(c, evs);
            s.pc.Done? && s.sigs.blocked == multiset{} ==>
              && s.sigs.arrived == s.sigs.relayGot + s.sigs.callerGot
              && (s.sigs.relayGot != multiset{} ==> s.relay.latched in s.sigs.relayGot)
              && (!s.proc.failing ==> ExitStatus(s).Some?)
              && (!s.proc.failing ==>
                    ExitStatus(s) == if s.sigs.relayGot != multiset{} then Some(128 + s.relay.latched)
                                     else s.proc.result)
  {
    RunsKeep(c, evs);
  }

  // ---- reloading -------------------------------------------------------------------------------

  /** Every generation but the last `n` ended with the reload code. */
  predicate Reloaded(exits: seq<int>, n: nat, c: Config) {
    forall i | 0 <= i < |exits| - n :: exits[i] == c.reloadCode
  }

  /** What the generations so far came to. */
  ghost predicate Generations(s: State, c: Config) {
    var p := s.proc;
    && (Early(s.pc) ==> |p.exits| == p.spawned && Reloaded(p.exits, 0, c))
    && (s.pc.Publish? || s.pc.Await? ==> |p.exits| == p.spawned - 1 && Reloaded(p.exits, 0, c))
    && (s.pc.Reap? || s.pc.Detach? || s.pc.Decide? ==>
          |p.exits| == p.spawned > 0 && p.exits[|p.exits| - 1] == p.status && Reloaded(p.exits, 1, c))
    && (Closing(s.pc) && !p.failing && s.relay.latched == 0 ==> EndedWell(p, c))
    && (Closing(s.pc) && !s.pc.Clean? && !p.failing ==> p.child.None?)
  }

  /** The result is the last exit status, and a reload asked for last could not be made. */
  predicate EndedWell(p: Proc, c: Config) {
    && |p.exits| == p.spawned > 0 && Reloaded(p.exits, 1, c)
    && p.result == Some(p.exits[|p.exits| - 1])
    && (p.result == Some(c.reloadCode) ==> !p.saved || p.spawned - 1 >= Max(0, c.maxReloads))
  }

  lemma SignalsLeaveGenerations(s: State, c: Config, ev: Event)
    requires Generations(s, c) && !ev.Main?
    ensures Generations(Next(s, c, ev), c)
  {
    var t := Next(s, c, ev);
    assert t.pc == s.pc && t.proc == s.proc && (t.relay.latched == 0 ==> s.relay.latched == 0);
    hide Next, OnSignal, RunHandler, EndedWell, Reloaded;
  }

  lemma MaskLeavesGenerations(s: State, c: Config, reply: Reply)
    requires Generations(s, c) && Kept(s, c) && MaskStep(s.pc)
    ensures Generations(Mask(s, reply), c)
  {
    hide EndedWell, Reached, Handled, Masked, StopsSoon;
  }

  lemma DecideGenerations(s: State, c: Config, reply: Reply)
    requires Generations(s, c) && Processes(s.pc, s.proc, c) && s.pc.Decide?
    ensures Generations(Supervise(s, c, reply), c)
  {
  }

  lemma SuperviseGenerations(s: State, c: Config, reply: Reply)
    requires Generations(s, c) && Processes(s.pc, s.proc, c) && !MaskStep(s.pc)
    ensures Generations(Supervise(s, c, reply), c)
  {
    if s.pc.Decide? {
      DecideGenerations(s, c, reply);
    } else {
      hide EndedWell;
    }
  }

  lemma {:induction false} RunsGenerate(c: Config, evs: seq<Event>)
    ensures Generations(RunAll(c, evs), c)
    decreases evs
  {
    if evs != [] {
      var n := |evs| - 1;
      var s := RunAll(c, evs[..n]);
      RunsGenerate(c, evs[..n]);
      RunsKeep(c, evs[..n]);
      hide Generations, Supervise, Mask, RunAll;
      if !evs[n].Main? {
        SignalsLeaveGenerations(s, c, evs[n]);
      } else if MaskStep(s.pc) {
        MaskLeavesGenerations(s, c, evs[n].reply);
      } else {
        SuperviseGenerations(s, c, evs[n].reply);
      }
      assert RunAll(c, evs) == Next(s, c, evs[n]) by { RunStep(c, evs); }
    }
  }

  lemma RunStep(c: Config, evs: seq<Event>)
    requires evs != []
    ensures RunAll(c, evs) == Next(RunAll(c, evs[..|evs| - 1]), c, evs[|evs| - 1])
  {
  }

  /**
   * A supervision that ends normally, with no signal latched, returns the exit
   * status of its last generation; every earlier one ended with the reload code; and
   * if the last did too, no thread was saved for it or the limit was used up.
   */
  lemma EndsWithTheLastGeneration(c: Config, evs: seq<Event>)
    ensures var s := RunAll(c, evs);
            var p := s.proc;
            s.pc.Done? && !p.failing && s.relay.latched == 0 ==>
              && |p.exits| == p.spawned > 0
              && ExitStatus(s) == Some(p.exits[p.spawned - 1])
              && (forall i | 0 <= i < p.spawned - 1 :: p.exits[i] == c.reloadCode)
              && (p.exits[p.spawned - 1] == c.reloadCode ==> !p.saved || p.spawned - 1 >= Max(0, c.maxReloads))
  {
    RunsKeep(c, evs);
    RunsGenerate(c, evs);
  }

  /** A supervision that ends normally has reaped every generation it spawned. */
  lemma NothingIsLeftBehind(c: Config, evs: seq<Event>)
    ensures var s := RunAll(c, evs); s.pc.Done? && !s.proc.failing ==> s.proc.reaped == s.proc.spawned
  {
    RunsKeep(c, evs);
    RunsGenerate(c, evs);
  }

  /**
   * And it does reload: after an exit with the reload code and a saved thread, below
   * the limit and with no signal latched, the next generation is two steps away.
   */
  lemma ReloadStartsTheNext(c: Config, s: State)
    requires Kept(s, c) && s.pc.Decide? && s.relay.latched == 0
    requires s.proc.status == c.reloadCode && s.proc.reloads < c.maxReloads
    ensures var t := Next(Next(Next(s, c, Main(SavedThread(true))), c, Main(Fine)), c, Main(Fine));
            t.pc.Publish? && t.proc.spawned == s.proc.spawned + 1 && t.proc.child == Some(s.proc.spawned)
  {
  }

  lemma RunSnoc(c: Config, evs: seq<Event>, ev: Event)
    ensures RunAll(c, evs + [ev]) == Next(RunAll(c, evs), c, ev)
  {
    assert (evs + [ev])[..|evs|] == evs;
  }

  /** Before generation `n`, each earlier one having asked for a reload. */
  predicate AtCheck(s: State, n: nat) {
    s.pc.Check? && s.relay.latched == 0 && s.proc.reloads == s.proc.spawned == n
  }

  predicate AtAwait(s: State, n: nat) {
    && s.pc.Await? && s.relay.latched == 0 && s.proc.reloads == n && s.proc.spawned == n + 1
  }

  lemma Started(c: Config, s: State, n: nat)
    requires AtCheck(s, n)
    ensures AtAwait(Next(Next(Next(s, c, Main(Fine)), c, Main(Fine)), c, Main(Fine)), n)
  {
  }

  predicate AtDetach(s: State, n: nat, c: Config) {
    && s.pc.Detach? && s.relay.latched == 0 && s.proc.reloads == n && s.proc.spawned == n + 1
    && s.proc.status == c.reloadCode
  }

  lemma Exits(c: Config, s: State, n: nat)
    requires AtAwait(s, n)
    ensures AtDetach(Next(Next(s, c, Main(Exited(c.reloadCode))), c, Main(Fine)), n, c)
  {
  }

  lemma Reloads(c: Config, s: State, n: nat)
    requires AtDetach(s, n, c) && n < c.maxReloads
    ensures AtCheck(Next(Next(s, c, Main(Fine)), c, Main(SavedThread(true))), n + 1)
  {
  }

  /** A run that goes on with two steps of the supervision. */
  lemma TwoMore(c: Config, a: seq<Event>, x: Reply, y: Reply) returns (evs: seq<Event>)
    ensures RunAll(c, evs) == Next(Next(RunAll(c, a), c, Main(x)), c, Main(y))
  {
    RunSnoc(c, a, Main(x));
    RunSnoc(c, a + [Main(x)], Main(y));
    evs := a + [Main(x)] + [Main(y)];
    hide Next, RunAll;
  }

  lemma {:induction false} ReachesCheck(c: Config, n: nat) returns (evs: seq<Event>)
    requires n <= Max(0, c.maxReloads)
    ensures AtCheck(RunAll(c, evs), n)
    decreases n
  {
    if n == 0 {
      RunSnoc(c, [], Main(Fine));
      evs := [] + [Main(Fine)];
      assert RunAll(c, []) == START;
      hide RunAll;
    } else {
      hide Next, RunAll, AtCheck, AtAwait, AtDetach;
      var a := ReachesCheck(c, n - 1);
      var b := TwoMore(c, a, Fine, Fine);
      RunSnoc(c, b, Main(Fine));
      Started(c, RunAll(c, a), n - 1);
      var d := TwoMore(c, b + [Main(Fine)], Exited(c.reloadCode), Fine);
      Exits(c, RunAll(c, b + [Main(Fine)]), n - 1);
      evs := TwoMore(c, d, Fine, SavedThread(true));
      Reloads(c, RunAll(c, d), n - 1);
    }
  }

  /** The bound on generations is reached: each number up to it is that of some run. */
  lemma EveryGenerationIsPossible(c: Config, n: nat) returns (evs: seq<Event>)
    requires n <= Max(0, c.maxReloads)
    ensures RunAll(c, evs).proc.spawned == n + 1
  {
    var a := ReachesCheck(c, n);
    RunSnoc(c, a, Main(Fine));
    RunSnoc(c, a + [Main(Fine)], Main(Fine));
    evs := a + [Main(Fine)] + [Main(Fine)];
    hide RunAll;
  }

  // ---- what is forwarded -------------------------------------------------------------------------

  /** Every signal run by the relay while a generation is attached is sent to it. */
  lemma SignalIsForwarded(s: State, c: Config, sig: nat)
    requires s.sigs.installed && s.relay.child.Some? && !(s.sigs.masked && Terminating(sig))
    ensures Next(s, c, Signal(sig)).relay.sent == s.relay.sent + [Sent(s.relay.child.value, sig)]
  {
  }

  /** After the grace period a generation that is still there is continued and killed, once. */
  lemma EscalatesOnce(s: State, c: Config, due: bool)
    requires s.pc.Await? && s.relay.child.Some?
    ensures var t := Next(s, c, Main(Polled(due)));
            var g := s.relay.child.value;
            && t.relay.sent
               == s.relay.sent + (if due && s.relay.killDue then [Sent(g, SIGCONT), Sent(g, SIGKILL)] else [])
            && (due ==> !t.relay.killDue) && t.pc.Await?
  {
  }

  /** The deadline is set by the signal that is latched, and by no other. */
  lemma DeadlineIsSetOnce(r: Relay, sig: nat)
    ensures Handle(r, sig).killDue == (r.killDue || (Terminating(sig) && r.latched == 0))
    ensures Handle(r, sig).latched == if Terminating(sig) && r.latched == 0 then sig else r.latched
  {
  }
}
