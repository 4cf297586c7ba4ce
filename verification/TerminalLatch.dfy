/**
 The terminal latch: one waiter, one acknowledgement and any number of cleanup calls race on an
 atomic outcome word. Every load, store, compare-exchange and (un)park is a step of its own.
 */
module TerminalLatches {
  import opened Wrappers

  const PENDING := -1
  const ADMITTING := -2
  const WAITING := -3
  const CLOSING := -4
  const CLEANUP_ADMITTING := -5

  /** Transport statuses are their codes. */
  const OK := 0
  const CLOSING_STATUS := 16

  predicate IsTerminal(outcome: int) {
    outcome == CLOSING || outcome >= 0
  }

  function StatusFor(outcome: int): Option<nat> {
    if outcome == CLOSING then Some(CLOSING_STATUS) else if outcome >= 0 then Some(outcome) else None
  }

  predicate IsOutcome(outcome: int) {
    outcome >= CLEANUP_ADMITTING
  }

  // ----- actors and their program counters

  datatype Actor = Waiter | Acknowledger | Cleanup(call: nat)

  /** The retry loops around the outcome word. */
  datatype Loop =
    | CompleteAdmission
    | CommitEnqueueFailure(status: nat)
    | CommitStatus(status: nat)
    | CommitCleanup

  /** What a loop tries to write over `current`; `None` when it returns without writing. */
  function Proposal(loop: Loop, current: int): Option<int> {
    match loop
    case CompleteAdmission =>
      if current == ADMITTING then Some(WAITING)
      else if current == CLEANUP_ADMITTING then Some(CLOSING)
      else None
    case CommitEnqueueFailure(status) =>
      if IsTerminal(current) then None else Some(status)
    case CommitStatus(status) =>
      if IsTerminal(current) || current == CLEANUP_ADMITTING then None else Some(status)
    case CommitCleanup =>
      if IsTerminal(current) || current == CLEANUP_ADMITTING then None
      else if current == ADMITTING then Some(CLEANUP_ADMITTING)
      else Some(CLOSING)
  }

  /** `failures` counts the lost compare-exchanges of the current loop. */
  datatype Pc =
    | Idle
    | Register
    | Enqueue
    | ReadRequest
    | Load(loop: Loop, failures: nat)
    | Swap(loop: Loop, current: int, failures: nat)
    | GetWaiter
    | Unpark
    | ReadOutcome
    | Poll
    | Park
    | Returned(status: nat)
    | Finished
    | Panicked

  /** The latch's own words and the waiter's park token. */
  datatype Shared = Shared(outcome: int, cleanupRequested: bool, waiterRegistered: bool, token: bool)

  /** A successful write of the outcome word. */
  datatype Commit = Commit(actor: Actor, value: int)

  datatype State = State(shared: Shared, pcs: map<Actor, Pc>, commits: seq<Commit>)

  const INITIAL := State(Shared(PENDING, false, false, false), map[], [])

  function PcOf(s: State, actor: Actor): Pc {
    if actor in s.pcs then s.pcs[actor] else Idle
  }

  /** A step of an actor; the transport chooses `status`, the thread library may wake a parked thread for no reason. */
  datatype Move = Move(actor: Actor, status: nat, spurious: bool)

  predicate Stopped(pc: Pc) {
    pc.Returned? || pc.Finished? || pc.Panicked?
  }

  predicate CanStep(actor: Actor, pc: Pc, w: Shared, spurious: bool) {
    && !Stopped(pc)
    && (actor == Acknowledger && pc == Idle ==> w.waiterRegistered)
    && (pc == Park ==> w.token || spurious)
  }

  predicate Enabled(s: State, m: Move) {
    CanStep(m.actor, PcOf(s, m.actor), s.shared, m.spurious)
  }

  function AfterLoop(actor: Actor, loop: Loop, wrote: bool): Pc {
    match loop
    case CompleteAdmission => ReadRequest
    case CommitEnqueueFailure(_) => if wrote then GetWaiter else ReadOutcome
    case CommitStatus(_) => if wrote then GetWaiter else Finished
    case CommitCleanup => AfterCleanupCommit(actor)
  }

  function AfterCleanupCommit(actor: Actor): Pc {
    if actor == Waiter then Poll else GetWaiter
  }

  function AfterUnpark(actor: Actor): Pc {
    if actor == Waiter then ReadOutcome else Finished
  }

  /** Returning the status of an outcome that is not committed is the unreachable branch. */
  function Return(outcome: int): Pc {
    match StatusFor(outcome)
    case Some(status) => Returned(status)
    case None => Panicked
  }

  /** One atomic step of an actor: the words and its program counter afterwards. */
  function Step(actor: Actor, pc: Pc, w: Shared, status: nat): (Shared, Pc) {
    match pc
    case Idle =>
      (match actor
       case Waiter =>
         if w.outcome == PENDING then (w.(outcome := ADMITTING), Register) else (w, Return(w.outcome))
       case Acknowledger => (w, Load(CommitStatus(status), 0))
       case Cleanup(_) => (w.(cleanupRequested := true), ReadRequest))
    case Register => (w.(waiterRegistered := true), Enqueue)
    case Enqueue => (w, Load(if status == OK then CompleteAdmission else CommitEnqueueFailure(status), 0))
    case ReadRequest => (w, if w.cleanupRequested then Load(CommitCleanup, 0) else AfterCleanupCommit(actor))
    case Load(loop, failures) =>
      (w, if Proposal(loop, w.outcome).Some? then Swap(loop, w.outcome, failures) else AfterLoop(actor, loop, false))
    case Swap(loop, current, failures) =>
      if w.outcome == current && Proposal(loop, current).Some?
      then (w.(outcome := Proposal(loop, current).value), AfterLoop(actor, loop, true))
      else (w, Load(loop, failures + 1))
    case GetWaiter => (w, if w.waiterRegistered then Unpark else AfterUnpark(actor))
    case Unpark => (w.(token := true), AfterUnpark(actor))
    case ReadOutcome => (w, Return(w.outcome))
    case Poll => (w, if IsTerminal(w.outcome) then Return(w.outcome) else Park)
    case Park => (w.(token := false), ReadRequest)
    case _ => (w, pc)
  }

  function Apply(s: State, m: Move): State {
    var next := Step(m.actor, PcOf(s, m.actor), s.shared, m.status);
    State(next.0, s.pcs[m.actor := next.1],
      s.commits + if next.0.outcome == s.shared.outcome then [] else [Commit(m.actor, next.0.outcome)])
  }

  // ----- runs

  /** The state after the moves of a run, in any interleaving. */
  function Run(moves: seq<Move>): State {
    if moves == [] then INITIAL else Apply(Run(moves[..|moves| - 1]), moves[|moves| - 1])
  }

  predicate IsRun(moves: seq<Move>) {
    moves != [] ==> IsRun(moves[..|moves| - 1]) && Enabled(Run(moves[..|moves| - 1]), moves[|moves| - 1])
  }

  // ----- what every step keeps

  /** The stages of the outcome word; every successful compare-exchange moves to a later stage. */
  function Rank(outcome: int): nat {
    if IsTerminal(outcome) then 3
    else if outcome == WAITING || outcome == CLEANUP_ADMITTING then 2
    else if outcome == ADMITTING then 1
    else 0
  }

  predicate InAdmission(pc: Pc) {
    || pc.Register?
    || pc.Enqueue?
    || ((pc.Load? || pc.Swap?) && (pc.loop.CompleteAdmission? || pc.loop.CommitEnqueueFailure?))
  }

  /** The program counters that each actor can have. */
  predicate Belongs(actor: Actor, pc: Pc) {
    match actor
    case Waiter =>
      && !pc.Finished? && !pc.Panicked?
      && (pc.Load? || pc.Swap? ==>
        || pc.loop == CompleteAdmission || pc.loop == CommitCleanup
        || (pc.loop.CommitEnqueueFailure? && pc.loop.status != OK))
    case Acknowledger =>
      pc.Idle? || ((pc.Load? || pc.Swap?) && pc.loop.CommitStatus?) || pc.GetWaiter? || pc.Unpark? || pc.Finished?
    case Cleanup(_) =>
      pc.Idle? || pc.ReadRequest? || ((pc.Load? || pc.Swap?) && pc.loop == CommitCleanup)
      || pc.GetWaiter? || pc.Unpark? || pc.Finished?
  }

  /** A loop has lost at most as many compare-exchanges as the outcome has moved stages. */
  predicate Retries(pc: Pc, outcome: int) {
    match pc
    case Load(_, failures) => failures <= Rank(outcome)
    case Swap(loop, current, failures) =>
      && failures <= Rank(current)
      && IsOutcome(current) && Proposal(loop, current).Some?
      && (current == outcome || Rank(current) < Rank(outcome))
    case _ => true
  }

  predicate Waking(pc: Pc) {
    pc.GetWaiter? || pc.Unpark?
  }

  /** An actor that is through with its commit leaves the outcome decided, or left to the admission. */
  predicate Through(actor: Actor, pc: Pc, outcome: int) {
    if actor == Waiter then
      && (Waking(pc) || pc.ReadOutcome? ==> IsTerminal(outcome))
      && (pc.Returned? ==> StatusFor(outcome) == Some(pc.status))
    else
      Waking(pc) || pc.Finished? ==> IsTerminal(outcome) || outcome == CLEANUP_ADMITTING
  }

  predicate ActorKept(actor: Actor, pc: Pc, w: Shared) {
    && Belongs(actor, pc)
    && Retries(pc, w.outcome)
    && Through(actor, pc, w.outcome)
    && (actor.Cleanup? && !pc.Idle? ==> w.cleanupRequested)
    && (actor == Acknowledger && !pc.Idle? ==> w.waiterRegistered)
  }

  predicate WaiterKept(pc: Pc, w: Shared) {
    && IsOutcome(w.outcome)
    && (pc.Idle? ==> w.outcome == PENDING || w.outcome == CLOSING)
    && (!pc.Idle? ==> w.outcome != PENDING)
    && (pc.Idle? || pc.Register? ==> !w.waiterRegistered)
    && (!pc.Idle? && !pc.Register? && !pc.Returned? ==> w.waiterRegistered)
    && (w.outcome == ADMITTING || w.outcome == CLEANUP_ADMITTING ==> InAdmission(pc))
  }

  /** Someone other than the waiter has still to unpark it. */
  ghost predicate WakeupPending(s: State) {
    exists actor :: actor != Waiter && Waking(PcOf(s, actor))
  }

  ghost predicate NoLostWakeup(s: State) {
    IsTerminal(s.shared.outcome) && PcOf(s, Waiter) == Park ==> s.shared.token || WakeupPending(s)
  }

  predicate IsCleanupWrite(c: Commit) {
    c.value == CLEANUP_ADMITTING || c.value == CLOSING
  }

  /** Stages rise along the successful writes, and the outcome is the last of them. */
  predicate HistoryKept(commits: seq<Commit>, outcome: int) {
    && (forall i | 0 <= i < |commits| :: 1 <= Rank(commits[i].value) <= Rank(outcome))
    && (forall i, j | 0 <= i < j < |commits| :: Rank(commits[i].value) < Rank(commits[j].value))
    && outcome == (if commits == [] then PENDING else commits[|commits| - 1].value)
    && (outcome == OK ==> commits[|commits| - 1].actor == Acknowledger)
    && (outcome in {OK, WAITING, ADMITTING} ==> forall i | 0 <= i < |commits| :: !IsCleanupWrite(commits[i]))
  }

  ghost predicate Kept(s: State) {
    && (forall actor :: ActorKept(actor, PcOf(s, actor), s.shared))
    && WaiterKept(PcOf(s, Waiter), s.shared)
    && NoLostWakeup(s)
    && HistoryKept(s.commits, s.shared.outcome)
  }

  /** What every step does to the words. */
  predicate Advances(v: Shared, w: Shared) {
    && IsOutcome(w.outcome)
    && (w.outcome == v.outcome || Rank(v.outcome) < Rank(w.outcome))
    && (v.cleanupRequested ==> w.cleanupRequested)
    && (v.waiterRegistered ==> w.waiterRegistered)
  }

  lemma ProposalsRise(loop: Loop, current: int)
    requires IsOutcome(current) && Proposal(loop, current).Some?
    ensures IsOutcome(Proposal(loop, current).value) && Rank(current) < Rank(Proposal(loop, current).value)
  {
  }

  /** The outcome stays or moves to a later stage, so a decided outcome stays. */
  lemma StepAdvances(actor: Actor, pc: Pc, w: Shared, status: nat)
    requires IsOutcome(w.outcome)
    ensures Advances(w, Step(actor, pc, w, status).0)
  {
  }

  lemma OthersKeep(actor: Actor, pc: Pc, v: Shared, w: Shared)
    requires IsOutcome(v.outcome) && Advances(v, w) && ActorKept(actor, pc, v)
    ensures ActorKept(actor, pc, w)
  {
  }

  lemma StepKeepsActor(actor: Actor, pc: Pc, w: Shared, status: nat)
    requires IsOutcome(w.outcome) && ActorKept(actor, pc, w)
    requires actor == Waiter ==> WaiterKept(pc, w)
    requires actor == Acknowledger && pc == Idle ==> w.waiterRegistered
    ensures ActorKept(actor, Step(actor, pc, w, status).1, Step(actor, pc, w, status).0)
  {
    StepAdvances(actor, pc, w, status);
    StepKeepsRetries(actor, pc, w, status);
    StepKeepsThrough(actor, pc, w, status);
    StepKeepsBelonging(actor, pc, w, status);
    StepKeepsRequests(actor, pc, w, status);
  }

  lemma StepKeepsBelonging(actor: Actor, pc: Pc, w: Shared, status: nat)
    requires IsOutcome(w.outcome) && ActorKept(actor, pc, w)
    requires actor == Waiter ==> WaiterKept(pc, w)
    ensures Belongs(actor, Step(actor, pc, w, status).1)
  {
  }

  lemma StepKeepsRequests(actor: Actor, pc: Pc, w: Shared, status: nat)
    requires actor.Cleanup? && !pc.Idle? ==> w.cleanupRequested
    ensures actor.Cleanup? ==> Step(actor, pc, w, status).0.cleanupRequested || Stopped(pc)
  {
  }

  lemma StepKeepsThrough(actor: Actor, pc: Pc, w: Shared, status: nat)
    requires IsOutcome(w.outcome) && ActorKept(actor, pc, w)
    requires actor == Waiter ==> WaiterKept(pc, w)
    ensures Through(actor, Step(actor, pc, w, status).1, Step(actor, pc, w, status).0.outcome)
  {
  }

  lemma StepKeepsRetries(actor: Actor, pc: Pc, w: Shared, status: nat)
    requires IsOutcome(w.outcome) && Retries(pc, w.outcome)
    ensures Retries(Step(actor, pc, w, status).1, Step(actor, pc, w, status).0.outcome)
  {
  }

  lemma WaiterKeepsItself(pc: Pc, w: Shared, status: nat)
    requires ActorKept(Waiter, pc, w) && WaiterKept(pc, w)
    ensures WaiterKept(Step(Waiter, pc, w, status).1, Step(Waiter, pc, w, status).0)
  {
    StepAdvances(Waiter, pc, w, status);
  }

  lemma OthersKeepWaiter(actor: Actor, pc: Pc, w: Shared, status: nat, waiter: Pc)
    requires actor != Waiter && ActorKept(actor, pc, w) && WaiterKept(waiter, w)
    ensures WaiterKept(waiter, Step(actor, pc, w, status).0)
  {
  }

  lemma StepKeepsHistory(actor: Actor, pc: Pc, w: Shared, status: nat, commits: seq<Commit>)
    requires IsOutcome(w.outcome) && ActorKept(actor, pc, w) && HistoryKept(commits, w.outcome)
    ensures var outcome := Step(actor, pc, w, status).0.outcome;
            HistoryKept(commits + if outcome == w.outcome then [] else [Commit(actor, outcome)], outcome)
  {
    var outcome := Step(actor, pc, w, status).0.outcome;
    StepAdvances(actor, pc, w, status);
    if outcome == w.outcome {
      assert commits + [] == commits;
    } else {
      CleanupWriteBlocksOk(actor, pc, w, status);
      WriteKeepsHistory(commits, w.outcome, Commit(actor, outcome));
    }
  }

  lemma WriteKeepsHistory(commits: seq<Commit>, outcome: int, next: Commit)
    requires HistoryKept(commits, outcome) && Rank(outcome) < Rank(next.value)
    requires next.value == OK ==> next.actor == Acknowledger
    requires next.value in {OK, WAITING, ADMITTING} ==> outcome in {PENDING, ADMITTING, WAITING}
    ensures HistoryKept(commits + [next], next.value)
  {
  }

  /** An Ok is written by the acknowledgement only, and never after a cleanup write. */
  lemma CleanupWriteBlocksOk(actor: Actor, pc: Pc, w: Shared, status: nat)
    requires IsOutcome(w.outcome) && ActorKept(actor, pc, w)
    ensures var outcome := Step(actor, pc, w, status).0.outcome;
            && (outcome != w.outcome && outcome == OK ==> actor == Acknowledger)
            && (outcome != w.outcome && outcome in {OK, WAITING, ADMITTING} ==>
              w.outcome in {PENDING, ADMITTING, WAITING})
  {
  }

  lemma StepKeepsWakeup(s: State, m: Move)
    requires Kept(s) && Enabled(s, m)
    ensures NoLostWakeup(Apply(s, m))
  {
    var t := Apply(s, m);
    var pc := PcOf(s, m.actor);
    assert ActorKept(m.actor, pc, s.shared);
    forall actor | actor != m.actor ensures PcOf(t, actor) == PcOf(s, actor) {
    }
    WakingStep(m.actor, pc, s.shared, m.status);
    if IsTerminal(t.shared.outcome) && PcOf(t, Waiter) == Park && !t.shared.token {
      assert m.actor != Waiter;
      if IsTerminal(s.shared.outcome) {
        var actor :| actor != Waiter && Waking(PcOf(s, actor));
        assert Waking(PcOf(t, actor));
      } else {
        assert Waking(PcOf(t, m.actor));
      }
    }
  }

  /** A deciding write is followed by the unpark; an unpark leaves the token; the waiter parks only undecided. */
  lemma WakingStep(actor: Actor, pc: Pc, w: Shared, status: nat)
    requires ActorKept(actor, pc, w)
    ensures var next := Step(actor, pc, w, status);
            && (actor == Waiter && next.1 == Park ==> !IsTerminal(next.0.outcome))
            && (actor != Waiter && !IsTerminal(w.outcome) && IsTerminal(next.0.outcome) ==> Waking(next.1))
            && (actor != Waiter && Waking(pc) && w.waiterRegistered ==> Waking(next.1) || next.0.token)
            && (actor != Waiter && w.token ==> next.0.token)
  {
  }

  lemma StepKeeps(s: State, m: Move)
    requires Kept(s) && Enabled(s, m)
    ensures Kept(Apply(s, m))
  {
    StepKeepsActors(s, m);
    StepKeepsWaiter(s, m);
    StepKeepsWakeup(s, m);
    assert ActorKept(m.actor, PcOf(s, m.actor), s.shared);
    StepKeepsHistory(m.actor, PcOf(s, m.actor), s.shared, m.status, s.commits);
  }

  lemma StepKeepsActors(s: State, m: Move)
    requires Kept(s) && Enabled(s, m)
    ensures forall actor :: ActorKept(actor, PcOf(Apply(s, m), actor), Apply(s, m).shared)
  {
    var pc := PcOf(s, m.actor);
    assert ActorKept(m.actor, pc, s.shared);
    StepKeepsActor(m.actor, pc, s.shared, m.status);
    StepAdvances(m.actor, pc, s.shared, m.status);
    forall actor ensures ActorKept(actor, PcOf(Apply(s, m), actor), Apply(s, m).shared) {
      if actor != m.actor {
        OthersKeep(actor, PcOf(s, actor), s.shared, Apply(s, m).shared);
      }
    }
  }

  lemma StepKeepsWaiter(s: State, m: Move)
    requires Kept(s) && Enabled(s, m)
    ensures WaiterKept(PcOf(Apply(s, m), Waiter), Apply(s, m).shared)
  {
    var pc := PcOf(s, m.actor);
    assert ActorKept(m.actor, pc, s.shared);
    if m.actor == Waiter {
      WaiterKeepsItself(pc, s.shared, m.status);
    } else {
      OthersKeepWaiter(m.actor, pc, s.shared, m.status, PcOf(s, Waiter));
    }
  }

  lemma {:induction false} RunsKeep(moves: seq<Move>)
    requires IsRun(moves)
    ensures Kept(Run(moves))
  {
    if moves == [] {
      forall actor ensures ActorKept(actor, PcOf(INITIAL, actor), INITIAL.shared) {
      }
    } else {
      RunsKeep(moves[..|moves| - 1]);
      StepKeeps(Run(moves[..|moves| - 1]), moves[|moves| - 1]);
    }
  }

  // ----- what the latch promises over every interleaving

  /** A parked waiter with a decided outcome is always about to be woken. */
  lemma {:induction false} ParkedWaiterIsWoken(moves: seq<Move>)
    requires IsRun(moves)
    ensures NoLostWakeup(Run(moves))
    ensures var s := Run(moves);
            s.shared.outcome == ADMITTING || s.shared.outcome == CLEANUP_ADMITTING ==> InAdmission(PcOf(s, Waiter))
  {
    RunsKeep(moves);
  }

  /**
   Once the acknowledgement or one cleanup call has finished, the waiter can always go on without a
   spurious wakeup.
   */
  lemma FinishedCallFreesWaiter(moves: seq<Move>, actor: Actor)
    requires IsRun(moves) && actor != Waiter && PcOf(Run(moves), actor) == Finished
    ensures var s := Run(moves);
            || Enabled(s, Move(Waiter, OK, false))
            || PcOf(s, Waiter).Returned?
            || WakeupPending(s)
  {
    RunsKeep(moves);
    var s := Run(moves);
    var pc := PcOf(s, Waiter);
    assert ActorKept(actor, Finished, s.shared) && ActorKept(Waiter, pc, s.shared);
    assert IsTerminal(s.shared.outcome) || s.shared.outcome == CLEANUP_ADMITTING;
    if pc == Park {
      assert IsTerminal(s.shared.outcome);
      assert NoLostWakeup(s);
    }
  }

  /** No interleaving reaches the unreachable branch, and no loop loses more than three compare-exchanges. */
  lemma NeverPanicsAndRetriesAreBounded(moves: seq<Move>, actor: Actor)
    requires IsRun(moves)
    ensures var pc := PcOf(Run(moves), actor);
            !pc.Panicked? && (pc.Load? || pc.Swap? ==> pc.failures <= 3)
  {
    RunsKeep(moves);
    assert ActorKept(actor, PcOf(Run(moves), actor), Run(moves).shared);
  }

  lemma FewCommits(commits: seq<Commit>, outcome: int)
    requires HistoryKept(commits, outcome)
    ensures |commits| <= 3
  {
    if commits != [] {
      CommitRank(commits, outcome, |commits| - 1);
    }
  }

  lemma {:induction false} CommitRank(commits: seq<Commit>, outcome: int, i: nat)
    requires HistoryKept(commits, outcome) && i < |commits|
    ensures i + 1 <= Rank(commits[i].value)
  {
    if i > 0 {
      CommitRank(commits, outcome, i - 1);
    }
  }

  /** The outcome word is written at most three times, each time to a later stage, and a decided outcome stays. */
  lemma {:induction false} OutcomeIsCommittedOnce(moves: seq<Move>, earlier: nat)
    requires IsRun(moves) && earlier <= |moves|
    ensures IsTerminal(Run(moves[..earlier]).shared.outcome) ==>
      Run(moves).shared.outcome == Run(moves[..earlier]).shared.outcome
    ensures |Run(moves).commits| <= 3
    ensures forall i, j | 0 <= i < j < |Run(moves).commits| ::
              Rank(Run(moves).commits[i].value) < Rank(Run(moves).commits[j].value)
  {
    RunsKeep(moves);
    if earlier < |moves| {
      var init := moves[..|moves| - 1];
      OutcomeIsCommittedOnce(init, earlier);
      assert init[..earlier] == moves[..earlier];
      RunsKeep(init);
      StepAdvances(moves[|moves| - 1].actor, PcOf(Run(init), moves[|moves| - 1].actor),
        Run(init).shared, moves[|moves| - 1].status);
    } else {
      assert moves[..earlier] == moves;
    }
    FewCommits(Run(moves).commits, Run(moves).shared.outcome);
  }

  /**
   The wait returns the one decided outcome, and Ok only if an Ok acknowledgement was committed
   and no cleanup has written the outcome before it or ever after.
   */
  lemma WaitReturnsTheDecision(moves: seq<Move>)
    requires IsRun(moves) && PcOf(Run(moves), Waiter).Returned?
    ensures var s := Run(moves);
            var status := PcOf(s, Waiter).status;
            && StatusFor(s.shared.outcome) == Some(status)
            && |s.commits| > 0 && s.commits[|s.commits| - 1].value == s.shared.outcome
            && (status == OK ==>
              && s.commits[|s.commits| - 1] == Commit(Acknowledger, OK)
              && forall i | 0 <= i < |s.commits| :: !IsCleanupWrite(s.commits[i]))
  {
    RunsKeep(moves);
    assert ActorKept(Waiter, PcOf(Run(moves), Waiter), Run(moves).shared);
  }

  // ----- where the decision comes from

  /** The transport answers the enqueue with a failure, or the acknowledgement begins. */
  predicate Gives(s: State, m: Move) {
    || (m.actor == Waiter && PcOf(s, Waiter) == Enqueue && m.status != OK)
    || (m.actor == Acknowledger && PcOf(s, Acknowledger) == Idle)
  }

  /** The statuses that transport and acknowledgement have given in a run. */
  function Given(moves: seq<Move>): set<int> {
    if moves == [] then {}
    else
      var init, last := moves[..|moves| - 1], moves[|moves| - 1];
      Given(init) + if Gives(Run(init), last) then {last.status} else {}
  }

  predicate CleanupActed(moves: seq<Move>) {
    exists k :: 0 <= k < |moves| && moves[k].actor.Cleanup?
  }

  /** What an actor is about to write has been given to it. */
  predicate PcSourced(pc: Pc, given: set<int>, cleanup: bool) {
    pc.Load? || pc.Swap? ==>
      && (pc.loop.CommitEnqueueFailure? || pc.loop.CommitStatus? ==> pc.loop.status in given)
      && (pc.loop.CommitCleanup? ==> cleanup)
  }

  predicate WordsSourced(w: Shared, given: set<int>, cleanup: bool) {
    && (w.outcome >= 0 ==> w.outcome in given)
    && (w.outcome == CLOSING || w.outcome == CLEANUP_ADMITTING || w.cleanupRequested ==> cleanup)
  }

  ghost predicate Sourced(s: State, given: set<int>, cleanup: bool) {
    WordsSourced(s.shared, given, cleanup) && forall actor :: PcSourced(PcOf(s, actor), given, cleanup)
  }

  lemma StepIsSourced(actor: Actor, pc: Pc, w: Shared, status: nat, given: set<int>, cleanup: bool)
    requires ActorKept(actor, pc, w) && PcSourced(pc, given, cleanup) && WordsSourced(w, given, cleanup)
    requires actor == Waiter && pc == Enqueue && status != OK ==> status in given
    requires actor == Acknowledger && pc == Idle ==> status in given
    requires actor.Cleanup? ==> cleanup
    ensures var next := Step(actor, pc, w, status);
            PcSourced(next.1, given, cleanup) && WordsSourced(next.0, given, cleanup)
  {
  }

  lemma {:induction false} RunsAreSourced(moves: seq<Move>)
    requires IsRun(moves)
    ensures Sourced(Run(moves), Given(moves), CleanupActed(moves))
  {
    if moves != [] {
      var init, m := moves[..|moves| - 1], moves[|moves| - 1];
      RunsAreSourced(init);
      RunsKeep(init);
      assert moves == init + [m];
      LongerIsSourced(init, m, Run(init));
    }
  }

  lemma LongerIsSourced(moves: seq<Move>, m: Move, s: State)
    requires s == Run(moves) && Kept(s) && Sourced(s, Given(moves), CleanupActed(moves))
    ensures Sourced(Apply(s, m), Given(moves + [m]), CleanupActed(moves + [m]))
  {
    CleanupActs(moves, m);
    GivenLonger(moves, m);
    NextIsSourced(s, m, Given(moves), CleanupActed(moves), Given(moves + [m]), CleanupActed(moves + [m]));
  }

  lemma GivenLonger(moves: seq<Move>, m: Move)
    ensures Given(moves + [m]) == Given(moves) + if Gives(Run(moves), m) then {m.status} else {}
  {
    assert (moves + [m])[..|moves|] == moves;
  }

  lemma CleanupActs(moves: seq<Move>, m: Move)
    ensures CleanupActed(moves + [m]) <==> CleanupActed(moves) || m.actor.Cleanup?
  {
    var longer := moves + [m];
    assert longer[|moves|] == m;
    if CleanupActed(moves) {
      var k :| 0 <= k < |moves| && moves[k].actor.Cleanup?;
      assert longer[k].actor.Cleanup?;
    }
  }

  lemma NextIsSourced(s: State, m: Move, given: set<int>, cleanup: bool, more: set<int>, acted: bool)
    requires Kept(s) && Sourced(s, given, cleanup)
    requires given <= more && (Gives(s, m) ==> m.status in more) && (cleanup || m.actor.Cleanup? ==> acted)
    ensures Sourced(Apply(s, m), more, acted)
  {
    var pc := PcOf(s, m.actor);
    assert ActorKept(m.actor, pc, s.shared) && PcSourced(pc, given, cleanup);
    StepIsSourced(m.actor, pc, s.shared, m.status, more, acted);
    forall actor ensures PcSourced(PcOf(Apply(s, m), actor), more, acted) {
      assert actor != m.actor ==> PcSourced(PcOf(s, actor), given, cleanup);
    }
  }

  /**
   A decided status is one that the transport or the acknowledgement gave, and the latch is closed only
   after a cleanup call; so the wait returns a given status, or the closing one after a cleanup call.
   */
  lemma DecisionIsGiven(moves: seq<Move>)
    requires IsRun(moves)
    ensures var outcome := Run(moves).shared.outcome;
            && (outcome >= 0 ==> outcome in Given(moves))
            && (outcome == CLOSING || outcome == CLEANUP_ADMITTING ==> CleanupActed(moves))
    ensures var pc := PcOf(Run(moves), Waiter);
            pc.Returned? ==> pc.status in Given(moves) || (pc.status == CLOSING_STATUS && CleanupActed(moves))
  {
    RunsAreSourced(moves);
    if PcOf(Run(moves), Waiter).Returned? {
      WaitReturnsTheDecision(moves);
    }
  }

  // ----- runs that there are

  /** The set has the initial state and all that steps lead to. */
  ghost predicate StepClosed(states: State -> bool) {
    states(INITIAL) && forall s, m {:trigger Apply(s, m)} | states(s) && Enabled(s, m) :: states(Apply(s, m))
  }

  ghost predicate Reachable(s: State) {
    exists moves :: IsRun(moves) && Run(moves) == s
  }

  ghost function ReachableStates(): State -> bool {
    (s: State) => Reachable(s)
  }

  lemma {:induction false} ReachableIsClosed()
    ensures StepClosed(ReachableStates())
  {
    assert IsRun([]) && Run([]) == INITIAL;
    forall s, m | Reachable(s) && Enabled(s, m) ensures Reachable(Apply(s, m)) {
      var moves :| IsRun(moves) && Run(moves) == s;
      assert (moves + [m])[..|moves|] == moves;
      assert IsRun(moves + [m]) && Run(moves + [m]) == Apply(s, m);
    }
  }

  /** A step that is possible; `pc` and `w` are where it leads. */
  lemma {:induction false} Go(states: State -> bool, s: State, actor: Actor, status: nat, pc: Pc, w: Shared)
    returns (t: State)
    requires StepClosed(states) && states(s) && CanStep(actor, PcOf(s, actor), s.shared, false)
    requires Step(actor, PcOf(s, actor), s.shared, status) == (w, pc)
    ensures states(t) && t.shared == w && PcOf(t, actor) == pc
    ensures forall other | other != actor :: PcOf(t, other) == PcOf(s, other)
  {
    t := Apply(s, Move(actor, status, false));
  }

  lemma {:induction false} EnqueueAnswers(states: State -> bool, status: nat) returns (s: State)
    requires StepClosed(states)
    ensures states(s) && s.shared == Shared(ADMITTING, false, true, false) && PcOf(s, Acknowledger) == Idle
    ensures PcOf(s, Waiter) == Load(if status == OK then CompleteAdmission else CommitEnqueueFailure(status), 0)
  {
    s := Go(states, INITIAL, Waiter, 0, Register, Shared(ADMITTING, false, false, false));
    s := Go(states, s, Waiter, 0, Enqueue, Shared(ADMITTING, false, true, false));
    var loop := if status == OK then CompleteAdmission else CommitEnqueueFailure(status);
    s := Go(states, s, Waiter, status, Load(loop, 0), Shared(ADMITTING, false, true, false));
  }

  lemma {:induction false} FailedEnqueueGoes(states: State -> bool, status: nat) returns (s: State)
    requires StepClosed(states) && status != OK
    ensures states(s) && PcOf(s, Waiter) == Returned(status) && PcOf(s, Acknowledger) == Idle
  {
    var loop := CommitEnqueueFailure(status);
    s := EnqueueAnswers(states, status);
    s := Go(states, s, Waiter, 0, Swap(loop, ADMITTING, 0), Shared(ADMITTING, false, true, false));
    s := Go(states, s, Waiter, 0, GetWaiter, Shared(status, false, true, false));
    s := Go(states, s, Waiter, 0, Unpark, Shared(status, false, true, false));
    s := Go(states, s, Waiter, 0, ReadOutcome, Shared(status, false, true, true));
    s := Go(states, s, Waiter, 0, Returned(status), Shared(status, false, true, true));
  }

  lemma {:induction false} WaiterParks(states: State -> bool) returns (s: State)
    requires StepClosed(states)
    ensures states(s) && s.shared == Shared(WAITING, false, true, false)
    ensures PcOf(s, Waiter) == Park && PcOf(s, Acknowledger) == Idle
  {
    s := EnqueueAnswers(states, OK);
    s := Go(states, s, Waiter, 0, Swap(CompleteAdmission, ADMITTING, 0), Shared(ADMITTING, false, true, false));
    s := Go(states, s, Waiter, 0, ReadRequest, Shared(WAITING, false, true, false));
    s := Go(states, s, Waiter, 0, Poll, Shared(WAITING, false, true, false));
    s := Go(states, s, Waiter, 0, Park, Shared(WAITING, false, true, false));
  }

  lemma {:induction false} AcknowledgedWaitGoes(states: State -> bool, status: nat) returns (s: State)
    requires StepClosed(states)
    ensures states(s) && PcOf(s, Waiter) == Returned(status) && PcOf(s, Acknowledger) == Finished
  {
    var loop := CommitStatus(status);
    s := WaiterParks(states);
    s := Go(states, s, Acknowledger, status, Load(loop, 0), Shared(WAITING, false, true, false));
    s := Go(states, s, Acknowledger, 0, Swap(loop, WAITING, 0), Shared(WAITING, false, true, false));
    s := Go(states, s, Acknowledger, 0, GetWaiter, Shared(status, false, true, false));
    s := Go(states, s, Acknowledger, 0, Unpark, Shared(status, false, true, false));
    s := Go(states, s, Acknowledger, 0, Finished, Shared(status, false, true, true));
    s := Go(states, s, Waiter, 0, ReadRequest, Shared(status, false, true, false));
    s := Go(states, s, Waiter, 0, Poll, Shared(status, false, true, false));
    s := Go(states, s, Waiter, 0, Returned(status), Shared(status, false, true, false));
  }

  lemma {:induction false} ClosedLatchGoes(states: State -> bool, call: nat) returns (s: State)
    requires StepClosed(states)
    ensures states(s) && PcOf(s, Waiter) == Returned(CLOSING_STATUS) && !s.shared.waiterRegistered
  {
    var actor := Cleanup(call);
    s := Go(states, INITIAL, actor, 0, ReadRequest, Shared(PENDING, true, false, false));
    s := Go(states, s, actor, 0, Load(CommitCleanup, 0), Shared(PENDING, true, false, false));
    s := Go(states, s, actor, 0, Swap(CommitCleanup, PENDING, 0), Shared(PENDING, true, false, false));
    s := Go(states, s, actor, 0, GetWaiter, Shared(CLOSING, true, false, false));
    s := Go(states, s, actor, 0, Finished, Shared(CLOSING, true, false, false));
    s := Go(states, s, Waiter, 0, Returned(CLOSING_STATUS), Shared(CLOSING, true, false, false));
  }

  /**
   There are runs in which a failing enqueue returns its own status, in which an acknowledgement wakes
   the parked waiter with its status, and in which a closed latch refuses the waiter.
   */
  lemma {:induction false} EveryEndIsReachable(status: nat)
    ensures exists s :: Reachable(s) && PcOf(s, Waiter) == Returned(status) && PcOf(s, Acknowledger) == Finished
    ensures status != OK ==>
              exists s :: Reachable(s) && PcOf(s, Waiter) == Returned(status) && PcOf(s, Acknowledger) == Idle
    ensures exists s ::
              Reachable(s) && PcOf(s, Waiter) == Returned(CLOSING_STATUS) && !s.shared.waiterRegistered
  {
    ReachableIsClosed();
    var acknowledged := AcknowledgedWaitGoes(ReachableStates(), status);
    var closed := ClosedLatchGoes(ReachableStates(), 0);
    assert Reachable(acknowledged) && Reachable(closed);
    if status != OK {
      var failed := FailedEnqueueGoes(ReachableStates(), status);
      assert Reachable(failed);
    }
  }

  // ----- progress

  /** Own steps that an acknowledgement or a cleanup call can still take, whatever the others do. */
  function StepsLeft(pc: Pc): nat {
    match pc
    case Idle => 13
    case ReadRequest => 12
    case Load(_, failures) => if failures <= 3 then 11 - 2 * failures else 0
    case Swap(_, _, failures) => if failures <= 3 then 10 - 2 * failures else 0
    case GetWaiter => 2
    case Unpark => 1
    case _ => 0
  }

  /** Both calls are wait-free: each own step uses up one of at most thirteen. */
  lemma CallsAreWaitFree(moves: seq<Move>, m: Move)
    requires IsRun(moves) && Enabled(Run(moves), m) && m.actor != Waiter
    ensures StepsLeft(PcOf(Apply(Run(moves), m), m.actor)) < StepsLeft(PcOf(Run(moves), m.actor)) <= 13
  {
    var s := Run(moves);
    RunsKeep(moves);
    var pc := PcOf(s, m.actor);
    assert ActorKept(m.actor, pc, s.shared);
    StepKeepsActor(m.actor, pc, s.shared, m.status);
    StepsFall(m.actor, pc, s.shared, m.status);
  }

  lemma StepsFall(actor: Actor, pc: Pc, w: Shared, status: nat)
    requires actor != Waiter && !Stopped(pc) && ActorKept(actor, pc, w)
    requires ActorKept(actor, Step(actor, pc, w, status).1, Step(actor, pc, w, status).0)
    ensures StepsLeft(Step(actor, pc, w, status).1) < StepsLeft(pc) <= 13
  {
  }

  /** Own steps that the waiter can still take once the outcome is decided, a blocked park not counted. */
  function WaiterStepsLeft(pc: Pc): nat {
    match pc
    case Idle => 1
    case Register => 16
    case Enqueue => 15
    case Load(loop, _) => if loop == CommitCleanup then 4 else 14
    case Swap(loop, _, _) => if loop == CommitCleanup then 5 else 15
    case GetWaiter => 3
    case Unpark => 2
    case ReadOutcome => 1
    case Park => 6
    case ReadRequest => 5
    case Poll => 1
    case _ => 0
  }

  /** A decided wait ends: every own step of the waiter uses up one of at most sixteen, and it never parks anew. */
  lemma DecidedWaitEnds(moves: seq<Move>, m: Move)
    requires IsRun(moves) && m.actor == Waiter && Enabled(Run(moves), m)
    requires IsTerminal(Run(moves).shared.outcome)
    ensures var next := PcOf(Apply(Run(moves), m), Waiter);
            next != Park && WaiterStepsLeft(next) < WaiterStepsLeft(PcOf(Run(moves), Waiter)) <= 16
  {
    RunsKeep(moves);
    var s := Run(moves);
    assert ActorKept(Waiter, PcOf(s, Waiter), s.shared);
    WaiterStepsFall(PcOf(s, Waiter), s.shared, m.status);
  }

  lemma WaiterStepsFall(pc: Pc, w: Shared, status: nat)
    requires !Stopped(pc) && ActorKept(Waiter, pc, w) && WaiterKept(pc, w) && IsTerminal(w.outcome)
    ensures var next := Step(Waiter, pc, w, status).1;
            next != Park && WaiterStepsLeft(next) < WaiterStepsLeft(pc) <= 16
  {
  }

  // ----- the operations themselves, with the other threads acting between any two accesses

  /** What threads other than the waiter can make of the outcome. */
  predicate OthersMay(before: int, after: int) {
    || after == before
    || (before == PENDING && after == CLOSING)
    || (before == ADMITTING && (after == CLEANUP_ADMITTING || after >= 0))
    || (before == WAITING && (after == CLOSING || after >= 0))
  }

  /** What the other threads do between two accesses of a thread, the waiter or another one. */
  predicate Interference(waiting: bool, v: Shared, w: Shared) {
    Advances(v, w) && (waiting ==> OthersMay(v.outcome, w.outcome) && w.waiterRegistered == v.waiterRegistered)
  }

  lemma InterferenceComposes(waiting: bool, u: Shared, v: Shared, w: Shared)
    requires Interference(waiting, u, v) && Interference(waiting, v, w)
    ensures Interference(waiting, u, w)
  {
  }

  /** Every step of another actor in a run is interference as assumed here. */
  lemma StepsInterfere(moves: seq<Move>, m: Move, waiting: bool)
    requires IsRun(moves) && Enabled(Run(moves), m) && (waiting ==> m.actor != Waiter)
    ensures Interference(waiting, Run(moves).shared, Apply(Run(moves), m).shared)
  {
    RunsKeep(moves);
    var s := Run(moves);
    assert ActorKept(m.actor, PcOf(s, m.actor), s.shared);
    StepAdvances(m.actor, PcOf(s, m.actor), s.shared, m.status);
    if waiting {
      OtherStepsInterfere(m.actor, PcOf(s, m.actor), s.shared, m.status);
    }
  }

  lemma OtherStepsInterfere(actor: Actor, pc: Pc, w: Shared, status: nat)
    requires actor != Waiter && ActorKept(actor, pc, w) && (actor == Acknowledger && !pc.Idle? ==> w.outcome != PENDING)
    ensures OthersMay(w.outcome, Step(actor, pc, w, status).0.outcome)
    ensures Step(actor, pc, w, status).0.waiterRegistered == w.waiterRegistered
  {
  }

  /** What a request to close makes of an outcome that nobody else touches. */
  function Closed(outcome: int): int {
    if outcome >= 0 || outcome == CLEANUP_ADMITTING then outcome
    else if outcome == ADMITTING then CLEANUP_ADMITTING
    else CLOSING
  }

  class TerminalLatch {
    var outcome: int
    var cleanupRequested: bool
    var waiterRegistered: bool
    var token: bool
    /** What the other threads are going to do; entries that are not possible are passed over. */
    var others: seq<Shared>

    function Words(): Shared
      reads this
    {
      Shared(outcome, cleanupRequested, waiterRegistered, token)
    }

    constructor (others: seq<Shared>)
      ensures Words() == INITIAL.shared
    {
      outcome, cleanupRequested, waiterRegistered, token := PENDING, false, false, false;
      this.others := others;
    }

    method Yield(waiting: bool)
      requires IsOutcome(outcome)
      modifies this
      ensures Interference(waiting, old(Words()), Words())
      ensures old(others) == [] ==> others == [] && Words() == old(Words())
    {
      if others != [] {
        var next := others[0];
        others := others[1..];
        if Interference(waiting, Words(), next) {
          outcome, cleanupRequested := next.outcome, next.cleanupRequested;
          waiterRegistered, token := next.waiterRegistered, next.token;
        }
      }
    }

    method CompareExchange(waiting: bool, current: int, next: int) returns (ok: bool, ghost seen: Shared)
      requires IsOutcome(outcome)
      modifies this
      ensures Interference(waiting, old(Words()), seen)
      ensures old(others) == [] ==> others == [] && seen == old(Words())
      ensures ok <==> seen.outcome == current
      ensures Words() == if ok then seen.(outcome := next) else seen
    {
      Yield(waiting);
      seen := Words();
      ok := outcome == current;
      if ok {
        outcome := next;
      }
    }

    /** Runs one of the retry loops to its end; `seen` are the words at its last access. */
    method RunLoop(waiting: bool, loop: Loop) returns (wrote: bool, ghost seen: Shared, ghost failures: nat)
      requires IsOutcome(outcome)
      modifies this
      ensures Interference(waiting, old(Words()), seen) && failures <= 3
      ensures wrote <==> Proposal(loop, seen.outcome).Some?
      ensures Words() == if wrote then seen.(outcome := Proposal(loop, seen.outcome).value) else seen
      ensures IsOutcome(outcome) && Rank(seen.outcome) <= Rank(outcome)
      ensures old(others) == [] ==> others == [] && seen == old(Words())
    {
      failures := 0;
      while true
        invariant IsOutcome(outcome) && failures <= Rank(outcome)
        invariant old(others) == [] ==> others == [] && Words() == old(Words())
        invariant Interference(waiting, old(Words()), Words())
        decreases 3 - failures
      {
        ghost var before := Words();
        Yield(waiting);
        InterferenceComposes(waiting, old(Words()), before, Words());
        before := Words();
        var current := outcome;
        var next := Proposal(loop, current);
        if next.None? {
          return false, before, failures;
        }
        ProposalsRise(loop, current);
        var ok;
        ok, seen := CompareExchange(waiting, current, next.value);
        InterferenceComposes(waiting, old(Words()), before, seen);
        if ok {
          return true, seen, failures;
        }
        failures := failures + 1;
      }
    }

    method UnparkWaiter(waiting: bool)
      requires IsOutcome(outcome)
      modifies this
      ensures Interference(waiting, old(Words()), Words())
      ensures waiterRegistered ==> token
      ensures old(others) == [] ==> others == [] && Words() == old(Words()).(token := token)
    {
      Yield(waiting);
      if waiterRegistered {
        ghost var before := Words();
        Yield(waiting);
        InterferenceComposes(waiting, old(Words()), before, Words());
        token := true;
      }
    }

    /**
     An acknowledgement is over only when the outcome is decided or left to the admission. On its own it
     decides an outcome that nobody has decided, and only that.
     */
    method Acknowledge(status: nat) returns (committed: bool)
      requires IsOutcome(outcome)
      modifies this
      ensures IsTerminal(old(outcome)) ==> !committed && outcome == old(outcome)
      ensures old(others) == [] ==>
        && (committed <==> old(outcome) in {PENDING, ADMITTING, WAITING})
        && (!committed ==> outcome == old(outcome))
      ensures IsTerminal(outcome) || outcome == CLEANUP_ADMITTING
      ensures committed ==> outcome == status && (waiterRegistered ==> token)
    {
      ghost var seen;
      ghost var failures;
      committed, seen, failures := RunLoop(false, CommitStatus(status));
      if committed {
        UnparkWaiter(false);
      }
    }

    method CommitCleanupIfRequested(waiting: bool)
      requires IsOutcome(outcome)
      modifies this
      ensures IsOutcome(outcome) && Rank(old(outcome)) <= Rank(outcome)
      ensures old(cleanupRequested) ==> cleanupRequested && (IsTerminal(outcome) || outcome == CLEANUP_ADMITTING)
      ensures waiting ==> waiterRegistered == old(waiterRegistered)
      ensures waiting && (old(outcome) == WAITING || IsTerminal(old(outcome))) ==>
        outcome == WAITING || IsTerminal(outcome)
      ensures old(others) == [] ==> others == []
      ensures old(others) == [] ==>
        Words() == old(Words()).(outcome := if old(cleanupRequested) then Closed(old(outcome)) else old(outcome))
    {
      Yield(waiting);
      if !cleanupRequested {
        return;
      }
      ghost var before := Words();
      var wrote;
      ghost var seen;
      ghost var failures;
      wrote, seen, failures := RunLoop(waiting, CommitCleanup);
    }

    /** A cleanup call; on its own it closes the latch, or has the admission under way close it. */
    method CloseForCleanup()
      requires IsOutcome(outcome)
      modifies this
      ensures old(others) == [] ==> outcome == Closed(old(outcome))
      ensures cleanupRequested && (IsTerminal(outcome) || outcome == CLEANUP_ADMITTING)
      ensures waiterRegistered ==> token
    {
      Yield(false);
      cleanupRequested := true;
      CommitCleanupIfRequested(false);
      UnparkWaiter(false);
    }

    /**
     Admits the terminal callback, enqueues it and waits for its acknowledgement; a latch that cleanup
     has closed before is answered without enqueueing. `wakeups` bounds how often the park returns; no
     status means that the waiter is still parked then.
     */
    method EnqueueTerminalAndWait(enqueueStatus: nat, wakeups: nat) returns (status: Option<nat>, enqueued: bool)
      requires (outcome == PENDING && !waiterRegistered) || IsTerminal(outcome)
      modifies this
      ensures status.Some? ==> IsTerminal(outcome) && status == StatusFor(outcome)
      ensures status.None? ==> enqueued && enqueueStatus == OK && waiterRegistered
      ensures IsTerminal(old(outcome)) ==> !enqueued && outcome == old(outcome)
      ensures old(outcome) == PENDING ==> enqueued == waiterRegistered
      ensures old(outcome) == PENDING && !enqueued ==> outcome == CLOSING
      ensures old(outcome) == PENDING && old(others) == [] ==>
        && enqueued
        && (enqueueStatus != OK ==> status == Some(enqueueStatus))
        && (enqueueStatus == OK ==>
          if old(cleanupRequested) then status == Some(CLOSING_STATUS) else status.None? && outcome == WAITING)
    {
      ghost var seen;
      enqueued, seen := CompareExchange(true, PENDING, ADMITTING);
      if !enqueued {
        status := CommittedStatus();
        return;
      }
      Yield(true);
      waiterRegistered := true;
      var wrote;
      ghost var failures;
      if enqueueStatus != OK {
        wrote, seen, failures := RunLoop(true, CommitEnqueueFailure(enqueueStatus));
        if wrote {
          UnparkWaiter(true);
        }
        Yield(true);
        status := CommittedStatus();
        return;
      }
      wrote, seen, failures := RunLoop(true, CompleteAdmission);
      CommitCleanupIfRequested(true);
      var parked := 0;
      while true
        invariant parked <= wakeups && waiterRegistered && (outcome == WAITING || IsTerminal(outcome))
        invariant old(outcome) == PENDING && old(others) == [] ==>
          && others == [] && cleanupRequested == old(cleanupRequested)
          && outcome == if cleanupRequested then CLOSING else WAITING
        decreases wakeups - parked
      {
        Yield(true);
        if IsTerminal(outcome) {
          status := CommittedStatus();
          return;
        }
        if parked == wakeups {
          return None, enqueued;
        }
        Yield(true);
        token := false;
        parked := parked + 1;
        CommitCleanupIfRequested(true);
      }
    }

    /** The status of the outcome; an outcome that is not decided would be the unreachable branch. */
    method CommittedStatus() returns (status: Option<nat>)
      requires IsTerminal(outcome)
      ensures status == StatusFor(outcome) && status.Some?
    {
      status := Some(if outcome == CLOSING then CLOSING_STATUS else outcome);
    }
  }
}
