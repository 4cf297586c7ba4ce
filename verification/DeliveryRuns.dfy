/**
 Event delivery and the terminal latch together, in any interleaving: the job's thread emits events and
 then waits in the latch, callbacks report failures and acknowledge, the environment cleans up.
 */
module DeliveryRuns {
  import opened Wrappers
  import opened TerminalLatches
  import opened EventPipeline

  /** One atomic step of any thread. */
  datatype Act = Work(op: Op) | Access(move: Move) | RecordWait

  /** `recorded` tells that the terminal call is over, its status recorded. */
  datatype System = System(view: View, latch: State, recorded: bool)

  const START := System(NOTHING, INITIAL, false)

  function WaiterPc(s: System): Pc {
    PcOf(s.latch, Waiter)
  }

  /** Events are emitted by the thread that waits in the latch, callbacks report from another one. */
  predicate CanAct(s: System, act: Act) {
    match act
    case Work(op) => op.CallbackFailed? || (op.Emit? && (WaiterPc(s).Idle? || s.recorded))
    case Access(move) => Enabled(s.latch, move)
    case RecordWait => WaiterPc(s).Returned? && !s.recorded
  }

  /** What a step means to the pipeline: the terminal frame is handed over in the middle of the admission. */
  function OpsOf(s: System, act: Act): seq<Op> {
    match act
    case Work(op) => [op]
    case Access(move) =>
      if move.actor != Waiter then []
      else if WaiterPc(s).Idle? && s.latch.shared.outcome != PENDING then [CallTerminal(false)]
      else if WaiterPc(s).Enqueue? then [CallTerminal(true)]
      else []
    case RecordWait => if WaiterPc(s).Returned? then [WaitReturned(WaiterPc(s).status)] else []
  }

  function Next(s: System, act: Act, emitStateSnapshots: bool): System {
    var ops := OpsOf(s, act);
    System(
      if ops == [] then s.view else Effect(s.view, ops[0], emitStateSnapshots),
      if act.Access? then Apply(s.latch, act.move) else s.latch,
      s.recorded || act.RecordWait?)
  }

  function After(acts: seq<Act>, emitStateSnapshots: bool): System {
    if acts == [] then START
    else Next(After(acts[..|acts| - 1], emitStateSnapshots), acts[|acts| - 1], emitStateSnapshots)
  }

  predicate IsHistory(acts: seq<Act>, emitStateSnapshots: bool) {
    acts != [] ==>
      && IsHistory(acts[..|acts| - 1], emitStateSnapshots)
      && CanAct(After(acts[..|acts| - 1], emitStateSnapshots), acts[|acts| - 1])
  }

  /** The pipeline's part of a history. */
  function StoryOf(acts: seq<Act>, emitStateSnapshots: bool): seq<Op> {
    if acts == [] then []
    else
      var init := acts[..|acts| - 1];
      StoryOf(init, emitStateSnapshots) + OpsOf(After(init, emitStateSnapshots), acts[|acts| - 1])
  }

  /** The latch's part of a history. */
  function Accesses(acts: seq<Act>): seq<Move> {
    if acts == [] then []
    else
      var last := acts[|acts| - 1];
      Accesses(acts[..|acts| - 1]) + if last.Access? then [last.move] else []
  }

  // ----- histories that there are

  function WorkActs(work: seq<Op>): seq<Act> {
    if work == [] then [] else WorkActs(work[..|work| - 1]) + [Work(work[|work| - 1])]
  }

  function AccessActs(moves: seq<Move>): seq<Act> {
    if moves == [] then [] else AccessActs(moves[..|moves| - 1]) + [Access(moves[|moves| - 1])]
  }

  /** Any work followed by any run of the latch is a history. */
  lemma {:induction false} RunsAreHistories(work: seq<Op>, moves: seq<Move>, emitStateSnapshots: bool)
    requires IsRun(moves) && forall op | op in work :: IsWork(op)
    ensures var acts := WorkActs(work) + AccessActs(moves);
            IsHistory(acts, emitStateSnapshots) && After(acts, emitStateSnapshots).latch == Run(moves)
  {
    var before := WorkActs(work);
    if moves == [] {
      assert before + AccessActs(moves) == before;
      WorkIsHistory(work, emitStateSnapshots);
    } else {
      var init, m := moves[..|moves| - 1], moves[|moves| - 1];
      RunsAreHistories(work, init, emitStateSnapshots);
      assert before + AccessActs(moves) == before + AccessActs(init) + [Access(m)];
      AccessGoesOn(before + AccessActs(init), Run(init), m, emitStateSnapshots);
    }
  }

  lemma {:induction false} AccessGoesOn(acts: seq<Act>, latch: State, m: Move, emitStateSnapshots: bool)
    requires IsHistory(acts, emitStateSnapshots) && After(acts, emitStateSnapshots).latch == latch && Enabled(latch, m)
    ensures var longer := acts + [Access(m)];
            IsHistory(longer, emitStateSnapshots) && After(longer, emitStateSnapshots).latch == Apply(latch, m)
  {
    NextIsHistory(acts, Access(m), emitStateSnapshots);
  }

  ghost predicate WorkDone(acts: seq<Act>, work: seq<Op>, emitStateSnapshots: bool) {
    && IsHistory(acts, emitStateSnapshots) && After(acts, emitStateSnapshots).latch == INITIAL
    && StoryOf(acts, emitStateSnapshots) == work
  }

  lemma {:induction false} WorkIsHistory(work: seq<Op>, emitStateSnapshots: bool)
    requires forall op | op in work :: IsWork(op)
    ensures WorkDone(WorkActs(work), work, emitStateSnapshots)
  {
    if work != [] {
      var init, op := work[..|work| - 1], work[|work| - 1];
      WorkIsHistory(init, emitStateSnapshots);
      assert IsWork(op) && work == init + [op];
      WorkGoesOn(WorkActs(init), init, op, emitStateSnapshots);
    }
  }

  lemma {:induction false} WorkGoesOn(acts: seq<Act>, work: seq<Op>, op: Op, emitStateSnapshots: bool)
    requires WorkDone(acts, work, emitStateSnapshots) && IsWork(op)
    ensures WorkDone(acts + [Work(op)], work + [op], emitStateSnapshots)
  {
    NextIsHistory(acts, Work(op), emitStateSnapshots);
  }

  lemma {:induction false} NextIsHistory(acts: seq<Act>, act: Act, emitStateSnapshots: bool)
    requires IsHistory(acts, emitStateSnapshots) && CanAct(After(acts, emitStateSnapshots), act)
    ensures IsHistory(acts + [act], emitStateSnapshots)
    ensures After(acts + [act], emitStateSnapshots) == Next(After(acts, emitStateSnapshots), act, emitStateSnapshots)
    ensures StoryOf(acts + [act], emitStateSnapshots)
         == StoryOf(acts, emitStateSnapshots) + OpsOf(After(acts, emitStateSnapshots), act)
  {
    assert (acts + [act])[..|acts|] == acts;
  }

  // ----- the two parts go on as they do alone

  /** In a history the latch runs as it does alone. */
  lemma {:induction false} LatchRuns(acts: seq<Act>, emitStateSnapshots: bool)
    requires IsHistory(acts, emitStateSnapshots)
    ensures IsRun(Accesses(acts)) && Run(Accesses(acts)) == After(acts, emitStateSnapshots).latch
  {
    if acts != [] {
      var init, last := acts[..|acts| - 1], acts[|acts| - 1];
      LatchRuns(init, emitStateSnapshots);
      if last.Access? {
        assert (Accesses(init) + [last.move])[..|Accesses(init)|] == Accesses(init);
      } else {
        assert Accesses(acts) == Accesses(init);
      }
    }
  }

  /** In a history the pipeline runs through the history's story. */
  lemma {:induction false} PipelineRuns(acts: seq<Act>, emitStateSnapshots: bool)
    ensures Tracks(After(acts, emitStateSnapshots).view, StoryOf(acts, emitStateSnapshots), emitStateSnapshots)
  {
    if acts != [] {
      var init := acts[..|acts| - 1];
      PipelineRuns(init, emitStateSnapshots);
      StepRuns(After(init, emitStateSnapshots), StoryOf(init, emitStateSnapshots),
        acts[|acts| - 1], emitStateSnapshots);
    }
  }

  lemma StepRuns(s: System, story: seq<Op>, act: Act, emitStateSnapshots: bool)
    requires Tracks(s.view, story, emitStateSnapshots)
    ensures Tracks(Next(s, act, emitStateSnapshots).view, story + OpsOf(s, act), emitStateSnapshots)
  {
    var ops := OpsOf(s, act);
    if ops == [] {
      assert story + ops == story;
    } else {
      assert ops == [ops[0]];
      TracksLonger(s.view, story, ops[0], emitStateSnapshots);
    }
  }

  /** The terminal frame has been handed to the transport. */
  predicate HandedOver(s: System) {
    s.latch.shared.waiterRegistered && !WaiterPc(s).Enqueue?
  }

  predicate Called(pc: Pc) {
    !pc.Idle? && !pc.Register? && !pc.Enqueue?
  }

  predicate ClosedByCleanup(commits: seq<Commit>) {
    forall i | 0 <= i < |commits| :: commits[i].actor.Cleanup?
  }

  /** How far the terminal call has come, in the story and in the latch. */
  predicate PhaseKept(s: System, called: bool, admitted: bool) {
    var pc := WaiterPc(s);
    && called == Called(pc)
    && admitted == HandedOver(s)
    && (admitted ==> called)
    && (s.recorded ==> pc.Returned?)
    && (called && !admitted ==> pc.Returned? && s.latch.shared.outcome == CLOSING)
    && (!s.latch.shared.waiterRegistered && !pc.Register? ==> ClosedByCleanup(s.latch.commits))
  }

  lemma {:induction false} PhasesKept(acts: seq<Act>, emitStateSnapshots: bool)
    requires IsHistory(acts, emitStateSnapshots)
    ensures var story := StoryOf(acts, emitStateSnapshots);
            PhaseKept(After(acts, emitStateSnapshots), TerminalIn(story), Admitted(story))
  {
    if acts != [] {
      var init, last := acts[..|acts| - 1], acts[|acts| - 1];
      PhasesKept(init, emitStateSnapshots);
      LatchRuns(init, emitStateSnapshots);
      RunsKeep(Accesses(init));
      StepKeepsPhase(After(init, emitStateSnapshots), last, StoryOf(init, emitStateSnapshots), emitStateSnapshots);
    }
  }

  lemma StepKeepsPhase(s: System, act: Act, story: seq<Op>, emitStateSnapshots: bool)
    requires Kept(s.latch) && CanAct(s, act) && PhaseKept(s, TerminalIn(story), Admitted(story))
    ensures var longer := story + OpsOf(s, act);
            PhaseKept(Next(s, act, emitStateSnapshots), TerminalIn(longer), Admitted(longer))
  {
    var ops := OpsOf(s, act);
    if ops == [] {
      assert story + ops == story;
    } else {
      assert ops == [ops[0]];
      TerminalInLonger(story, ops[0]);
      AdmittedLonger(story, ops[0]);
    }
    if act.Access? {
      AccessKeepsPhase(s, act.move, emitStateSnapshots, TerminalIn(story), Admitted(story));
    }
  }

  lemma AccessKeepsPhase(s: System, move: Move, emitStateSnapshots: bool, called: bool, admitted: bool)
    requires Kept(s.latch) && Enabled(s.latch, move) && PhaseKept(s, called, admitted)
    ensures var ops := OpsOf(s, Access(move));
            PhaseKept(Next(s, Access(move), emitStateSnapshots), called || ops != [],
              admitted || (ops == [CallTerminal(true)] && !called))
  {
    assert ActorKept(move.actor, PcOf(s.latch, move.actor), s.latch.shared);
    StepAdvances(move.actor, PcOf(s.latch, move.actor), s.latch.shared, move.status);
  }

  // ----- what every history keeps

  /**
   Over every interleaving the transport has got the unfiltered events under their own ordinals, and
   after them, exactly when the latch has let the terminal call through its admission to the transport,
   one terminal frame that counts the events.
   */
  lemma FramesOfHistory(acts: seq<Act>, emitStateSnapshots: bool)
    requires IsHistory(acts, emitStateSnapshots)
    ensures var s, events := After(acts, emitStateSnapshots), Emitted(StoryOf(acts, emitStateSnapshots));
            s.view.sent == Numbered(events, emitStateSnapshots) + if HandedOver(s) then [Terminal(|events|)] else []
  {
    PipelineRuns(acts, emitStateSnapshots);
    PhasesKept(acts, emitStateSnapshots);
  }

  /** What the latch promises of a returned wait. */
  predicate Decided(latch: State) {
    var pc := PcOf(latch, Waiter);
    pc.Returned? ==>
      && StatusFor(latch.shared.outcome) == Some(pc.status)
      && latch.commits != [] && latch.commits[|latch.commits| - 1].value == latch.shared.outcome
      && (pc.status == OK ==> AcknowledgedFirst(latch.commits))
  }

  /** An Ok acknowledgement was committed, and no cleanup has written to the latch. */
  predicate AcknowledgedFirst(commits: seq<Commit>) {
    && commits != [] && commits[|commits| - 1] == Commit(Acknowledger, OK)
    && forall i | 0 <= i < |commits| :: !IsCleanupWrite(commits[i])
  }

  lemma HistoryDecides(acts: seq<Act>, emitStateSnapshots: bool)
    requires IsHistory(acts, emitStateSnapshots)
    ensures Decided(After(acts, emitStateSnapshots).latch)
  {
    LatchRuns(acts, emitStateSnapshots);
    var latch := Run(Accesses(acts));
    if PcOf(latch, Waiter).Returned? {
      WaitReturnsTheDecision(Accesses(acts));
    }
  }

  /** The terminal call returns a status that transport or acknowledgement gave, or the closing one after a cleanup. */
  lemma WaitStatusIsGiven(acts: seq<Act>, emitStateSnapshots: bool)
    requires IsHistory(acts, emitStateSnapshots) && WaiterPc(After(acts, emitStateSnapshots)).Returned?
    ensures var status := WaiterPc(After(acts, emitStateSnapshots)).status;
            status in Given(Accesses(acts)) || (status == CLOSING_STATUS && CleanupActed(Accesses(acts)))
  {
    LatchRuns(acts, emitStateSnapshots);
    DecisionIsGiven(Accesses(acts));
  }

  /** The terminal call has returned without being admitted. */
  predicate Refused(s: System) {
    WaiterPc(s).Returned? && !s.latch.shared.waiterRegistered
  }

  predicate RefusedByCleanup(s: System) {
    && WaiterPc(s).Returned? && WaiterPc(s).status == CLOSING_STATUS
    && s.latch.commits != [] && s.latch.commits[|s.latch.commits| - 1].value == CLOSING
    && ClosedByCleanup(s.latch.commits)
  }

  lemma RefusedState(s: System, called: bool, admitted: bool)
    requires PhaseKept(s, called, admitted) && Decided(s.latch) && Refused(s)
    ensures RefusedByCleanup(s)
  {
  }

  /**
   A call is refused only because cleanup closed the latch before, and returns the closing status, which
   becomes the job's failure unless there is an earlier one; the transport gets no terminal frame.
   */
  lemma RefusedCall(acts: seq<Act>, emitStateSnapshots: bool)
    requires IsHistory(acts, emitStateSnapshots) && Refused(After(acts, emitStateSnapshots))
    ensures var s := After(acts, emitStateSnapshots);
            && RefusedByCleanup(s) && AllCore(s.view.sent)
            && Next(s, RecordWait, emitStateSnapshots).view.first == Recorded(s.view.first, CLOSING_STATUS)
  {
    var s, story := After(acts, emitStateSnapshots), StoryOf(acts, emitStateSnapshots);
    PhasesKept(acts, emitStateSnapshots);
    HistoryDecides(acts, emitStateSnapshots);
    RefusedState(s, TerminalIn(story), Admitted(story));
    RefusedFrames(acts, emitStateSnapshots);
  }

  lemma RefusedFrames(acts: seq<Act>, emitStateSnapshots: bool)
    requires IsHistory(acts, emitStateSnapshots) && Refused(After(acts, emitStateSnapshots))
    ensures AllCore(After(acts, emitStateSnapshots).view.sent)
  {
    FramesOfHistory(acts, emitStateSnapshots);
    NumberedAreCore(Emitted(StoryOf(acts, emitStateSnapshots)), emitStateSnapshots);
  }

  lemma {:induction false} NumberedAreCore(events: seq<Event>, emitStateSnapshots: bool)
    ensures AllCore(Numbered(events, emitStateSnapshots))
  {
    if events != [] {
      NumberedAreCore(events[..|events| - 1], emitStateSnapshots);
    }
  }

  predicate AllCore(frames: seq<Frame>) {
    forall i | 0 <= i < |frames| :: frames[i].Core?
  }

  /** The job's failure is the first of the story's failures. */
  lemma FailureOfHistory(acts: seq<Act>, emitStateSnapshots: bool)
    requires IsHistory(acts, emitStateSnapshots)
    ensures After(acts, emitStateSnapshots).view.first
         == First(Failures(StoryOf(acts, emitStateSnapshots), emitStateSnapshots))
  {
    PipelineRuns(acts, emitStateSnapshots);
  }

  /** The wait's own status is among the failures when it is one. */
  ghost predicate WaitCounted(s: System, story: seq<Op>, emitStateSnapshots: bool) {
    s.recorded ==>
      && WaiterPc(s).Returned?
      && (WaiterPc(s).status != OK ==> Failures(story, emitStateSnapshots) != [])
  }

  lemma StepCountsWait(s: System, act: Act, story: seq<Op>, emitStateSnapshots: bool)
    requires CanAct(s, act) && WaitCounted(s, story, emitStateSnapshots)
    ensures WaitCounted(Next(s, act, emitStateSnapshots), story + OpsOf(s, act), emitStateSnapshots)
  {
    var ops := OpsOf(s, act);
    if ops == [] {
      assert story + ops == story;
    } else {
      assert (story + ops)[..|story|] == story;
    }
  }

  lemma {:induction false} WaitIsRecorded(acts: seq<Act>, emitStateSnapshots: bool)
    requires IsHistory(acts, emitStateSnapshots)
    ensures WaitCounted(After(acts, emitStateSnapshots), StoryOf(acts, emitStateSnapshots), emitStateSnapshots)
  {
    if acts != [] {
      var init := acts[..|acts| - 1];
      WaitIsRecorded(init, emitStateSnapshots);
      StepCountsWait(After(init, emitStateSnapshots), acts[|acts| - 1],
        StoryOf(init, emitStateSnapshots), emitStateSnapshots);
    }
  }

  /**
   A finished job without a failure has delivered everything: every unfiltered event and the terminal
   frame, acknowledged with Ok before any cleanup wrote to the latch, and no callback has failed.
   */
  lemma NoFailureMeansDelivered(acts: seq<Act>, emitStateSnapshots: bool)
    requires IsHistory(acts, emitStateSnapshots)
    requires After(acts, emitStateSnapshots).recorded
      && After(acts, emitStateSnapshots).view.first == NO_DELIVERY_FAILURE
    ensures var s, story := After(acts, emitStateSnapshots), StoryOf(acts, emitStateSnapshots);
            && s.view.sent == Numbered(Emitted(story), emitStateSnapshots) + [Terminal(|Emitted(story)|)]
            && Failures(story, emitStateSnapshots) == []
            && AcknowledgedFirst(s.latch.commits)
  {
    FramesOfHistory(acts, emitStateSnapshots);
    FailureOfHistory(acts, emitStateSnapshots);
    FinishedWithoutFailure(acts, emitStateSnapshots);
  }

  lemma FinishedWithoutFailure(acts: seq<Act>, emitStateSnapshots: bool)
    requires IsHistory(acts, emitStateSnapshots) && After(acts, emitStateSnapshots).recorded
    requires Failures(StoryOf(acts, emitStateSnapshots), emitStateSnapshots) == []
    ensures var s := After(acts, emitStateSnapshots); HandedOver(s) && AcknowledgedFirst(s.latch.commits)
  {
    var s, story := After(acts, emitStateSnapshots), StoryOf(acts, emitStateSnapshots);
    PhasesKept(acts, emitStateSnapshots);
    HistoryDecides(acts, emitStateSnapshots);
    WaitIsRecorded(acts, emitStateSnapshots);
    if Refused(s) {
      RefusedState(s, TerminalIn(story), Admitted(story));
    }
  }
}
