/**
 Event delivery of a job: the core's sequencer numbers the events, the sink filters state snapshots,
 the bridge checks the ordinals, appends one terminal frame if the terminal latch admits it, and keeps
 the first delivery failure.
 */
module EventPipeline {
  import opened Wrappers
  import opened TerminalLatches

  const U64_MAX := 0xFFFF_FFFF_FFFF_FFFF
  const INVALID_ARG := 1
  const NO_DELIVERY_FAILURE := -1

  datatype Event = Event(isStateSnapshot: bool, payload: string)

  datatype Frame = Core(ordinal: nat, event: Event) | Terminal(ordinal: nat)

  // ----- the components

  /** Keeps the first status recorded: a compare-exchange from the empty value. */
  class DeliveryFailure {
    var first: int

    constructor ()
      ensures first == NO_DELIVERY_FAILURE
    {
      first := NO_DELIVERY_FAILURE;
    }

    method Record(status: nat)
      modifies this
      ensures first == if old(first) == NO_DELIVERY_FAILURE then status else old(first)
    {
      if first == NO_DELIVERY_FAILURE {
        first := status;
      }
    }

    /** Callbacks report these failures one after the other. */
    method RecordAll(statuses: seq<nat>)
      modifies this
      ensures first == RecordedAll(old(first), statuses)
    {
      for k := 0 to |statuses|
        invariant first == RecordedAll(old(first), statuses[..k])
      {
        Record(statuses[k]);
        assert statuses[..k + 1][0] == statuses[0];
      }
      assert statuses[..|statuses|] == statuses;
    }

    function Status(): Option<nat>
      reads this
    {
      if first < 0 then None else Some(first)
    }
  }

  class EventBridge {
    var nextOrdinal: nat
    var terminalEmitted: bool
    const latch: TerminalLatch
    const failure: DeliveryFailure
    /** The frames handed to the callback transport. */
    var sent: seq<Frame>

    constructor (latch: TerminalLatch)
      ensures nextOrdinal == 0 && !terminalEmitted && sent == [] && this.latch == latch
      ensures fresh(failure) && failure.first == NO_DELIVERY_FAILURE
    {
      nextOrdinal, terminalEmitted, sent := 0, false, [];
      this.latch := latch;
      failure := new DeliveryFailure();
    }

    /** `deliver` is absent for an event that only advances the ordinal. */
    method DeliverCore(ordinal: nat, event: Event, deliver: Option<nat>) returns (status: nat)
      modifies this, failure
      ensures terminalEmitted == old(terminalEmitted)
      ensures old(terminalEmitted) ==>
        status == OK && nextOrdinal == old(nextOrdinal) && sent == old(sent) && failure.first == old(failure.first)
      ensures !old(terminalEmitted) && (ordinal >= U64_MAX || ordinal != old(nextOrdinal)) ==>
        && status == INVALID_ARG && nextOrdinal == old(nextOrdinal) && sent == old(sent)
        && failure.first == Recorded(old(failure.first), INVALID_ARG)
      ensures !old(terminalEmitted) && ordinal < U64_MAX && ordinal == old(nextOrdinal) ==>
        && nextOrdinal == ordinal + 1
        && sent == old(sent) + (if deliver.Some? then [Core(ordinal, event)] else [])
        && status == (if deliver.Some? then deliver.value else OK)
        && failure.first == (if status != OK then Recorded(old(failure.first), status) else old(failure.first))
    {
      if terminalEmitted {
        return OK;
      }
      if ordinal >= U64_MAX || ordinal != nextOrdinal {
        failure.Record(INVALID_ARG);
        return INVALID_ARG;
      }
      nextOrdinal := ordinal + 1;
      status := OK;
      if deliver.Some? {
        sent := sent + [Core(ordinal, event)];
        status := deliver.value;
      }
      if status != OK {
        failure.Record(status);
      }
    }

    /**
     Hands the terminal frame to the transport, whose answer is `enqueueStatus`, if the latch admits it,
     and waits for its acknowledgement. Meanwhile the callbacks of core frames report the failures
     `reported`. No status means that the wait is still going on after `wakeups` returns of the park.
     */
    method EmitTerminalAndWait(enqueueStatus: nat, wakeups: nat, reported: seq<nat>)
      returns (status: Option<nat>, enqueued: bool)
      requires !terminalEmitted ==> Unused(latch.Words())
      modifies this, failure, latch
      ensures terminalEmitted
      ensures old(terminalEmitted) ==>
        && status == Some(OK) && !enqueued && nextOrdinal == old(nextOrdinal) && sent == old(sent)
        && failure.first == old(failure.first) && latch.Words() == old(latch.Words())
      ensures !old(terminalEmitted) ==>
        && sent == old(sent) + (if enqueued then [Terminal(old(nextOrdinal))] else [])
        && failure.first == RecordedAll(old(failure.first), reported + FailingWait(status))
        && (status.None? ==> enqueued && enqueueStatus == OK)
        && (status.Some? ==> IsTerminal(latch.outcome) && status == StatusFor(latch.outcome))
      ensures !old(terminalEmitted) && IsTerminal(old(latch.outcome)) ==>
        !enqueued && status == StatusFor(old(latch.outcome))
      ensures !old(terminalEmitted) && old(latch.outcome) == PENDING ==>
        && (!enqueued ==> status == Some(CLOSING_STATUS))
        && (old(latch.others) == [] ==> enqueued && (enqueueStatus != OK ==> status == Some(enqueueStatus)))
    {
      if terminalEmitted {
        return Some(OK), false;
      }
      terminalEmitted := true;
      var frame := Terminal(nextOrdinal);
      nextOrdinal := if nextOrdinal < U64_MAX then nextOrdinal + 1 else nextOrdinal;
      status, enqueued := latch.EnqueueTerminalAndWait(enqueueStatus, wakeups);
      if enqueued {
        sent := sent + [frame];
      }
      failure.RecordAll(reported);
      if status.Some? && status.value != OK {
        failure.Record(status.value);
      }
    }
  }

  /** No terminal callback has been admitted to the latch; cleanup may have closed it. */
  predicate Unused(w: Shared) {
    (w.outcome == PENDING && !w.waiterRegistered) || IsTerminal(w.outcome)
  }

  function FailingWait(status: Option<nat>): seq<nat> {
    if status.Some? && status.value != OK then [status.value] else []
  }

  function RecordedAll(first: int, statuses: seq<nat>): int {
    if statuses == [] then first else Recorded(first, statuses[0])
  }

  function Recorded(first: int, status: nat): int {
    if first == NO_DELIVERY_FAILURE then status else first
  }

  class EventSequencer {
    var nextOrdinal: nat
    const bridge: EventBridge
    const emitStateSnapshots: bool

    constructor (bridge: EventBridge, emitStateSnapshots: bool)
      ensures nextOrdinal == 0 && this.bridge == bridge && this.emitStateSnapshots == emitStateSnapshots
    {
      nextOrdinal := 0;
      this.bridge, this.emitStateSnapshots := bridge, emitStateSnapshots;
    }

    /**
     Numbers the event and passes it to the sink, which keeps state snapshots from the transport when
     they are switched off. `transport` is the status of the callback call. An exhausted ordinal panics
     before anything is emitted.
     */
    method Emit(event: Event, transport: nat) returns (panicked: bool)
      modifies this, bridge, bridge.failure
      ensures panicked <==> old(nextOrdinal) >= U64_MAX
      ensures nextOrdinal == if panicked then old(nextOrdinal) else old(nextOrdinal) + 1
      ensures bridge.terminalEmitted == old(bridge.terminalEmitted)
      ensures panicked || old(bridge.terminalEmitted) ==>
        && bridge.nextOrdinal == old(bridge.nextOrdinal) && bridge.sent == old(bridge.sent)
        && bridge.failure.first == old(bridge.failure.first)
      ensures !panicked && !old(bridge.terminalEmitted) && old(nextOrdinal) == old(bridge.nextOrdinal) ==>
        && bridge.nextOrdinal == nextOrdinal
        && bridge.sent == old(bridge.sent)
             + (if Passes(event, emitStateSnapshots) then [Core(old(nextOrdinal), event)] else [])
        && bridge.failure.first ==
             (if Passes(event, emitStateSnapshots) && transport != OK
              then Recorded(old(bridge.failure.first), transport) else old(bridge.failure.first))
    {
      var ordinal := nextOrdinal;
      if ordinal >= U64_MAX {
        return true;
      }
      nextOrdinal := ordinal + 1;
      if !emitStateSnapshots && event.isStateSnapshot {
        var _ := bridge.DeliverCore(ordinal, event, None);
      } else {
        var _ := bridge.DeliverCore(ordinal, event, Some(transport));
      }
      panicked := false;
    }

    function Observed(): View
      reads this, bridge, bridge.failure
    {
      View(nextOrdinal, bridge.nextOrdinal, bridge.terminalEmitted, bridge.sent, bridge.failure.first)
    }

    /** What happens before the terminal call: an event is emitted or a callback reports a failure. */
    method Perform(op: Op) returns (panicked: bool)
      requires IsWork(op) && (!bridge.terminalEmitted ==> nextOrdinal == bridge.nextOrdinal)
      modifies this, bridge, bridge.failure
      ensures !bridge.terminalEmitted ==> nextOrdinal == bridge.nextOrdinal
      ensures panicked <==> op.Emit? && old(nextOrdinal) >= U64_MAX
      ensures nextOrdinal == old(nextOrdinal) + if op.Emit? && !panicked then 1 else 0
      ensures Observed().Agrees(Effect(old(Observed()), op, emitStateSnapshots))
    {
      panicked := false;
      match op
      case Emit(event, transport) =>
        panicked := Emit(event, transport);
      case CallbackFailed(status) =>
        bridge.failure.Record(status);
    }

    /** The work of a job, from the beginning; its pipeline panics when the ordinals are exhausted. */
    method PerformAll(work: seq<Op>) returns (panicked: bool)
      requires forall op | op in work :: IsWork(op)
      requires Observed() == NOTHING
      modifies this, bridge, bridge.failure
      ensures !bridge.terminalEmitted && nextOrdinal == bridge.nextOrdinal
      ensures Tracks(Observed(), work, emitStateSnapshots)
      ensures panicked <==> CountEmits(work) > U64_MAX
    {
      panicked := false;
      for k := 0 to |work|
        invariant !bridge.terminalEmitted && nextOrdinal == bridge.nextOrdinal
        invariant panicked <==> CountEmits(work[..k]) > U64_MAX
        invariant nextOrdinal == if panicked then U64_MAX else CountEmits(work[..k])
        invariant Tracks(Observed(), work[..k], emitStateSnapshots)
      {
        OneMore(work, k);
        TracksLonger(Observed(), work[..k], work[k], emitStateSnapshots);
        WorkIsNoCall(Observed(), work[k], emitStateSnapshots);
        var stopped := Perform(work[k]);
        panicked := panicked || stopped;
      }
      assert work[..|work|] == work;
    }
  }

  const NOTHING := View(0, 0, false, [], NO_DELIVERY_FAILURE)

  lemma OneMore(work: seq<Op>, k: nat)
    requires k < |work|
    ensures work[..k + 1] == work[..k] + [work[k]]
    ensures CountEmits(work[..k + 1]) == CountEmits(work[..k]) + if work[k].Emit? then 1 else 0
  {
    assert work[..k + 1][..k] == work[..k];
  }

  lemma WorkIsNoCall(v: View, op: Op, emitStateSnapshots: bool)
    requires IsWork(op)
    ensures Effect(v, op, emitStateSnapshots).terminalEmitted == v.terminalEmitted
  {
  }

  /** What the pipeline has counted, sent and recorded. */
  datatype View = View(next: nat, bridgeNext: nat, terminalEmitted: bool, sent: seq<Frame>, first: int) {
    /** The bridge's own ordinal is of no consequence after the terminal frame. */
    predicate Agrees(other: View) {
      this.(bridgeNext := 0) == other.(bridgeNext := 0)
    }
  }

  /** A step of the pipeline whose sequencer and bridge count alike. */
  function Effect(v: View, op: Op, emitStateSnapshots: bool): View {
    match op
    case Emit(event, transport) =>
      if v.next >= U64_MAX then v
      else if v.terminalEmitted || !Passes(event, emitStateSnapshots) then v.(next := v.next + 1)
      else v.(next := v.next + 1, sent := v.sent + [Core(v.next, event)],
              first := if transport != OK then Recorded(v.first, transport) else v.first)
    case CallbackFailed(status) => v.(first := Recorded(v.first, status))
    case CallTerminal(admitted) =>
      if v.terminalEmitted then v
      else v.(terminalEmitted := true, sent := v.sent + if admitted then [Terminal(v.next)] else [])
    case WaitReturned(status) =>
      v.(first := if status != OK then Recorded(v.first, status) else v.first)
  }

  predicate Passes(event: Event, emitStateSnapshots: bool) {
    emitStateSnapshots || !event.isStateSnapshot
  }

  // ----- whole runs

  /**
   What happens to a job's pipeline, in order. Callbacks may report failures at any later time, also
   during the terminal call, whose frame is handed over if the latch admits it and whose wait returns
   later or never.
   */
  datatype Op =
    | Emit(event: Event, transport: nat)
    | CallbackFailed(status: nat)
    | CallTerminal(admitted: bool)
    | WaitReturned(status: nat)

  predicate IsWork(op: Op) {
    op.Emit? || op.CallbackFailed?
  }

  ghost predicate TerminalIn(ops: seq<Op>) {
    exists i :: 0 <= i < |ops| && ops[i].CallTerminal?
  }

  /** The first terminal call, the only one that reaches the latch, was admitted. */
  ghost predicate Admitted(ops: seq<Op>) {
    exists i :: 0 <= i < |ops| && ops[i] == CallTerminal(true) && !TerminalIn(ops[..i])
  }

  /** The events that the core emits before the terminal call, in order. */
  ghost function Emitted(ops: seq<Op>): (events: seq<Event>)
    ensures |events| <= U64_MAX
  {
    if ops == [] then []
    else
      var init, last := ops[..|ops| - 1], ops[|ops| - 1];
      Emitted(init) + if last.Emit? && !TerminalIn(init) && |Emitted(init)| < U64_MAX then [last.event] else []
  }

  /** Numbered from zero, with the filtered events left out but counted. */
  ghost function Numbered(events: seq<Event>, emitStateSnapshots: bool): seq<Frame> {
    if events == [] then []
    else
      var n := |events| - 1;
      Numbered(events[..n], emitStateSnapshots)
        + if Passes(events[n], emitStateSnapshots) then [Core(n, events[n])] else []
  }

  ghost function Frames(ops: seq<Op>, emitStateSnapshots: bool): seq<Frame> {
    Numbered(Emitted(ops), emitStateSnapshots) + if Admitted(ops) then [Terminal(|Emitted(ops)|)] else []
  }

  /** The failing status that `op` reports after the run `before`, if any. */
  ghost function FailureOf(before: seq<Op>, op: Op, emitStateSnapshots: bool): seq<nat> {
    match op
    case Emit(event, transport) =>
      if Passes(event, emitStateSnapshots) && transport != OK && !TerminalIn(before) && |Emitted(before)| < U64_MAX
      then [transport] else []
    case CallbackFailed(status) => [status]
    case CallTerminal(_) => []
    case WaitReturned(status) => if status != OK then [status] else []
  }

  /** The failing statuses of the transport, the callbacks and the terminal wait, in order. */
  ghost function Failures(ops: seq<Op>, emitStateSnapshots: bool): seq<nat> {
    if ops == [] then []
    else
      var init, last := ops[..|ops| - 1], ops[|ops| - 1];
      Failures(init, emitStateSnapshots) + FailureOf(init, last, emitStateSnapshots)
  }

  function First(failures: seq<nat>): int {
    if failures == [] then NO_DELIVERY_FAILURE else failures[0]
  }

  function Reported(first: int): Option<nat> {
    if first < 0 then None else Some(first)
  }

  function CallbackFailures(reported: seq<nat>): seq<Op> {
    if reported == [] then []
    else CallbackFailures(reported[..|reported| - 1]) + [CallbackFailed(reported[|reported| - 1])]
  }

  /** A job's run: its work, the terminal call with the failures reported meanwhile, and the end of the wait. */
  function Story(work: seq<Op>, admitted: bool, reported: seq<nat>, status: Option<nat>): seq<Op> {
    work + [CallTerminal(admitted)] + CallbackFailures(reported)
      + if status.Some? then [WaitReturned(status.value)] else []
  }

  function CountEmits(ops: seq<Op>): nat {
    if ops == [] then 0
    else CountEmits(ops[..|ops| - 1]) + if ops[|ops| - 1].Emit? then 1 else 0
  }

  /**
   Runs a job's pipeline on a latch that cleanup may close at any time, also before the run: the
   transport gets exactly these frames, and the first failure is reported.
   */
  method RunPipeline(latch: TerminalLatch, work: seq<Op>, emitStateSnapshots: bool,
    enqueueStatus: nat, wakeups: nat, reported: seq<nat>)
    returns (sent: seq<Frame>, status: Option<nat>, failure: Option<nat>, panicked: bool, admitted: bool)
    requires Unused(latch.Words()) && forall op | op in work :: IsWork(op)
    modifies latch
    ensures sent == Frames(Story(work, admitted, reported, status), emitStateSnapshots)
    ensures failure == Reported(First(Failures(Story(work, admitted, reported, status), emitStateSnapshots)))
    ensures status.Some? ==> IsTerminal(latch.outcome) && status == StatusFor(latch.outcome)
    ensures status.None? ==> admitted && enqueueStatus == OK
    ensures IsTerminal(old(latch.outcome)) ==> !admitted && status == StatusFor(old(latch.outcome))
    ensures old(latch.outcome) == PENDING && !admitted ==> status == Some(CLOSING_STATUS)
    ensures old(latch.outcome) == PENDING && old(latch.others) == [] ==>
      admitted && (enqueueStatus != OK ==> status == Some(enqueueStatus))
    ensures panicked <==> CountEmits(work) > U64_MAX
  {
    var bridge := new EventBridge(latch);
    var sequencer := new EventSequencer(bridge, emitStateSnapshots);
    panicked := sequencer.PerformAll(work);
    ghost var before := sequencer.Observed();
    status, admitted := bridge.EmitTerminalAndWait(enqueueStatus, wakeups, reported);
    EndOfStory(before, work, emitStateSnapshots, admitted, reported, status);
    sent, failure := bridge.sent, bridge.failure.Status();
  }

  /** What the terminal call adds to a run. */
  lemma EndOfStory(v: View, work: seq<Op>, emitStateSnapshots: bool, admitted: bool,
    reported: seq<nat>, status: Option<nat>)
    requires Tracks(v, work, emitStateSnapshots) && !v.terminalEmitted
    ensures Frames(Story(work, admitted, reported, status), emitStateSnapshots)
         == v.sent + if admitted then [Terminal(v.next)] else []
    ensures First(Failures(Story(work, admitted, reported, status), emitStateSnapshots))
         == RecordedAll(v.first, reported + FailingWait(status))
  {
    var during := work + [CallTerminal(admitted)] + CallbackFailures(reported);
    var w := AfterCall(v, work, emitStateSnapshots, admitted, reported);
    if status.Some? {
      TracksLonger(w, during, WaitReturned(status.value), emitStateSnapshots);
    } else {
      assert Story(work, admitted, reported, status) == during;
    }
  }

  lemma AfterCall(v: View, work: seq<Op>, emitStateSnapshots: bool, admitted: bool,
    reported: seq<nat>) returns (w: View)
    requires Tracks(v, work, emitStateSnapshots) && !v.terminalEmitted
    ensures w == v.(terminalEmitted := true, sent := v.sent + (if admitted then [Terminal(v.next)] else []),
                    first := RecordedAll(v.first, reported))
    ensures Tracks(w, work + [CallTerminal(admitted)] + CallbackFailures(reported), emitStateSnapshots)
  {
    var called := CallTerminal(admitted);
    TracksLonger(v, work, called, emitStateSnapshots);
    var u := Effect(v, called, emitStateSnapshots);
    FailuresReported(u, work + [called], emitStateSnapshots, reported);
    w := u.(first := RecordedAll(u.first, reported));
  }

  lemma {:induction false} FailuresReported(v: View, before: seq<Op>, emitStateSnapshots: bool, reported: seq<nat>)
    requires Tracks(v, before, emitStateSnapshots)
    ensures Tracks(v.(first := RecordedAll(v.first, reported)), before + CallbackFailures(reported), emitStateSnapshots)
  {
    if reported == [] {
      assert before + CallbackFailures(reported) == before;
    } else {
      var init, last := reported[..|reported| - 1], reported[|reported| - 1];
      FailuresReported(v, before, emitStateSnapshots, init);
      var earlier := before + CallbackFailures(init);
      TracksLonger(v.(first := RecordedAll(v.first, init)), earlier, CallbackFailed(last), emitStateSnapshots);
      assert earlier + [CallbackFailed(last)] == before + CallbackFailures(reported);
    }
  }

  /** The pipeline after the run `ops`. */
  ghost predicate Tracks(v: View, ops: seq<Op>, emitStateSnapshots: bool) {
    Shows(v, TerminalIn(ops), |Emitted(ops)|, Frames(ops, emitStateSnapshots), First(Failures(ops, emitStateSnapshots)))
  }

  predicate Shows(v: View, terminal: bool, emitted: nat, frames: seq<Frame>, first: int) {
    && v.terminalEmitted == terminal && v.sent == frames && v.first == first && first >= NO_DELIVERY_FAILURE
    && (!terminal ==> v.next == emitted)
  }

  lemma TracksLonger(v: View, before: seq<Op>, op: Op, emitStateSnapshots: bool)
    requires Tracks(v, before, emitStateSnapshots)
    ensures Tracks(Effect(v, op, emitStateSnapshots), before + [op], emitStateSnapshots)
  {
    TerminalInLonger(before, op);
    FramesLonger(before, op, emitStateSnapshots);
    FailuresLonger(before, op, emitStateSnapshots);
    var failure := FailureOf(before, op, emitStateSnapshots);
    EffectShows(v, op, emitStateSnapshots, |Emitted(before)|, failure);
    var w := Effect(v, op, emitStateSnapshots);
    assert w.sent == Frames(before + [op], emitStateSnapshots);
    assert w.first == First(Failures(before + [op], emitStateSnapshots));
  }

  lemma EffectShows(v: View, op: Op, emitStateSnapshots: bool, emitted: nat, failure: seq<nat>)
    requires !v.terminalEmitted ==> v.next == emitted
    requires failure ==
      match op
      case Emit(event, transport) =>
        if Passes(event, emitStateSnapshots) && transport != OK && !v.terminalEmitted && emitted < U64_MAX
        then [transport] else []
      case CallbackFailed(status) => [status]
      case CallTerminal(_) => []
      case WaitReturned(status) => if status != OK then [status] else []
    ensures var w := Effect(v, op, emitStateSnapshots);
            var counted := op.Emit? && !v.terminalEmitted && emitted < U64_MAX;
            && w.terminalEmitted == (v.terminalEmitted || op.CallTerminal?)
            && w.sent == v.sent
                 + (if counted && Passes(op.event, emitStateSnapshots) then [Core(emitted, op.event)]
                    else if op == CallTerminal(true) && !v.terminalEmitted then [Terminal(emitted)]
                    else [])
            && w.first == (if failure == [] then v.first else Recorded(v.first, failure[0]))
            && (!w.terminalEmitted ==> w.next == if counted then emitted + 1 else emitted)
  {
  }

  lemma FailuresLonger(before: seq<Op>, op: Op, emitStateSnapshots: bool)
    ensures var failure := FailureOf(before, op, emitStateSnapshots);
            First(Failures(before + [op], emitStateSnapshots)) ==
              if failure == [] then First(Failures(before, emitStateSnapshots))
              else Recorded(First(Failures(before, emitStateSnapshots)), failure[0])
  {
    assert (before + [op])[..|before|] == before;
  }

  lemma TerminalInLonger(before: seq<Op>, op: Op)
    ensures TerminalIn(before + [op]) <==> TerminalIn(before) || op.CallTerminal?
  {
    var after := before + [op];
    if TerminalIn(before) {
      var i :| 0 <= i < |before| && before[i].CallTerminal?;
      assert after[i].CallTerminal?;
    }
    if op.CallTerminal? {
      assert after[|before|].CallTerminal?;
    }
    if TerminalIn(after) {
      var i :| 0 <= i < |after| && after[i].CallTerminal?;
      assert i < |before| ==> before[i].CallTerminal?;
    }
  }

  lemma AdmittedLonger(before: seq<Op>, op: Op)
    ensures Admitted(before + [op]) <==> Admitted(before) || (op == CallTerminal(true) && !TerminalIn(before))
  {
    var after := before + [op];
    forall i | 0 <= i <= |before| ensures after[..i] == before[..i] {
    }
    assert before[..|before|] == before;
    if Admitted(before) {
      var i :| 0 <= i < |before| && before[i] == CallTerminal(true) && !TerminalIn(before[..i]);
      assert after[i] == CallTerminal(true);
    }
    if op == CallTerminal(true) && !TerminalIn(before) {
      assert after[|before|] == CallTerminal(true);
    }
    if Admitted(after) {
      var i :| 0 <= i < |after| && after[i] == CallTerminal(true) && !TerminalIn(after[..i]);
      assert i < |before| ==> before[i] == CallTerminal(true);
    }
  }

  lemma NumberedLonger(events: seq<Event>, event: Event, emitStateSnapshots: bool)
    ensures Numbered(events + [event], emitStateSnapshots)
         == Numbered(events, emitStateSnapshots)
              + if Passes(event, emitStateSnapshots) then [Core(|events|, event)] else []
  {
    assert (events + [event])[..|events|] == events;
  }

  /** What one more step of a run adds. */
  lemma {:induction false} FramesLonger(before: seq<Op>, op: Op, emitStateSnapshots: bool)
    ensures var events := Emitted(before);
            var counted := op.Emit? && !TerminalIn(before) && |events| < U64_MAX;
            && Emitted(before + [op]) == (if counted then events + [op.event] else events)
            && Frames(before + [op], emitStateSnapshots) == Frames(before, emitStateSnapshots)
                 + (if counted && Passes(op.event, emitStateSnapshots) then [Core(|events|, op.event)]
                    else if op == CallTerminal(true) && !TerminalIn(before) then [Terminal(|events|)]
                    else [])
  {
    var events := Emitted(before);
    assert (before + [op])[..|before|] == before;
    TerminalInLonger(before, op);
    AdmittedLonger(before, op);
    if op.Emit? && !TerminalIn(before) && |events| < U64_MAX {
      NumberedLonger(events, op.event, emitStateSnapshots);
      assert Emitted(before + [op]) == events + [op.event];
    } else {
      assert Emitted(before + [op]) == events;
    }
  }

  // ----- what the frames look like

  /** The frame is one of the events, unfiltered, with the event's position as its ordinal. */
  predicate Carries(frame: Frame, events: seq<Event>, emitStateSnapshots: bool) {
    && frame.Core? && frame.ordinal < |events|
    && frame.event == events[frame.ordinal] && Passes(frame.event, emitStateSnapshots)
  }

  predicate Ordered(frames: seq<Frame>) {
    forall i, j | 0 <= i < j < |frames| :: frames[i].ordinal < frames[j].ordinal
  }

  predicate AllCarry(frames: seq<Frame>, events: seq<Event>, emitStateSnapshots: bool) {
    forall i | 0 <= i < |frames| :: Carries(frames[i], events, emitStateSnapshots)
  }

  /** The core frames carry events under their own ordinals, and ordinals rise. */
  lemma {:induction false} CoreFramesKeepOrdinals(events: seq<Event>, emitStateSnapshots: bool)
    ensures Ordered(Numbered(events, emitStateSnapshots))
    ensures AllCarry(Numbered(events, emitStateSnapshots), events, emitStateSnapshots)
  {
    if events != [] {
      var init := events[..|events| - 1];
      CoreFramesKeepOrdinals(init, emitStateSnapshots);
      var before, frames := Numbered(init, emitStateSnapshots), Numbered(events, emitStateSnapshots);
      forall i | 0 <= i < |before|
        ensures Carries(before[i], events, emitStateSnapshots) && before[i].ordinal < |init|
      {
        assert Carries(before[i], init, emitStateSnapshots);
      }
    }
  }

  lemma {:induction false} PassingEventsAreNumbered(events: seq<Event>, emitStateSnapshots: bool, k: nat)
    requires k < |events| && Passes(events[k], emitStateSnapshots)
    ensures Core(k, events[k]) in Numbered(events, emitStateSnapshots)
  {
    if k < |events| - 1 {
      PassingEventsAreNumbered(events[..|events| - 1], emitStateSnapshots, k);
    }
  }

  /** The events left out are exactly the state snapshots, and those only when they are switched off. */
  lemma {:induction false} OnlySnapshotsAreLeftOut(events: seq<Event>, emitStateSnapshots: bool, k: nat)
    requires k < |events|
    ensures Core(k, events[k]) in Numbered(events, emitStateSnapshots) <==>
      emitStateSnapshots || !events[k].isStateSnapshot
  {
    var n := |events| - 1;
    CoreFramesKeepOrdinals(events[..n], emitStateSnapshots);
    var before := Numbered(events[..n], emitStateSnapshots);
    forall i | 0 <= i < |before| ensures before[i].ordinal < n {
      assert Carries(before[i], events[..n], emitStateSnapshots);
    }
    if k < n {
      OnlySnapshotsAreLeftOut(events[..n], emitStateSnapshots, k);
    }
  }

  /** Every event that passes the filter is delivered under its own ordinal. */
  lemma PassingEventsAreDelivered(ops: seq<Op>, emitStateSnapshots: bool, k: nat)
    requires k < |Emitted(ops)| && Passes(Emitted(ops)[k], emitStateSnapshots)
    ensures Core(k, Emitted(ops)[k]) in Frames(ops, emitStateSnapshots)
  {
    PassingEventsAreNumbered(Emitted(ops), emitStateSnapshots, k);
  }

  /** With snapshots switched on the ordinals have no gap. */
  lemma {:induction false} UnfilteredIsGapless(events: seq<Event>)
    ensures |Numbered(events, true)| == |events|
    ensures forall i | 0 <= i < |events| :: Numbered(events, true)[i] == Core(i, events[i])
  {
    if events != [] {
      UnfilteredIsGapless(events[..|events| - 1]);
    }
  }

  /**
   Over any run: the delivered frames are exactly the unfiltered events, with their own ordinals in
   rising order, and after them, exactly when the terminal call was admitted, one terminal frame whose
   ordinal is the number of events emitted.
   */
  lemma DeliveredFrames(ops: seq<Op>, emitStateSnapshots: bool)
    ensures Ordered(Frames(ops, emitStateSnapshots))
    ensures var frames, events := Frames(ops, emitStateSnapshots), Emitted(ops);
            if Admitted(ops) then
              && frames != [] && frames[|frames| - 1] == Terminal(|events|)
              && AllCarry(frames[..|frames| - 1], events, emitStateSnapshots)
            else AllCarry(frames, events, emitStateSnapshots)
  {
    var frames, events := Frames(ops, emitStateSnapshots), Emitted(ops);
    CoreFramesKeepOrdinals(events, emitStateSnapshots);
    var core := Numbered(events, emitStateSnapshots);
    forall i | 0 <= i < |core| ensures core[i].ordinal < |events| {
      assert Carries(core[i], events, emitStateSnapshots);
    }
    if Admitted(ops) {
      assert frames == core + [Terminal(|events|)];
      assert frames[..|frames| - 1] == core;
    } else {
      assert frames == core;
    }
  }

  /**
   A terminal frame is delivered exactly when the terminal call was admitted: at most one, the
   last, counting the events.
   */
  lemma TerminalFrameWhenAdmitted(ops: seq<Op>, emitStateSnapshots: bool, i: nat)
    requires i < |Frames(ops, emitStateSnapshots)|
    ensures var frames := Frames(ops, emitStateSnapshots);
            && (frames[i].Terminal? <==> Admitted(ops) && i == |frames| - 1)
            && (frames[i].Terminal? ==> frames[i].ordinal == |Emitted(ops)|)
  {
    DeliveredFrames(ops, emitStateSnapshots);
    var frames, events := Frames(ops, emitStateSnapshots), Emitted(ops);
    if Admitted(ops) && i < |frames| - 1 {
      assert Carries(frames[..|frames| - 1][i], events, emitStateSnapshots);
    } else if !Admitted(ops) {
      assert Carries(frames[i], events, emitStateSnapshots);
    }
  }

  lemma TerminalStays(ops: seq<Op>, later: seq<Op>)
    requires TerminalIn(ops)
    ensures TerminalIn(ops + later)
  {
    var i :| 0 <= i < |ops| && ops[i].CallTerminal?;
    assert (ops + later)[i].CallTerminal?;
  }

  /** Nothing is delivered after the terminal call, admitted or refused, whatever still happens. */
  lemma {:induction false} NothingAfterTerminal(ops: seq<Op>, later: seq<Op>, emitStateSnapshots: bool)
    requires TerminalIn(ops)
    ensures Frames(ops + later, emitStateSnapshots) == Frames(ops, emitStateSnapshots)
  {
    if later == [] {
      assert ops + later == ops;
    } else {
      var init := later[..|later| - 1];
      NothingAfterTerminal(ops, init, emitStateSnapshots);
      TerminalStays(ops, init);
      NoFrameAfterTerminal(ops + init, later[|later| - 1], emitStateSnapshots);
      assert ops + init + [later[|later| - 1]] == ops + later;
    }
  }

  lemma NoFrameAfterTerminal(ops: seq<Op>, op: Op, emitStateSnapshots: bool)
    requires TerminalIn(ops)
    ensures Frames(ops + [op], emitStateSnapshots) == Frames(ops, emitStateSnapshots)
  {
    FramesLonger(ops, op, emitStateSnapshots);
  }

  /** The reported failure is never replaced by a later one. */
  lemma {:induction false} FirstFailureStays(ops: seq<Op>, later: seq<Op>, emitStateSnapshots: bool)
    ensures Failures(ops, emitStateSnapshots) <= Failures(ops + later, emitStateSnapshots)
  {
    if later == [] {
      assert ops + later == ops;
    } else {
      FirstFailureStays(ops, later[..|later| - 1], emitStateSnapshots);
      assert (ops + later)[..|ops + later| - 1] == ops + later[..|later| - 1];
    }
  }

  /** Nothing has failed exactly when no step of the run reports a failing status. */
  lemma {:induction false} NoFailures(ops: seq<Op>, emitStateSnapshots: bool)
    ensures Failures(ops, emitStateSnapshots) == [] <==>
      forall i | 0 <= i < |ops| :: FailureOf(ops[..i], ops[i], emitStateSnapshots) == []
  {
    if ops != [] {
      var init, last := ops[..|ops| - 1], ops[|ops| - 1];
      NoFailures(init, emitStateSnapshots);
      forall i | 0 <= i < |init| ensures ops[..i] == init[..i] && ops[i] == init[i] {
      }
      assert ops[..|init|] == init && ops[|init|] == last;
    }
  }

  /** A wait that returns a failing status leaves a failure. */
  lemma FailingWaitFails(work: seq<Op>, admitted: bool, reported: seq<nat>, status: nat,
    emitStateSnapshots: bool)
    requires status != OK
    ensures Failures(Story(work, admitted, reported, Some(status)), emitStateSnapshots) != []
  {
    var story := Story(work, admitted, reported, Some(status));
    assert story[|story| - 1] == WaitReturned(status);
  }
}
