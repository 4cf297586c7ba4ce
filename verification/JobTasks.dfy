/** A job as a task of the JavaScript host: its events, its terminal frame, and what it resolves to. */
module JobTasks {
  import opened Wrappers
  import opened TerminalLatches
  import opened Cancellation
  import opened Events = EventPipeline

  /** The first failure replaces whatever the engine has ended with. */
  function Resolved(failures: seq<nat>, emits: nat, output: Attempt<string>): Resolution {
    if failures != [] then DeliveryFailed(failures[0])
    else if emits > U64_MAX || output.Panic? then JobPanicked
    else Output(output.value)
  }

  /**
   Runs a job whose engine emits and reports `work` and ends with `output`. It resolves to the first
   delivery failure, if there is one, else to the engine's output; an engine that panics, or whose events
   exhaust the ordinals, still ends with the terminal call. Nothing is resolved while the terminal wait
   goes on.
   */
  method Compute(registry: CancellationRegistry, token: string, lease: CancellationLease, latch: TerminalLatch,
    work: seq<Events.Op>, output: Attempt<string>, emitStateSnapshots: bool,
    enqueueStatus: nat, wakeups: nat, reported: seq<nat>)
    returns (resolved: Option<Resolution>, sent: seq<Frame>, status: Option<nat>, admitted: bool)
    requires Unused(latch.Words()) && forall op | op in work :: IsWork(op)
    modifies registry, latch
    ensures sent == Frames(Story(work, admitted, reported, status), emitStateSnapshots)
    ensures status.Some? ==> IsTerminal(latch.outcome) && status == StatusFor(latch.outcome)
    ensures resolved.None? <==> status.None?
    ensures resolved.None? ==> registry.leases == old(registry.leases) && admitted && enqueueStatus == OK
    ensures resolved.Some? ==>
      && registry.leases == RegistryStep(old(registry.leases), Cancellation.Op.RemoveIfCurrent(token, lease))
      && resolved.value ==
           Resolved(Failures(Story(work, admitted, reported, status), emitStateSnapshots), CountEmits(work), output)
    ensures old(latch.outcome) == CLOSING ==> !admitted
    ensures old(latch.outcome) == PENDING && old(latch.others) == [] && enqueueStatus != OK ==>
      admitted && status == Some(enqueueStatus) && resolved.Some? && resolved.value.DeliveryFailed?
    ensures old(latch.outcome) in {PENDING, CLOSING} && !admitted ==>
      resolved.Some? && resolved.value.DeliveryFailed?
  {
    var failure, panicked;
    sent, status, failure, panicked, admitted :=
      RunPipeline(latch, work, emitStateSnapshots, enqueueStatus, wakeups, reported);
    if status.None? {
      return None, sent, status, admitted;
    }
    if status.value != OK {
      FailingWaitFails(work, admitted, reported, status.value, emitStateSnapshots);
    }
    var terminal := if failure.Some? then failure else if status.value != OK then status else None;
    var resolution := RunLifecycle(registry, token, lease, if panicked then Panic else output, Completed(terminal));
    resolved := Some(resolution);
  }
}
