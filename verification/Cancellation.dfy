/**
 First-writer-wins cancellation, the result that a job commits under it, and the registry that routes
 cancellations to the job currently registered under a token.
 */
module Cancellation {
  import opened Wrappers
  import opened TerminalLatches

  datatype CancelReason = Cancelled | Deadline

  const RUNNING := 0
  const CANCELLED := 1
  const DEADLINE := 2
  const COMPLETED := 3

  predicate IsState(state: nat) {
    state <= COMPLETED
  }

  // ----- the control word

  /** A call on the control word; each is one atomic step, so a concurrent run is a sequence of calls. */
  datatype Call = Cancel(reason: CancelReason) | TryComplete | Read

  function Target(call: Call): nat
    requires !call.Read?
  {
    match call
    case Cancel(Cancelled) => CANCELLED
    case Cancel(Deadline) => DEADLINE
    case TryComplete => COMPLETED
  }

  function After(state: nat, call: Call): nat {
    if call.Read? || state != RUNNING then state else Target(call)
  }

  /** Whether the call returns true. */
  predicate Wins(state: nat, call: Call) {
    !call.Read? && state == RUNNING
  }

  function ReasonOf(state: nat): Option<CancelReason> {
    if state == CANCELLED then Some(Cancelled) else if state == DEADLINE then Some(Deadline) else None
  }

  function StateAfter(state: nat, calls: seq<Call>): nat {
    if calls == [] then state else After(StateAfter(state, calls[..|calls| - 1]), calls[|calls| - 1])
  }

  class CancellationControl {
    var state: nat

    constructor ()
      ensures state == RUNNING
    {
      state := RUNNING;
    }

    method Perform(call: Call) returns (won: bool, reason: Option<CancelReason>)
      modifies this
      ensures state == After(old(state), call) && won == Wins(old(state), call)
      ensures reason == ReasonOf(state)
    {
      match call {
        case Cancel(r) => won := CompareExchange(if r == Cancelled then CANCELLED else DEADLINE);
        case TryComplete => won := CompareExchange(COMPLETED);
        case Read => won := false;
      }
      reason := ReasonOf(state);
    }

    method CompareExchange(terminal: nat) returns (ok: bool)
      modifies this
      ensures ok <==> old(state) == RUNNING
      ensures state == if ok then terminal else old(state)
    {
      ok := state == RUNNING;
      if ok {
        state := terminal;
      }
    }

    /** What other threads do meanwhile. */
    method Others(calls: seq<Call>)
      modifies this
      ensures state == StateAfter(old(state), calls)
    {
      for k := 0 to |calls|
        invariant state == StateAfter(old(state), calls[..k])
      {
        assert calls[..k + 1][..k] == calls[..k];
        var won, reason := Perform(calls[k]);
      }
      assert calls[..|calls|] == calls;
    }
  }

  /** The first call that can decide, if any. */
  predicate IsFirstDeciding(calls: seq<Call>, i: nat) {
    i < |calls| && !calls[i].Read? && forall k | 0 <= k < i :: calls[k].Read?
  }

  lemma {:induction false} OnlyReads(calls: seq<Call>)
    requires forall k | 0 <= k < |calls| :: calls[k].Read?
    ensures StateAfter(RUNNING, calls) == RUNNING
  {
    if calls != [] {
      OnlyReads(calls[..|calls| - 1]);
    }
  }

  lemma {:induction false} DecidedStays(state: nat, calls: seq<Call>)
    requires state != RUNNING
    ensures StateAfter(state, calls) == state
  {
    if calls != [] {
      DecidedStays(state, calls[..|calls| - 1]);
    }
  }

  lemma {:induction false} CallsCompose(state: nat, first: seq<Call>, second: seq<Call>)
    ensures StateAfter(state, first + second) == StateAfter(StateAfter(state, first), second)
  {
    if second == [] {
      assert first + second == first;
    } else {
      var init := second[..|second| - 1];
      CallsCompose(state, first, init);
      assert (first + second)[..|first + second| - 1] == first + init;
    }
  }

  /** In any run exactly the first cancel or completion returns true, and it alone fixes state and reason. */
  lemma FirstWriterWins(calls: seq<Call>, i: nat, j: nat)
    requires IsFirstDeciding(calls, i) && j < |calls|
    ensures Wins(StateAfter(RUNNING, calls[..j]), calls[j]) <==> j == i
    ensures j > i ==> StateAfter(RUNNING, calls[..j]) == Target(calls[i])
    ensures j <= i ==> StateAfter(RUNNING, calls[..j]) == RUNNING
    ensures StateAfter(RUNNING, calls) == Target(calls[i])
  {
    OnlyReads(calls[..i]);
    FixedAfter(calls, i, |calls|);
    assert calls[..|calls|] == calls;
    if j > i {
      FixedAfter(calls, i, j);
    } else {
      OnlyReads(calls[..j]);
    }
  }

  lemma FixedAfter(calls: seq<Call>, i: nat, j: nat)
    requires IsFirstDeciding(calls, i) && i < j <= |calls|
    ensures StateAfter(RUNNING, calls[..j]) == Target(calls[i])
  {
    OnlyReads(calls[..i]);
    assert calls[..i + 1][..i] == calls[..i];
    assert StateAfter(RUNNING, calls[..i + 1]) == Target(calls[i]);
    CallsCompose(RUNNING, calls[..i + 1], calls[i + 1..j]);
    DecidedStays(Target(calls[i]), calls[i + 1..j]);
    assert calls[..i + 1] + calls[i + 1..j] == calls[..j];
  }

  // ----- the committed result

  datatype ErrorCode = CancelledByCaller | DeadlineExceeded | OtherError(code: nat)

  datatype Outcome =
    | Success(result: string)
    | Failure(category: ErrorCode, message: string)
    | ArchiveIneligible(message: string)

  function CategoryFor(reason: CancelReason): ErrorCode {
    match reason
    case Cancelled => CancelledByCaller
    case Deadline => DeadlineExceeded
  }

  function MessageFor(reason: CancelReason): string {
    match reason
    case Cancelled => "cancelled by caller"
    case Deadline => "deadline exceeded"
  }

  function OutcomeCancelReason(outcome: Outcome): Option<CancelReason> {
    match outcome
    case Failure(CancelledByCaller, _) => Some(Cancelled)
    case Failure(DeadlineExceeded, _) => Some(Deadline)
    case _ => None
  }

  method ControlFailureOutcome(control: CancellationControl) returns (outcome: Option<Outcome>)
    ensures var reason := ReasonOf(control.state);
            outcome == if reason.None? then None else Some(Failure(CategoryFor(reason.value), MessageFor(reason.value)))
    ensures control.state == CANCELLED ==> outcome == Some(Failure(CancelledByCaller, "cancelled by caller"))
    ensures control.state == DEADLINE ==> outcome == Some(Failure(DeadlineExceeded, "deadline exceeded"))
    ensures control.state in {RUNNING, COMPLETED} ==> outcome.None?
  {
    var reason := ReasonOf(control.state);
    match reason
    case None => outcome := None;
    case Some(r) => outcome := Some(Failure(CategoryFor(r), MessageFor(r)));
  }

  /** The candidate reports the given reason itself. */
  predicate Reports(candidate: Result<Outcome, string>, reason: CancelReason) {
    candidate.Ok? && OutcomeCancelReason(candidate.value) == Some(reason)
  }

  /** What a job with this candidate commits when the control stood at `state`. */
  ghost predicate Commits(state: nat, candidate: Result<Outcome, string>, result: Result<Outcome, string>) {
    match ReasonOf(state)
    case None => result == candidate
    case Some(reason) =>
      && Reports(result, reason)
      && (Reports(candidate, reason) ==> result == candidate)
      && (!Reports(candidate, reason) ==> result.value.message == MessageFor(reason))
  }

  /** Commits while other threads act before, between and after the accesses to the control word. */
  method CommitTerminalResult(control: CancellationControl, candidate: Result<Outcome, string>,
    before: seq<Call>, between: seq<Call>, last: seq<Call>) returns (result: Result<Outcome, string>)
    requires IsState(control.state)
    modifies control
    ensures control.state != RUNNING
    ensures control.state == After(StateAfter(old(control.state), before), TryComplete)
    ensures Commits(control.state, candidate, result)
  {
    control.Others(before);
    var won, ignored := control.Perform(TryComplete);
    if won {
      return candidate;
    }
    ghost var decided := control.state;
    control.Others(between);
    DecidedStays(decided, between);
    var no, reason := control.Perform(Read);
    if reason.None? {
      return candidate;
    }
    if candidate.Ok? && OutcomeCancelReason(candidate.value) == reason {
      return candidate;
    }
    control.Others(last);
    DecidedStays(decided, last);
    var outcome := ControlFailureOutcome(control);
    result := Ok(outcome.value);
  }

  /** The winner of the run decides: completion delivers the candidate, a cancellation a failure of its category. */
  lemma WinnerDecidesResult(before: seq<Call>, i: nat, candidate: Result<Outcome, string>,
    result: Result<Outcome, string>)
    requires IsFirstDeciding(before + [TryComplete], i)
    requires Commits(StateAfter(RUNNING, before + [TryComplete]), candidate, result)
    ensures (before + [TryComplete])[i] == TryComplete ==> result == candidate
    ensures forall reason | (before + [TryComplete])[i] == Cancel(reason) ::
              result.Ok? && result.value.Failure? && result.value.category == CategoryFor(reason)
    ensures (before + [TryComplete])[i] == Cancel(Cancelled) ==> result.value.category == CancelledByCaller
    ensures (before + [TryComplete])[i] == Cancel(Deadline) ==> result.value.category == DeadlineExceeded
  {
    FirstWriterWins(before + [TryComplete], i, i);
  }

  // ----- the registry

  class CancellationLease {
    const control: CancellationControl

    constructor ()
      ensures fresh(control) && control.state == RUNNING
    {
      control := new CancellationControl();
    }
  }

  /**
   The atomic steps of the registry's operations and of the jobs. A cancellation looks the lease up
   under the lock and cancels it later, without the lock; `id` tells concurrent cancellations apart.
   */
  datatype Op<T> =
    | Register(token: string, lease: T)
    | Find(token: string, id: nat)
    | CancelFound(id: nat, reason: CancelReason)
    | RemoveIfCurrent(token: string, lease: T)
    | Direct(lease: T, call: Call)

  function RegistryStep<T(==)>(leases: map<string, T>, op: Op<T>): map<string, T> {
    match op
    case Register(token, lease) => if token in leases then leases else leases[token := lease]
    case RemoveIfCurrent(token, lease) =>
      if token in leases && leases[token] == lease then leases - {token} else leases
    case _ => leases
  }

  function LeasesAfter<T(==)>(leases: map<string, T>, ops: seq<Op<T>>): map<string, T> {
    if ops == [] then leases else RegistryStep(LeasesAfter(leases, ops[..|ops| - 1]), ops[|ops| - 1])
  }

  function Leases<T(==)>(ops: seq<Op<T>>): map<string, T> {
    LeasesAfter(map[], ops)
  }

  class CancellationRegistry {
    var leases: map<string, CancellationLease>

    constructor ()
      ensures leases == map[]
    {
      leases := map[];
    }

    method Register(token: string, lease: CancellationLease) returns (ok: bool)
      modifies this
      ensures ok <==> token !in old(leases)
      ensures leases == RegistryStep(old(leases), Op.Register(token, lease))
    {
      ok := token !in leases;
      if ok {
        leases := leases[token := lease];
      }
    }

    /**
     Cancels the job registered at the lookup; true means that there is one, not that the cancellation
     won. Before it cancels, without the lock, other threads do `ops` to the registry and `calls` to the
     control found.
     */
    method Cancel(token: string, reason: CancelReason, ops: seq<Op<CancellationLease>>, calls: seq<Call>)
      returns (found: bool)
      modifies this, if token in leases then {leases[token].control} else {}
      ensures found <==> token in old(leases)
      ensures leases == if found then LeasesAfter(old(leases), ops) else old(leases)
      ensures found ==>
        var control := old(leases[token]).control;
        control.state == After(StateAfter(old(leases[token].control.state), calls), Call.Cancel(reason)) != RUNNING
    {
      if token !in leases {
        return false;
      }
      var lease := leases[token];
      leases := LeasesAfter(leases, ops);
      lease.control.Others(calls);
      var won, r := lease.control.Perform(Call.Cancel(reason));
      found := true;
    }

    method RemoveIfCurrent(token: string, lease: CancellationLease)
      modifies this
      ensures leases == RegistryStep(old(leases), Op.RemoveIfCurrent(token, lease))
    {
      if token in leases && leases[token] == lease {
        leases := leases - {token};
      }
    }
  }

  ghost predicate Removes<T>(ops: seq<Op<T>>, token: string, lease: T) {
    exists i :: 0 <= i < |ops| && ops[i] == RemoveIfCurrent(token, lease)
  }

  ghost predicate Registers<T>(ops: seq<Op<T>>, token: string, lease: T) {
    exists i :: 0 <= i < |ops| && ops[i] == Op.Register(token, lease)
  }

  /** Only its own removal ends a registration: another lease's removal of the same token, however late, does not. */
  lemma {:induction false} RegistrationLasts<T>(ops: seq<Op<T>>, later: seq<Op<T>>, token: string)
    requires token in Leases(ops) && !Removes(later, token, Leases(ops)[token])
    ensures token in Leases(ops + later) && Leases(ops + later)[token] == Leases(ops)[token]
  {
    if later == [] {
      assert ops + later == ops;
    } else {
      var init := later[..|later| - 1];
      forall i | 0 <= i < |init| ensures init[i] != RemoveIfCurrent(token, Leases(ops)[token]) {
        assert later[i] == init[i];
      }
      RegistrationLasts(ops, init, token);
      assert (ops + later)[..|ops + later| - 1] == ops + init;
      assert later[|later| - 1] != RemoveIfCurrent(token, Leases(ops)[token]);
    }
  }

  /** A registered lease has been registered, and not been removed since. */
  lemma {:induction false} RegisteredBefore<T>(ops: seq<Op<T>>, token: string) returns (i: nat)
    requires token in Leases(ops)
    ensures i < |ops| && ops[i] == Op.Register(token, Leases(ops)[token])
    ensures !Removes(ops[i + 1..], token, Leases(ops)[token])
  {
    var last, init := ops[|ops| - 1], ops[..|ops| - 1];
    if last.Register? && last.token == token && token !in Leases(init) {
      i := |ops| - 1;
    } else {
      i := RegisteredBefore(init, token);
      var tail, before := ops[i + 1..], init[i + 1..];
      assert tail == before + [last];
      forall k | 0 <= k < |tail| ensures tail[k] != RemoveIfCurrent(token, Leases(ops)[token]) {
        assert k < |before| ==> tail[k] == before[k];
      }
    }
  }

  predicate IsCurrent<T(==)>(leases: map<string, T>, token: string, lease: T) {
    token in leases && leases[token] == lease
  }

  lemma {:induction false} StaysGone<T>(ops: seq<Op<T>>, later: seq<Op<T>>, token: string, lease: T)
    requires !IsCurrent(Leases(ops), token, lease) && !Registers(later, token, lease)
    ensures !IsCurrent(Leases(ops + later), token, lease)
  {
    if later == [] {
      assert ops + later == ops;
    } else {
      var init := later[..|later| - 1];
      forall i | 0 <= i < |init| ensures init[i] != Op.Register(token, lease) {
        assert later[i] == init[i];
      }
      StaysGone(ops, init, token, lease);
      assert (ops + later)[..|ops + later| - 1] == ops + init;
      assert later[|later| - 1] != Op.Register(token, lease);
    }
  }

  /** A lease that is not registered again after a removal is gone for good: its later removals remove nothing. */
  lemma StaleLeaseIsHarmless<T>(ops: seq<Op<T>>, later: seq<Op<T>>, token: string, lease: T)
    requires ops != [] && ops[|ops| - 1] == RemoveIfCurrent(token, lease)
    requires !Registers(later, token, lease)
    ensures !IsCurrent(Leases(ops + later), token, lease)
    ensures Leases(ops + later + [RemoveIfCurrent(token, lease)]) == Leases(ops + later)
  {
    StaysGone(ops, later, token, lease);
    var all := ops + later;
    assert (all + [RemoveIfCurrent(token, lease)])[..|all|] == all;
  }

  /** The leases that the cancellations under way have looked up. */
  function Found<T(==)>(ops: seq<Op<T>>): map<nat, T> {
    if ops == [] then map[]
    else
      var init, last := ops[..|ops| - 1], ops[|ops| - 1];
      if last.Find? && last.token in Leases(init) then Found(init)[last.id := Leases(init)[last.token]]
      else if last.Find? then Found(init) - {last.id}
      else Found(init)
  }

  /** The calls that reach a lease: its own and those of the cancellations that looked it up. */
  function CallsOn<T(==)>(ops: seq<Op<T>>, lease: T): seq<Call> {
    if ops == [] then []
    else
      var init, last := ops[..|ops| - 1], ops[|ops| - 1];
      CallsOn(init, lease) +
        match last
        case Direct(l, call) => if l == lease then [call] else []
        case CancelFound(id, reason) =>
          if id in Found(init) && Found(init)[id] == lease then [Call.Cancel(reason)] else []
        case _ => []
  }

  ghost predicate LooksUp<T>(ops: seq<Op<T>>, id: nat) {
    exists i :: 0 <= i < |ops| && ops[i].Find? && ops[i].id == id
  }

  lemma {:induction false} FoundStays<T>(ops: seq<Op<T>>, later: seq<Op<T>>, id: nat)
    requires !LooksUp(later, id)
    ensures id in Found(ops + later) <==> id in Found(ops)
    ensures id in Found(ops) ==> Found(ops + later)[id] == Found(ops)[id]
  {
    if later == [] {
      assert ops + later == ops;
    } else {
      var init := later[..|later| - 1];
      forall i | 0 <= i < |init| ensures !(init[i].Find? && init[i].id == id) {
        assert later[i] == init[i];
      }
      FoundStays(ops, init, id);
      assert (ops + later)[..|ops + later| - 1] == ops + init;
      assert !(later[|later| - 1].Find? && later[|later| - 1].id == id);
    }
  }

  /**
   A cancellation reaches exactly the lease that was registered when it looked the token up, whatever
   is registered or removed before it cancels: a newer registration of the token is not cancelled.
   */
  lemma CancelReachesWhatItFound<T>(ops: seq<Op<T>>, token: string, id: nat, between: seq<Op<T>>,
    reason: CancelReason, lease: T)
    requires !LooksUp(between, id)
    ensures var before := ops + [Find(token, id)] + between;
            CallsOn(before + [CancelFound(id, reason)], lease) ==
              CallsOn(before, lease) + if IsCurrent(Leases(ops), token, lease) then [Call.Cancel(reason)] else []
  {
    var looked := ops + [Find(token, id)];
    assert looked[..|ops|] == ops;
    FoundStays(looked, between, id);
    var before := looked + between;
    assert (before + [CancelFound(id, reason)])[..|before|] == before;
  }

  // ----- the environment cleanup hook and the end of a job

  class TerminalCleanupHook {
    const latch: TerminalLatch
    var fired: bool
    const registry: CancellationRegistry
    const token: string
    const lease: CancellationLease

    constructor (latch: TerminalLatch, registry: CancellationRegistry, token: string, lease: CancellationLease)
      ensures !fired && this.latch == latch && this.registry == registry && this.token == token && this.lease == lease
    {
      fired := false;
      this.latch, this.registry, this.token, this.lease := latch, registry, token, lease;
    }

    /** Runs once: cancels the job's own control, closes its latch and removes its own registration. */
    method Cleanup()
      requires IsOutcome(latch.outcome)
      modifies `fired, lease.control, latch, registry
      ensures fired && IsOutcome(latch.outcome)
      ensures old(fired) ==>
        && lease.control.state == old(lease.control.state) && registry.leases == old(registry.leases)
        && latch.Words() == old(latch.Words())
      ensures !old(fired) ==>
        && lease.control.state == After(old(lease.control.state), Call.Cancel(Cancelled)) != RUNNING
        && registry.leases == RegistryStep(old(registry.leases), Op.RemoveIfCurrent(token, lease))
        && (token in registry.leases ==> registry.leases[token] != lease)
        && (IsTerminal(latch.outcome) || latch.outcome == CLEANUP_ADMITTING)
    {
      if fired {
        return;
      }
      fired := true;
      var won, reason := lease.control.Perform(Call.Cancel(Cancelled));
      latch.CloseForCleanup();
      registry.RemoveIfCurrent(token, lease);
    }
  }

  datatype Attempt<T> = Completed(value: T) | Panic

  datatype Resolution = Output(text: string) | DeliveryFailed(status: nat) | JobPanicked

  /** What a job resolves to: a failed terminal delivery replaces the output, a panic there replaces both. */
  method RunLifecycle(registry: CancellationRegistry, token: string, lease: CancellationLease,
    execute: Attempt<string>, terminal: Attempt<Option<nat>>) returns (resolved: Resolution)
    modifies registry
    ensures registry.leases == RegistryStep(old(registry.leases), Op.RemoveIfCurrent(token, lease))
    ensures resolved.Output? <==> execute.Completed? && terminal == Completed(None)
    ensures resolved.Output? ==> resolved.text == execute.value
    ensures resolved.DeliveryFailed? <==> terminal.Completed? && terminal.value.Some?
    ensures resolved.DeliveryFailed? ==> terminal.value == Some(resolved.status)
  {
    resolved := match execute
      case Completed(text) => Output(text)
      case Panic => JobPanicked;
    match terminal {
      case Completed(Some(status)) => resolved := DeliveryFailed(status);
      case Completed(None) =>
      case Panic => resolved := JobPanicked;
    }
    registry.RemoveIfCurrent(token, lease);
  }
}
