/**
 The chunked compute-then-replay driver: with any completion order inside a chunk it does exactly what
 a serial loop with a checkpoint at every chunk boundary does.
 */
module ChunkedDriver {
  import opened Wrappers
  import opened Lists
  import opened Permutations

  /** The calls that a caller can observe. */
  datatype Action<S, T> = Checkpoint | Before(item: S) | Replay(item: S, value: T)

  /** The calls so far, how many of them are checkpoints, and the error that ended them. */
  datatype Run<S, T, E> = Run(trace: seq<Action<S, T>>, checkpoints: nat, error: Option<E>)

  /** The caller's functions: what the k-th checkpoint returns and what an item computes to. */
  datatype Job<!S, T, E> = Job(checkpoint: nat -> Option<E>, compute: S -> Result<Option<T>, E>)

  function AfterCheckpoint<S, T, E>(job: Job<S, T, E>, run: Run<S, T, E>): Run<S, T, E> {
    Run(run.trace + [Checkpoint], run.checkpoints + 1, job.checkpoint(run.checkpoints))
  }

  function AfterItem<S, T, E>(job: Job<S, T, E>, run: Run<S, T, E>, item: S): Run<S, T, E> {
    match job.compute(item)
    case Err(error) => run.(trace := run.trace + [Before(item)], error := Some(error))
    case Ok(None) => run.(trace := run.trace + [Before(item)])
    case Ok(Some(value)) => run.(trace := run.trace + [Before(item), Replay(item, value)])
  }

  // ----- the serial loop

  /** One round: a checkpoint when the index is a multiple of the chunk size, then the item. */
  function Round<S, T, E>(job: Job<S, T, E>, run: Run<S, T, E>, item: S, boundary: bool): Run<S, T, E> {
    var checked := if boundary then AfterCheckpoint(job, run) else run;
    if checked.error.Some? then checked else AfterItem(job, checked, item)
  }

  function EveryMultiple(chunkSize: nat): nat -> bool
    requires chunkSize >= 1
  {
    (index: nat) => index % chunkSize == 0
  }

  /** The serial loop over the first `count` items, stopping at the first error. */
  function Serial<S, T, E>(job: Job<S, T, E>, items: seq<S>, boundary: nat -> bool, count: nat): Run<S, T, E>
    requires count <= |items|
  {
    if count == 0 then Run([], 0, None)
    else
      var before := Serial(job, items, boundary, count - 1);
      if before.error.Some? then before else Round(job, before, items[count - 1], boundary(count - 1))
  }

  lemma {:induction false} ErrorsStop<S, T, E>(job: Job<S, T, E>, items: seq<S>, boundary: nat -> bool, earlier: nat,
    later: nat)
    requires earlier <= later <= |items| && Serial(job, items, boundary, earlier).error.Some?
    ensures Serial(job, items, boundary, later) == Serial(job, items, boundary, earlier)
    decreases later
  {
    if earlier < later {
      ErrorsStop(job, items, boundary, earlier, later - 1);
    }
  }

  // ----- what the serial loop's calls are

  /** The items announced, in order. */
  function Announced<S, T>(trace: seq<Action<S, T>>): seq<S> {
    if trace == [] then []
    else
      var last := trace[|trace| - 1];
      Announced(trace[..|trace| - 1]) + if last.Before? then [last.item] else []
  }

  /** The outcomes replayed, in order. */
  function Replays<S, T>(trace: seq<Action<S, T>>): seq<(S, T)> {
    if trace == [] then []
    else
      var last := trace[|trace| - 1];
      Replays(trace[..|trace| - 1]) + if last.Replay? then [(last.item, last.value)] else []
  }

  /** How many items had been announced at each checkpoint, in order. */
  function CheckedAt<S, T>(trace: seq<Action<S, T>>): seq<nat> {
    if trace == [] then []
    else
      var init := trace[..|trace| - 1];
      CheckedAt(init) + if trace[|trace| - 1].Checkpoint? then [|Announced(init)|] else []
  }

  /** What the items compute to, items without a value left out. */
  function Computed<S, T, E>(job: Job<S, T, E>, items: seq<S>): seq<(S, T)> {
    if items == [] then []
    else
      var last := items[|items| - 1];
      Computed(job, items[..|items| - 1])
        + match job.compute(last) case Ok(Some(value)) => [(last, value)] case _ => []
  }

  /** The boundaries below `n`. */
  function Boundaries(boundary: nat -> bool, n: nat): seq<nat> {
    if n == 0 then [] else Boundaries(boundary, n - 1) + if boundary(n - 1) then [n - 1] else []
  }

  ghost predicate AnnouncedBefore<S, T>(trace: seq<Action<S, T>>, p: nat)
    requires p < |trace| && trace[p].Replay?
  {
    p > 0 && trace[p - 1] == Before(trace[p].item)
  }

  /** Every replay follows the announcement of its item at once. */
  ghost predicate RepliesFollow<S, T>(trace: seq<Action<S, T>>) {
    forall p | 0 <= p < |trace| && trace[p].Replay? :: AnnouncedBefore(trace, p)
  }

  ghost predicate AllCompute<S, T, E>(job: Job<S, T, E>, items: seq<S>, n: nat)
    requires n <= |items|
  {
    forall i | 0 <= i < n :: job.compute(items[i]).Ok?
  }

  /**
   The first `n` items have been announced once each, in order, and the values of those without an error
   replayed. There was a checkpoint at each boundary, and the first failure has ended the run.
   */
  ghost predicate Accounts<S, T, E>(run: Run<S, T, E>, job: Job<S, T, E>, items: seq<S>, boundary: nat -> bool,
    count: nat, n: nat)
    requires n <= count <= |items|
  {
    && Announced(run.trace) == items[..n] && Replays(run.trace) == Computed(job, items[..n])
    && RepliesFollow(run.trace) && run.checkpoints == |CheckedAt(run.trace)|
    && (run.error.None? ==>
      n == count && AllCompute(job, items, n) && CheckedAt(run.trace) == Boundaries(boundary, n))
    && (run.error.Some? ==>
      || FailedItem(run, job, items, boundary, n)
      || FailedCheckpoint(run, job, items, boundary, n))
  }

  ghost predicate FailedItem<S, T, E>(run: Run<S, T, E>, job: Job<S, T, E>, items: seq<S>,
    boundary: nat -> bool, n: nat)
    requires n <= |items| && run.error.Some?
  {
    && n > 0 && job.compute(items[n - 1]) == Err(run.error.value) && AllCompute(job, items, n - 1)
    && CheckedAt(run.trace) == Boundaries(boundary, n)
  }

  ghost predicate FailedCheckpoint<S, T, E>(run: Run<S, T, E>, job: Job<S, T, E>, items: seq<S>,
    boundary: nat -> bool, n: nat)
    requires n <= |items| && run.error.Some?
  {
    && run.checkpoints > 0 && job.checkpoint(run.checkpoints - 1) == run.error && boundary(n)
    && AllCompute(job, items, n) && CheckedAt(run.trace) == Boundaries(boundary, n) + [n]
  }

  lemma {:induction false} TraceNext<S, T>(trace: seq<Action<S, T>>, next: Action<S, T>)
    ensures Announced(trace + [next]) == Announced(trace) + if next.Before? then [next.item] else []
    ensures Replays(trace + [next]) == Replays(trace) + if next.Replay? then [(next.item, next.value)] else []
    ensures CheckedAt(trace + [next]) == CheckedAt(trace) + if next.Checkpoint? then [|Announced(trace)|] else []
  {
    assert (trace + [next])[..|trace|] == trace;
  }

  lemma {:induction false} RepliesNext<S, T>(trace: seq<Action<S, T>>, next: Action<S, T>)
    requires RepliesFollow(trace)
    requires next.Replay? ==> trace != [] && trace[|trace| - 1] == Before(next.item)
    ensures RepliesFollow(trace + [next])
  {
    var longer := trace + [next];
    forall p | 0 <= p < |trace| && trace[p].Replay? ensures AnnouncedBefore(longer, p) == AnnouncedBefore(trace, p) {
    }
    if next.Replay? {
      assert AnnouncedBefore(longer, |trace|);
    }
  }

  /** The serial loop announces every item up to the first error once, in order, each before its replay. */
  lemma {:induction false} SerialAccounts<S, T, E>(job: Job<S, T, E>, items: seq<S>, boundary: nat -> bool, count: nat)
    returns (n: nat)
    requires count <= |items|
    ensures n <= count && Accounts(Serial(job, items, boundary, count), job, items, boundary, count, n)
  {
    n := 0;
    if count > 0 {
      n := SerialAccounts(job, items, boundary, count - 1);
      var before := Serial(job, items, boundary, count - 1);
      if before.error.None? {
        n := RoundAccounts(job, before, items, boundary, count - 1);
      }
    }
  }

  lemma {:induction false} RoundAccounts<S, T, E>(job: Job<S, T, E>, run: Run<S, T, E>, items: seq<S>,
    boundary: nat -> bool, i: nat) returns (n: nat)
    requires i < |items| && run.error.None? && Accounts(run, job, items, boundary, i, i)
    ensures i <= n <= i + 1 && Accounts(Round(job, run, items[i], boundary(i)), job, items, boundary, i + 1, n)
  {
    var checked := if boundary(i) then AfterCheckpoint(job, run) else run;
    n := i;
    TraceNext(run.trace, Checkpoint);
    RepliesNext(run.trace, Checkpoint);
    if checked.error.None? {
      n := i + 1;
      ItemAccounts(job, checked, items, boundary, i);
    }
  }

  lemma {:induction false} ItemAccounts<S, T, E>(job: Job<S, T, E>, run: Run<S, T, E>, items: seq<S>,
    boundary: nat -> bool, i: nat)
    requires i < |items| && run.error.None? && run.checkpoints == |CheckedAt(run.trace)|
    requires Announced(run.trace) == items[..i] && Replays(run.trace) == Computed(job, items[..i])
    requires RepliesFollow(run.trace) && AllCompute(job, items, i)
    requires CheckedAt(run.trace) == Boundaries(boundary, i + 1)
    ensures Accounts(AfterItem(job, run, items[i]), job, items, boundary, i + 1, i + 1)
  {
    var item := items[i];
    var announced := run.trace + [Before(item)];
    AnnouncedNext(job, run.trace, items, i);
    ComputedNext(job, items, i);
    match job.compute(item)
    case Ok(Some(value)) =>
      TraceNext(announced, Replay(item, value));
      RepliesNext(announced, Replay(item, value));
      assert announced + [Replay(item, value)] == run.trace + [Before(item), Replay(item, value)];
    case _ =>
  }

  lemma {:induction false} AnnouncedNext<S, T, E>(job: Job<S, T, E>, trace: seq<Action<S, T>>, items: seq<S>, i: nat)
    requires i < |items| && Announced(trace) == items[..i] && RepliesFollow(trace)
    ensures var announced := trace + [Before(items[i])];
            && Announced(announced) == items[..i + 1] && Replays(announced) == Replays(trace)
            && CheckedAt(announced) == CheckedAt(trace) && RepliesFollow(announced)
  {
    TraceNext(trace, Before(items[i]));
    RepliesNext(trace, Before(items[i]));
    assert items[..i + 1] == items[..i] + [items[i]];
  }

  lemma {:induction false} ComputedNext<S, T, E>(job: Job<S, T, E>, items: seq<S>, i: nat)
    requires i < |items|
    ensures Computed(job, items[..i + 1]) == Computed(job, items[..i])
      + match job.compute(items[i]) case Ok(Some(value)) => [(items[i], value)] case _ => []
  {
    assert items[..i + 1][..i] == items[..i];
  }

  // ----- the driver

  /** Maps the items in the given completion order, every outcome into its own slot; serially without an order. */
  method MapSliceWithJobPool<S, R>(items: seq<S>, f: S -> R, order: Option<seq<nat>>) returns (results: seq<R>)
    requires order.Some? ==> IsPermutation(order.value, |items|)
    ensures results == Map(f, items)
  {
    if order.None? {
      results := [];
      for i := 0 to |items|
        invariant results == Map(f, items[..i])
      {
        results := results + [f(items[i])];
      }
      assert items[..|items|] == items;
      return;
    }
    var slots: array<Option<R>> := new Option<R>[|items|](_ => None);
    for k := 0 to |items|
      invariant forall j | 0 <= j < k :: slots[order.value[j]] == Some(f(items[order.value[j]]))
    {
      var i := order.value[k];
      slots[i] := Some(f(items[i]));
    }
    forall i | 0 <= i < |items| ensures slots[i] == Some(f(items[i])) {
      var k := PermutationCovers(order.value, |items|, i);
    }
    results := [];
    for i := 0 to |items|
      invariant results == Map(f, items[..i])
    {
      results := results + [slots[i].value];
    }
    assert items[..|items|] == items;
  }

  /** The completion order of the chunk that starts at an index; `None` runs it serially. */
  ghost predicate AreOrders(orders: (nat, nat) -> Option<seq<nat>>) {
    forall start, size :: orders(start, size).Some? ==> IsPermutation(orders(start, size).value, size)
  }

  method ForEachChunkedOutcome<S, T, E>(job: Job<S, T, E>, items: seq<S>, chunkSize: nat,
    orders: (nat, nat) -> Option<seq<nat>>)
    returns (run: Run<S, T, E>)
    requires chunkSize >= 1 && AreOrders(orders)
    ensures run == Serial(job, items, EveryMultiple(chunkSize), |items|)
  {
    ghost var boundary := EveryMultiple(chunkSize);
    run := Run([], 0, None);
    var start := 0;
    ghost var chunks := 0;
    while start < |items|
      invariant start <= |items| && run == Serial(job, items, boundary, start) && run.error.None?
      invariant start == chunks * chunkSize || start == |items|
      decreases |items| - start
    {
      var end := if chunkSize <= |items| - start then start + chunkSize else |items|;
      OneBoundary(chunks, chunkSize, start, end);
      run := RunChunk(job, items, start, end, orders(start, end - start), run, boundary);
      if run.error.Some? {
        return;
      }
      start := end;
      chunks := chunks + 1;
    }
  }

  /** A boundary lies at the start and nowhere else before the end. */
  ghost predicate IsChunk(boundary: nat -> bool, start: nat, end: nat) {
    boundary(start) && forall i | start < i < end :: !boundary(i)
  }

  lemma OneBoundary(chunks: nat, chunkSize: nat, start: nat, end: nat)
    requires chunkSize >= 1 && start == chunks * chunkSize && start < end <= start + chunkSize
    ensures IsChunk(EveryMultiple(chunkSize), start, end)
    ensures (chunks + 1) * chunkSize == start + chunkSize
  {
    BoundaryAt(chunks, chunkSize, 0);
    forall i | start < i < end ensures !EveryMultiple(chunkSize)(i) {
      BoundaryAt(chunks, chunkSize, i - start);
    }
  }

  /** Checkpoints, computes one chunk and replays it in order. */
  method RunChunk<S, T, E>(job: Job<S, T, E>, items: seq<S>, start: nat, end: nat, order: Option<seq<nat>>,
    before: Run<S, T, E>, ghost boundary: nat -> bool) returns (run: Run<S, T, E>)
    requires start < end <= |items| && before == Serial(job, items, boundary, start) && before.error.None?
    requires IsChunk(boundary, start, end)
    requires order.Some? ==> IsPermutation(order.value, end - start)
    ensures run == Serial(job, items, boundary, if run.error.Some? then |items| else end)
  {
    run := AfterCheckpoint(job, before);
    if run.error.Some? {
      ErrorsStop(job, items, boundary, start + 1, |items|);
      return;
    }
    var chunk := items[start..end];
    var outcomes := MapSliceWithJobPool(chunk, job.compute, order);
    for j := 0 to |chunk|
      invariant run.error.None?
      invariant run == if j == 0 then AfterCheckpoint(job, before) else Serial(job, items, boundary, start + j)
    {
      ItemInChunk(job, items, boundary, start, end, j, run);
      run := Replayed(run, chunk[j], outcomes[j]);
      if run.error.Some? {
        ErrorsStop(job, items, boundary, start + j + 1, |items|);
        return;
      }
    }
  }

  /** Inside a chunk the serial loop only handles the item. */
  lemma ItemInChunk<S, T, E>(job: Job<S, T, E>, items: seq<S>, boundary: nat -> bool, start: nat,
    end: nat, j: nat,
    run: Run<S, T, E>)
    requires start + j < end <= |items| && IsChunk(boundary, start, end) && run.error.None?
    requires Serial(job, items, boundary, start).error.None?
    requires run ==
      if j == 0 then AfterCheckpoint(job, Serial(job, items, boundary, start))
      else Serial(job, items, boundary, start + j)
    ensures AfterItem(job, run, items[start + j]) == Serial(job, items, boundary, start + j + 1)
  {
    if j > 0 {
      assert !boundary(start + j);
    }
  }

  /** Announces an item and replays its outcome. */
  method Replayed<S, T, E>(before: Run<S, T, E>, item: S, outcome: Result<Option<T>, E>) returns (run: Run<S, T, E>)
    ensures forall job: Job<S, T, E> | job.compute(item) == outcome :: run == AfterItem(job, before, item)
  {
    run := before.(trace := before.trace + [Before(item)]);
    match outcome {
      case Err(error) => run := run.(error := Some(error));
      case Ok(Some(value)) =>
        run := run.(trace := run.trace + [Replay(item, value)]);
        assert run.trace == before.trace + [Before(item), Replay(item, value)];
      case Ok(None) =>
    }
  }

  /** Inside a chunk only the first index is a multiple of the chunk size. */
  lemma BoundaryAt(chunks: nat, chunkSize: nat, j: nat)
    requires j < chunkSize
    ensures (chunks * chunkSize + j) % chunkSize == 0 <==> j == 0
    ensures (chunks + 1) * chunkSize == chunks * chunkSize + chunkSize
  {
    var x := chunks * chunkSize + j;
    var q, r := x / chunkSize, x % chunkSize;
    assert x == q * chunkSize + r && 0 <= r < chunkSize;
    SameQuotient(q, chunks, chunkSize, r, j);
  }

  lemma SameQuotient(q: int, c: int, size: nat, r: nat, j: nat)
    requires r < size && j < size && q * size + r == c * size + j
    ensures r == j
  {
    var d := q - c;
    assert d * size == j - r;
    Multiple(d, size);
    Multiple(-d, size);
    assert (-d) * size == -(d * size);
  }

  lemma Multiple(d: int, size: nat)
    ensures d >= 1 ==> d * size >= size
  {
  }
}
