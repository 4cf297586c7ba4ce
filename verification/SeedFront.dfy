/** The Pareto front of periodic seeds and the ranking that picks from it. */
module SeedFront {
  import opened Wrappers
  import opened Sets
  import opened Sorting

  /** Grid measures of a layout; `area` is the parsed decimal text. */
  datatype Envelope = Envelope(maximumSide: real, area: int, span: real)

  datatype Seed = Seed(
    componentCount: real,
    isolatedPieceCount: real,
    largestComponentSize: real,
    exactEnvelope: Option<Envelope>,
    measuredEnvelope: Option<Envelope>,
    maximumSideMm: real,
    envelopeAreaMm2: real,
    envelopeSpanMm: real,
    canonicalKey: string)

  /** The stored envelope, or else the one measured from the placements. */
  function EnvelopeFor(seed: Seed): Option<Envelope> {
    if seed.exactEnvelope.Some? then seed.exactEnvelope else seed.measuredEnvelope
  }

  // ----- comparison

  function Sign(difference: real): int {
    if difference < 0.0 then -1 else if difference == 0.0 then 0 else 1
  }

  function SignInt(difference: int): int {
    if difference < 0 then -1 else if difference == 0 then 0 else 1
  }

  function Then(first: int, second: int): int {
    if first != 0 then first else second
  }

  function CompareEnvelopes(first: Seed, second: Seed): int {
    match (EnvelopeFor(first), EnvelopeFor(second))
    case (None, None) =>
      Then(Sign(first.maximumSideMm - second.maximumSideMm),
        Then(Sign(first.envelopeAreaMm2 - second.envelopeAreaMm2), Sign(first.envelopeSpanMm - second.envelopeSpanMm)))
    case (None, Some(_)) => 1
    case (Some(_), None) => -1
    case (Some(a), Some(b)) =>
      Then(Sign(a.maximumSide - b.maximumSide), Then(SignInt(a.area - b.area), Sign(a.span - b.span)))
  }

  /** Everything but the final comparison of keys. */
  function CompareCosts(first: Seed, second: Seed): int {
    Then(Sign(first.componentCount - second.componentCount),
      Then(Sign(first.isolatedPieceCount - second.isolatedPieceCount),
        Then(Sign(second.largestComponentSize - first.largestComponentSize), CompareEnvelopes(first, second))))
  }

  type KeyOrder = (string, string) -> int

  function CompareSeeds(keys: KeyOrder, first: Seed, second: Seed): int {
    Then(CompareCosts(first, second), keys(first.canonicalKey, second.canonicalKey))
  }

  /** A stored envelope is the one compared, whatever the placements measure; a missing one is measured. */
  lemma StoredEnvelopeDecides(keys: KeyOrder, a: Seed, b: Seed, measured: Option<Envelope>)
    ensures a.exactEnvelope.Some? ==>
      var other := a.(measuredEnvelope := measured);
      && CompareSeeds(keys, other, b) == CompareSeeds(keys, a, b)
      && CompareSeeds(keys, b, other) == CompareSeeds(keys, b, a)
      && Dominates(other, b) == Dominates(a, b) && Dominates(b, other) == Dominates(b, a)
    ensures a.exactEnvelope.None? ==>
      var stored := a.(exactEnvelope := a.measuredEnvelope);
      && CompareSeeds(keys, stored, b) == CompareSeeds(keys, a, b) && Dominates(stored, b) == Dominates(a, b)
  {
  }

  /** What is assumed of the locale's comparison of keys. */
  ghost predicate IsOrder(keys: KeyOrder) {
    && (forall a, b :: keys(a, b) <= 0 || keys(b, a) <= 0)
    && (forall a, b, c :: keys(a, b) <= 0 && keys(b, c) <= 0 ==> keys(a, c) <= 0)
    && (forall a, b :: keys(a, b) < 0 <==> keys(b, a) > 0)
  }

  function RankOrder(keys: KeyOrder): (Seed, Seed) -> bool {
    (a: Seed, b: Seed) => CompareSeeds(keys, a, b) <= 0
  }

  /** The first differing entry decides. */
  function Lexicographic(a: seq<real>, b: seq<real>): int {
    if a == [] || b == [] then 0
    else if a[0] == b[0] then Lexicographic(a[1..], b[1..])
    else Sign(a[0] - b[0])
  }

  /** What seeds are ranked by, all to be small: an envelope comes before none. */
  function RankKey(seed: Seed): (key: seq<real>)
    ensures |key| == 7
  {
    var head := [seed.componentCount, seed.isolatedPieceCount, -seed.largestComponentSize];
    match EnvelopeFor(seed)
    case None => head + [1.0, seed.maximumSideMm, seed.envelopeAreaMm2, seed.envelopeSpanMm]
    case Some(e) => head + [0.0, e.maximumSide, e.area as real, e.span]
  }

  lemma SplitFirst(a: seq<real>, b: seq<real>)
    requires a != [] && b != []
    ensures Lexicographic(a, b) == Then(Sign(a[0] - b[0]), Lexicographic(a[1..], b[1..]))
  {
  }

  lemma SevenEntries(a: seq<real>, b: seq<real>)
    requires |a| == |b| == 7
    ensures Lexicographic(a, b) ==
      Then(Sign(a[0] - b[0]), Then(Sign(a[1] - b[1]), Then(Sign(a[2] - b[2]),
        Then(Sign(a[3] - b[3]), Then(Sign(a[4] - b[4]), Then(Sign(a[5] - b[5]), Sign(a[6] - b[6])))))))
  {
    SplitFirst(a, b);
    SplitFirst(a[1..], b[1..]);
    SplitFirst(a[1..][1..], b[1..][1..]);
    SplitFirst(a[1..][1..][1..], b[1..][1..][1..]);
    SplitFirst(a[1..][1..][1..][1..], b[1..][1..][1..][1..]);
    SplitFirst(a[1..][1..][1..][1..][1..], b[1..][1..][1..][1..][1..]);
    SplitFirst(a[1..][1..][1..][1..][1..][1..], b[1..][1..][1..][1..][1..][1..]);
    assert a[1..][1..][1..][1..][1..][1..][1..] == [];
  }

  /** The ranking compares components, isolated pieces, the largest component and the envelope in this order. */
  lemma RankingIsLexicographic(a: Seed, b: Seed)
    ensures CompareCosts(a, b) == Lexicographic(RankKey(a), RankKey(b))
  {
    SevenEntries(RankKey(a), RankKey(b));
  }

  // ----- dominance

  predicate Dominates(first: Seed, second: Seed) {
    match (EnvelopeFor(first), EnvelopeFor(second))
    case (None, None) =>
      var noWorse :=
        && first.componentCount <= second.componentCount
        && first.isolatedPieceCount <= second.isolatedPieceCount
        && first.largestComponentSize >= second.largestComponentSize
        && first.maximumSideMm <= second.maximumSideMm
        && first.envelopeAreaMm2 <= second.envelopeAreaMm2
        && first.envelopeSpanMm <= second.envelopeSpanMm;
      var strict :=
        || first.componentCount < second.componentCount
        || first.isolatedPieceCount < second.isolatedPieceCount
        || first.largestComponentSize > second.largestComponentSize
        || first.maximumSideMm < second.maximumSideMm
        || first.envelopeAreaMm2 < second.envelopeAreaMm2
        || first.envelopeSpanMm < second.envelopeSpanMm;
      noWorse && strict
    case (None, Some(_)) => false
    case (Some(_), None) => false
    case (Some(a), Some(b)) =>
      var noWorse :=
        && first.componentCount <= second.componentCount
        && first.isolatedPieceCount <= second.isolatedPieceCount
        && first.largestComponentSize >= second.largestComponentSize
        && a.maximumSide - b.maximumSide <= 0.0
        && !(a.area > b.area)
        && a.span - b.span <= 0.0;
      var strict :=
        || first.componentCount < second.componentCount
        || first.isolatedPieceCount < second.isolatedPieceCount
        || first.largestComponentSize > second.largestComponentSize
        || a.maximumSide - b.maximumSide < 0.0
        || a.area < b.area
        || a.span - b.span < 0.0;
      noWorse && strict
  }

  /** The six costs of a seed, all to be small. */
  function Costs(seed: Seed): (costs: seq<real>)
    ensures |costs| == 6
  {
    match EnvelopeFor(seed)
    case None =>
      [seed.componentCount, seed.isolatedPieceCount, -seed.largestComponentSize,
       seed.maximumSideMm, seed.envelopeAreaMm2, seed.envelopeSpanMm]
    case Some(e) =>
      [seed.componentCount, seed.isolatedPieceCount, -seed.largestComponentSize, e.maximumSide, e.area as real, e.span]
  }

  ghost predicate NoWorse(c: seq<real>, d: seq<real>)
    requires |c| == |d|
  {
    forall i | 0 <= i < |c| :: c[i] <= d[i]
  }

  ghost predicate BetterSomewhere(c: seq<real>, d: seq<real>)
    requires |c| == |d|
  {
    exists i :: 0 <= i < |c| && c[i] < d[i]
  }

  lemma SixCosts(c: seq<real>, d: seq<real>)
    requires |c| == |d| == 6
    ensures NoWorse(c, d) <==>
      c[0] <= d[0] && c[1] <= d[1] && c[2] <= d[2] && c[3] <= d[3] && c[4] <= d[4] && c[5] <= d[5]
    ensures BetterSomewhere(c, d) <==>
      c[0] < d[0] || c[1] < d[1] || c[2] < d[2] || c[3] < d[3] || c[4] < d[4] || c[5] < d[5]
  {
  }

  /** Dominance is being no worse in every cost and better in one, among seeds measured alike. */
  lemma DominanceOfCosts(a: Seed, b: Seed)
    ensures Dominates(a, b) <==>
      && EnvelopeFor(a).Some? == EnvelopeFor(b).Some?
      && NoWorse(Costs(a), Costs(b)) && BetterSomewhere(Costs(a), Costs(b))
  {
    SixCosts(Costs(a), Costs(b));
  }

  /** A strict partial order, also over seeds with and without an envelope. */
  lemma DominanceIsStrictOrder(a: Seed, b: Seed, c: Seed)
    ensures !Dominates(a, a)
    ensures Dominates(a, b) ==> !Dominates(b, a)
    ensures Dominates(a, b) && Dominates(b, c) ==> Dominates(a, c)
  {
  }

  /** The ranking extends dominance. */
  lemma RankingExtendsDominance(keys: KeyOrder, a: Seed, b: Seed)
    requires Dominates(a, b)
    ensures CompareSeeds(keys, a, b) < 0 < CompareSeeds(keys, b, a)
  {
  }

  lemma CostsOrder(a: Seed, b: Seed, c: Seed)
    ensures CompareCosts(a, b) == -CompareCosts(b, a)
    ensures CompareCosts(a, b) <= 0 && CompareCosts(b, c) <= 0 ==> CompareCosts(a, c) <= 0
    ensures CompareCosts(a, b) <= 0 && CompareCosts(b, c) <= 0 && CompareCosts(a, c) == 0 ==>
      CompareCosts(a, b) == 0 == CompareCosts(b, c)
  {
  }

  /** The ranking is a total preorder. */
  lemma RankingIsOrder(keys: KeyOrder, seeds: seq<Seed>)
    requires IsOrder(keys)
    ensures TotalOn(seeds, RankOrder(keys)) && TransitiveOn(seeds, RankOrder(keys))
  {
  }

  // ----- the front

  predicate Dominated(seeds: seq<Seed>, i: nat)
    requires i < |seeds|
  {
    exists j | 0 <= j < |seeds| :: j != i && Dominates(seeds[j], seeds[i])
  }

  function NonDominated(seeds: seq<Seed>, count: nat): seq<Seed>
    requires count <= |seeds|
  {
    if count == 0 then []
    else NonDominated(seeds, count - 1) + if Dominated(seeds, count - 1) then [] else [seeds[count - 1]]
  }

  function Front(seeds: seq<Seed>): seq<Seed> {
    NonDominated(seeds, |seeds|)
  }

  function SelectFront(keys: KeyOrder, seeds: seq<Seed>, maximum: nat): seq<Seed> {
    SortKeeps(Front(seeds), RankOrder(keys));
    var ranked := Sort(Front(seeds), RankOrder(keys));
    if |ranked| <= maximum then ranked else ranked[..maximum]
  }

  lemma {:induction false} FrontItems(seeds: seq<Seed>, count: nat, s: Seed)
    requires count <= |seeds|
    ensures s in NonDominated(seeds, count) <==> exists i :: 0 <= i < count && seeds[i] == s && !Dominated(seeds, i)
  {
    if count > 0 {
      FrontItems(seeds, count - 1, s);
      if s in NonDominated(seeds, count) && s !in NonDominated(seeds, count - 1) {
        assert seeds[count - 1] == s;
      }
    }
  }

  ghost predicate DominatedBySome(seeds: seq<Seed>, s: Seed) {
    exists j :: 0 <= j < |seeds| && Dominates(seeds[j], s)
  }

  lemma DominatedAt(seeds: seq<Seed>, i: nat)
    requires i < |seeds|
    ensures Dominated(seeds, i) <==> DominatedBySome(seeds, seeds[i])
  {
    DominanceIsStrictOrder(seeds[i], seeds[i], seeds[i]);
  }

  /** Of the first `count` seeds, `s` is kept as often as it occurs, or never when some seed dominates it. */
  ghost predicate CountsKept(seeds: seq<Seed>, count: nat, s: Seed)
    requires count <= |seeds|
  {
    multiset(NonDominated(seeds, count))[s] == if DominatedBySome(seeds, s) then 0 else multiset(seeds[..count])[s]
  }

  /** The front has every seed that none dominates as often as the list, equal seeds included, and no other. */
  lemma FrontCounts(seeds: seq<Seed>, s: Seed)
    ensures multiset(Front(seeds))[s] == if DominatedBySome(seeds, s) then 0 else multiset(seeds)[s]
  {
    FirstCounts(seeds, |seeds|, s);
    assert seeds[..|seeds|] == seeds;
  }

  lemma {:induction false} FirstCounts(seeds: seq<Seed>, count: nat, s: Seed)
    requires count <= |seeds|
    ensures CountsKept(seeds, count, s)
  {
    if count > 0 {
      var before := count - 1;
      FirstCounts(seeds, before, s);
      CountsNext(seeds, before, s);
    }
  }

  lemma {:induction false} CountsNext(seeds: seq<Seed>, count: nat, s: Seed)
    requires count < |seeds| && CountsKept(seeds, count, s)
    ensures CountsKept(seeds, count + 1, s)
  {
    var last, kept := seeds[count], !DominatedBySome(seeds, seeds[count]);
    DominatedAt(seeds, count);
    CountNext(NonDominated(seeds, count), last, kept, s);
    CountNext(seeds[..count], last, true, s);
    assert seeds[..count + 1] == seeds[..count] + [last];
  }

  lemma CountNext<T>(items: seq<T>, next: T, kept: bool, x: T)
    ensures multiset(items + if kept then [next] else [])[x] == multiset(items)[x] + if kept && next == x then 1 else 0
  {
    assert items + [] == items;
  }

  /** No seed of the front dominates another. */
  lemma FrontIsAntichain(seeds: seq<Seed>, s: Seed, t: Seed)
    requires s in Front(seeds) && t in Front(seeds)
    ensures !Dominates(s, t)
  {
    FrontItems(seeds, |seeds|, s);
    FrontItems(seeds, |seeds|, t);
    var i :| 0 <= i < |seeds| && seeds[i] == s && !Dominated(seeds, i);
    var j :| 0 <= j < |seeds| && seeds[j] == t && !Dominated(seeds, j);
    DominanceIsStrictOrder(s, t, s);
    assert i == j ==> s == t;
  }

  ghost function Dominators(seeds: seq<Seed>, s: Seed): set<nat> {
    set j: nat | j < |seeds| && Dominates(seeds[j], s)
  }

  /** Every dropped seed is dominated by one that is kept. */
  lemma {:induction false} DroppedIsDominated(seeds: seq<Seed>, i: nat) returns (keeper: Seed)
    requires i < |seeds| && Dominated(seeds, i)
    ensures keeper in Front(seeds) && Dominates(keeper, seeds[i])
    decreases |Dominators(seeds, seeds[i])|
  {
    var j: nat :| j < |seeds| && j != i && Dominates(seeds[j], seeds[i]);
    if Dominated(seeds, j) {
      FewerDominators(seeds, seeds[j], seeds[i], j);
      keeper := DroppedIsDominated(seeds, j);
      DominanceIsStrictOrder(keeper, seeds[j], seeds[i]);
    } else {
      keeper := seeds[j];
      FrontItems(seeds, |seeds|, keeper);
    }
  }

  lemma FewerDominators(seeds: seq<Seed>, s: Seed, t: Seed, j: nat)
    requires j < |seeds| && seeds[j] == s && Dominates(s, t)
    ensures |Dominators(seeds, s)| < |Dominators(seeds, t)|
  {
    var a, b := Dominators(seeds, s), Dominators(seeds, t);
    DominanceIsStrictOrder(s, s, s);
    forall k | k in a ensures k in b {
      DominanceIsStrictOrder(seeds[k], s, t);
    }
    assert j in b && j !in a;
    SmallerSubset(a, b, j);
  }

  lemma SmallerSubset<T>(a: set<T>, b: set<T>, x: T)
    requires a <= b && x in b && x !in a
    ensures |a| < |b|
  {
    FullSubset(a, b);
  }

  /** For a cap of at least one, the head of the selected front is a minimum of all the seeds. */
  lemma HeadIsMinimum(keys: KeyOrder, seeds: seq<Seed>, maximum: nat, i: nat)
    requires IsOrder(keys) && maximum >= 1 && i < |seeds|
    ensures SelectFront(keys, seeds, maximum) != []
    ensures CompareSeeds(keys, SelectFront(keys, seeds, maximum)[0], seeds[i]) <= 0
  {
    var keeper := Keeper(keys, seeds, i);
    HeadOfRanked(keys, Front(seeds), keeper);
    RankTransitive(keys, Sort(Front(seeds), RankOrder(keys))[0], keeper, seeds[i]);
  }

  /** A seed of the front that ranks no later. */
  lemma Keeper(keys: KeyOrder, seeds: seq<Seed>, i: nat) returns (keeper: Seed)
    requires IsOrder(keys) && i < |seeds|
    ensures keeper in Front(seeds) && CompareSeeds(keys, keeper, seeds[i]) <= 0
  {
    keeper := seeds[i];
    if Dominated(seeds, i) {
      keeper := DroppedIsDominated(seeds, i);
      RankingExtendsDominance(keys, keeper, seeds[i]);
    } else {
      FrontItems(seeds, |seeds|, keeper);
      assert keys(keeper.canonicalKey, keeper.canonicalKey) <= 0;
      CostsOrder(keeper, keeper, keeper);
    }
  }

  lemma RankTransitive(keys: KeyOrder, a: Seed, b: Seed, c: Seed)
    requires IsOrder(keys) && CompareSeeds(keys, a, b) <= 0 && CompareSeeds(keys, b, c) <= 0
    ensures CompareSeeds(keys, a, c) <= 0
  {
    RankingIsOrder(keys, [a, b, c]);
    assert a in [a, b, c] && b in [a, b, c] && c in [a, b, c];
    assert RankOrder(keys)(a, b) && RankOrder(keys)(b, c);
  }

  lemma {:induction false} HeadOfRanked(keys: KeyOrder, front: seq<Seed>, s: Seed)
    requires IsOrder(keys) && s in front
    ensures var ranked := Sort(front, RankOrder(keys));
            ranked != [] && RankOrder(keys)(ranked[0], s)
  {
    var le, ranked := RankOrder(keys), Sort(front, RankOrder(keys));
    RankingIsOrder(keys, front);
    SortSorts(front, le);
    SortKeeps(front, le);
    SameItems(ranked, front);
    var k :| 0 <= k < |ranked| && ranked[k] == s;
    if k == 0 {
      assert s in front && TotalOn(front, le);
      assert le(s, s);
    }
  }

  /** The selection keeps the front, in ranking order, up to the cap. */
  lemma SelectionIsRankedFront(keys: KeyOrder, seeds: seq<Seed>, maximum: nat)
    requires IsOrder(keys)
    ensures SortedBy(SelectFront(keys, seeds, maximum), RankOrder(keys))
    ensures multiset(SelectFront(keys, seeds, |seeds|)) == multiset(Front(seeds))
  {
    RankingIsOrder(keys, Front(seeds));
    SortSorts(Front(seeds), RankOrder(keys));
    WholeSelection(keys, seeds);
  }

  lemma WholeSelection(keys: KeyOrder, seeds: seq<Seed>)
    ensures SelectFront(keys, seeds, |seeds|) == Sort(Front(seeds), RankOrder(keys))
    ensures multiset(SelectFront(keys, seeds, |seeds|)) == multiset(Front(seeds))
  {
    SortKeeps(Front(seeds), RankOrder(keys));
    FrontIsShort(seeds, |seeds|);
  }

  /** The cap cuts the ranked front off, and nothing else. */
  lemma CapTruncates(keys: KeyOrder, seeds: seq<Seed>, maximum: nat)
    ensures SelectFront(keys, seeds, maximum) <= SelectFront(keys, seeds, |seeds|)
    ensures |SelectFront(keys, seeds, maximum)| == if maximum <= |Front(seeds)| then maximum else |Front(seeds)|
  {
    SortKeeps(Front(seeds), RankOrder(keys));
    FrontIsShort(seeds, |seeds|);
  }

  lemma {:induction false} FrontIsShort(seeds: seq<Seed>, count: nat)
    requires count <= |seeds|
    ensures |NonDominated(seeds, count)| <= count
  {
    if count > 0 {
      FrontIsShort(seeds, count - 1);
    }
  }
}
