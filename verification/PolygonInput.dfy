/** The polygon importer: which point lists it accepts and the ring it makes of them. */
module PolygonInput {
  import opened Wrappers
  import opened Lists
  import opened Segments
  import opened Rings
  import opened RingOrder
  import opened Cycles

  const MAX_VERTICES_PER_POLYGON := 4096
  const MAX_SAFE_INTEGER := 9007199254740991

  datatype Rejection =
    | TooManyVertices
    | TooFewVertices
    | RepeatedVertex
    | NoExtent
    | Collinear
    | SelfIntersection
    | TooLarge

  /** An accepted polygon: its ring, its bounds rounded up and its sides. */
  datatype Imported = Imported(ring: seq<Point>, width: int, height: int, sides: seq<Segment>)

  // ----- from the point list to a ring

  /** The list without points that repeat their predecessor. */
  function Dedup(points: seq<Point>): seq<Point> {
    if points == [] then []
    else
      var kept, last := Dedup(points[..|points| - 1]), points[|points| - 1];
      if kept != [] && kept[|kept| - 1] == last then kept else kept + [last]
  }

  /** The ring that a point list describes: a closing point that repeats the first one is dropped. */
  function Opened(points: seq<Point>): seq<Point> {
    var kept := Dedup(points);
    if |kept| >= 2 && kept[0] == kept[|kept| - 1] then kept[..|kept| - 1] else kept
  }

  function Lowest(points: seq<Point>, coordinate: Point -> real): real
    requires points != []
  {
    if |points| == 1 then coordinate(points[0])
    else Min(Lowest(points[..|points| - 1], coordinate), coordinate(points[|points| - 1]))
  }

  ghost predicate IsLowest(points: seq<Point>, coordinate: Point -> real, low: real) {
    && (forall i | 0 <= i < |points| :: low <= coordinate(points[i]))
    && (exists i :: 0 <= i < |points| && low == coordinate(points[i]))
  }

  lemma {:induction false} LowestIsLowest(points: seq<Point>, coordinate: Point -> real)
    requires points != []
    ensures IsLowest(points, coordinate, Lowest(points, coordinate))
  {
    var n := |points|;
    if n == 1 {
      assert points[0] in points;
    } else {
      var init := points[..n - 1];
      LowestIsLowest(init, coordinate);
      var low := Lowest(init, coordinate);
      var k :| 0 <= k < n - 1 && low == coordinate(init[k]);
      assert points[k] == init[k];
      assert forall i | 0 <= i < n - 1 :: points[i] == init[i];
      assert Lowest(points, coordinate) == coordinate(points[if low <= coordinate(points[n - 1]) then k else n - 1]);
    }
  }

  function AcrossOf(): Point -> real { (p: Point) => p.x }

  function UpOf(): Point -> real { (p: Point) => p.y }

  function Opposite(coordinate: Point -> real): Point -> real { p => -coordinate(p) }

  /** The extent of the points along a coordinate. */
  function Extent(points: seq<Point>, coordinate: Point -> real): real
    requires points != []
  {
    -Lowest(points, Opposite(coordinate)) - Lowest(points, coordinate)
  }

  function Moved(p: Point, d: Point): Point {
    Point(p.x - d.x, p.y - d.y)
  }

  function Move(points: seq<Point>, d: Point): (moved: seq<Point>)
    ensures |moved| == |points|
  {
    seq(|points|, i requires 0 <= i < |points| => Moved(points[i], d))
  }

  function Corner(ring: seq<Point>): Point
    requires ring != []
  {
    Point(Lowest(ring, AcrossOf()), Lowest(ring, UpOf()))
  }

  function NormalForm(ring: seq<Point>): seq<Point>
    requires ring != []
  {
    Canonical(Move(ring, Corner(ring)))
  }

  predicate Fits(ring: seq<Point>)
    requires ring != []
  {
    && Extent(ring, AcrossOf()) <= MAX_SAFE_INTEGER as real
    && Extent(ring, UpOf()) <= MAX_SAFE_INTEGER as real
  }

  predicate Flat(ring: seq<Point>)
    requires ring != []
  {
    Extent(ring, AcrossOf()) <= 0.0 || Extent(ring, UpOf()) <= 0.0
  }

  /** What is wrong with the ring of a point list, in the order of the checks. */
  ghost function FaultOf(ring: seq<Point>): Option<Rejection> {
    if |ring| < 3 then Some(TooFewVertices)
    else if !NoRepeats(ring) then Some(RepeatedVertex)
    else if Flat(ring) then Some(NoExtent)
    else if AllCollinear(ring) then Some(Collinear)
    else if !Simple(ring) then Some(SelfIntersection)
    else if !Fits(ring) then Some(TooLarge)
    else None
  }

  /** The least integer from 1 on that an extent does not exceed. */
  predicate RoundsUp(bound: int, extent: real) {
    bound >= 1 && extent <= bound as real && (bound > 1 ==> bound as real - 1.0 < extent)
  }

  function Ceiling(x: real): int {
    -(-x).Floor
  }

  function Bound(extent: real): (bound: int)
    ensures RoundsUp(bound, extent)
    ensures bound > MAX_SAFE_INTEGER <==> extent > MAX_SAFE_INTEGER as real
  {
    if Ceiling(extent) >= 1 then Ceiling(extent) else 1
  }

  /** The ring's normal form with its bounds and edges. */
  predicate IsImportOf(polygon: Imported, ring: seq<Point>)
    requires ring != []
  {
    && polygon.ring == NormalForm(ring)
    && RoundsUp(polygon.width, Extent(ring, AcrossOf())) && RoundsUp(polygon.height, Extent(ring, UpOf()))
    && AreSides(polygon.sides, polygon.ring)
  }

  predicate AreSides(sides: seq<Segment>, ring: seq<Point>) {
    |sides| == |ring| && forall i | 0 <= i < |ring| :: sides[i] == Edge(ring, i)
  }

  /** The point lists that the importer accepts. */
  ghost predicate Acceptable(points: seq<Point>) {
    var ring := Opened(points);
    |points| <= MAX_VERTICES_PER_POLYGON && |ring| >= 3 && NoRepeats(ring) && Simple(ring) && Fits(ring)
  }

  /** The pairs budgeted for a polygon of `n` listed points. */
  function PairChecks(n: nat): nat {
    n * (if n >= 3 then n - 3 else 0) / 2
  }

  method NormalizePolygon(points: seq<Point>) returns (result: Result<Imported, Rejection>, ghost tests: nat)
    ensures result.Ok? <==> Acceptable(points)
    ensures result.Ok? ==> IsImportOf(result.value, Opened(points))
    ensures result.Ok? ==> tests == PairChecks(|Opened(points)|) <= PairChecks(|points|)
    ensures result.Err? ==>
      Some(result.error) ==
        if |points| > MAX_VERTICES_PER_POLYGON then Some(TooManyVertices) else FaultOf(Opened(points))
  {
    tests := 0;
    if |points| > MAX_VERTICES_PER_POLYGON {
      return Err(TooManyVertices), tests;
    }
    var ring := OpenRing(points);
    if |ring| < 3 {
      return Err(TooFewVertices), tests;
    }
    var repeated := RepeatsVertex(ring);
    if repeated {
      return Err(RepeatedVertex), tests;
    }
    OpenedIsShort(points);
    PairsGrow(|ring|, |points|);
    result, tests := NormalizeRing(ring);
  }

  method NormalizeRing(ring: seq<Point>) returns (result: Result<Imported, Rejection>, ghost tests: nat)
    requires |ring| >= 3 && NoRepeats(ring)
    ensures result.Ok? <==> Simple(ring) && Fits(ring)
    ensures result.Ok? ==> IsImportOf(result.value, ring) && tests == PairChecks(|ring|)
    ensures result.Err? ==> Some(result.error) == FaultOf(ring)
  {
    tests := 0;
    var minX, width := MeasureExtent(ring, AcrossOf());
    var minY, height := MeasureExtent(ring, UpOf());
    var corner := Point(minX, minY);
    assert corner == Corner(ring);
    if width <= 0.0 || height <= 0.0 {
      FlatIsCollinear(ring);
      FlatIsNotSimple(ring);
      return Err(NoExtent), tests;
    }
    var normalized := Move(ring, corner);
    MovedRing(ring, corner);
    var fault;
    fault, tests := FindFault(normalized);
    if fault.Some? {
      return Err(fault.value), tests;
    }
    var canonical := CanonicalCopy(normalized);
    SimpleIsNotFlat(ring);
    if Bound(width) > MAX_SAFE_INTEGER || Bound(height) > MAX_SAFE_INTEGER {
      return Err(TooLarge), tests;
    }
    var sides := SidesOf(canonical);
    result := Ok(Imported(canonical, Bound(width), Bound(height), sides));
  }

  method SidesOf(ring: seq<Point>) returns (sides: seq<Segment>)
    ensures AreSides(sides, ring)
  {
    sides := [];
    for i := 0 to |ring|
      invariant |sides| == i && forall k | 0 <= k < i :: sides[k] == Edge(ring, k)
    {
      sides := sides + [Segment(ring[i], ring[Next(|ring|, i)])];
    }
  }

  lemma SimpleIsNotFlat(ring: seq<Point>)
    requires |ring| >= 3 && NoRepeats(ring) && Simple(ring)
    ensures !AllCollinear(ring)
  {
    AcceptedRingsAreSimple(ring);
    NonCollinearTripleIsExact(ring);
  }

  method CanonicalCopy(ring: seq<Point>) returns (canonical: seq<Point>)
    requires ring != []
    ensures canonical == Canonical(ring)
  {
    var buffer := new Point[|ring|](i requires 0 <= i < |ring| => ring[i]);
    assert buffer[..] == ring;
    CanonicalizeRing(buffer);
    canonical := buffer[..];
  }

  lemma FlatIsNotSimple(ring: seq<Point>)
    requires |ring| >= 3 && NoRepeats(ring) && AllCollinear(ring)
    ensures !Simple(ring)
  {
    if Simple(ring) {
      SimpleIsNotFlat(ring);
    }
  }

  method FindFault(ring: seq<Point>) returns (fault: Option<Rejection>, ghost tests: nat)
    requires |ring| >= 3 && NoRepeats(ring)
    ensures fault.None? ==> Simple(ring) && tests == PairChecks(|ring|)
    ensures fault.Some? ==> !Simple(ring) && fault.value == if AllCollinear(ring) then Collinear else SelfIntersection
  {
    tests := 0;
    AcceptedRingsAreSimple(ring);
    NonCollinearTripleIsExact(ring);
    if !ContainsNonCollinearTriple(ring) {
      return Some(Collinear), tests;
    }
    var crossed;
    crossed, tests := HasSelfIntersection(ring);
    fault := if crossed then Some(SelfIntersection) else None;
  }

  method OpenRing(points: seq<Point>) returns (ring: seq<Point>)
    ensures ring == Opened(points)
  {
    ring := [];
    for i := 0 to |points|
      invariant ring == Dedup(points[..i])
    {
      assert points[..i + 1][..i] == points[..i];
      if ring != [] && ring[|ring| - 1] == points[i] {
        continue;
      }
      ring := ring + [points[i]];
    }
    assert points[..|points|] == points;
    if |ring| >= 2 && ring[0] == ring[|ring| - 1] {
      ring := ring[..|ring| - 1];
    }
  }

  method RepeatsVertex(ring: seq<Point>) returns (repeated: bool)
    ensures repeated <==> !NoRepeats(ring)
  {
    var seen := {};
    for i := 0 to |ring|
      invariant forall p :: p in seen <==> p in ring[..i]
      invariant forall j, k | 0 <= j < k < i :: ring[j] != ring[k]
    {
      if ring[i] in seen {
        return true;
      }
      seen := seen + {ring[i]};
    }
    repeated := false;
  }

  method MeasureExtent(points: seq<Point>, coordinate: Point -> real) returns (low: real, extent: real)
    requires points != []
    ensures low == Lowest(points, coordinate) && extent == Extent(points, coordinate)
  {
    low := coordinate(points[0]);
    var high := low;
    for i := 1 to |points|
      invariant low == Lowest(points[..i], coordinate) && high == -Lowest(points[..i], Opposite(coordinate))
    {
      LowestOfLonger(points, i, coordinate);
      LowestOfLonger(points, i, Opposite(coordinate));
      low := Min(low, coordinate(points[i]));
      high := Max(high, coordinate(points[i]));
    }
    assert points[..|points|] == points;
    extent := high - low;
  }

  lemma LowestOfLonger(points: seq<Point>, i: nat, coordinate: Point -> real)
    requires 0 < i < |points|
    ensures Lowest(points[..i + 1], coordinate) == Min(Lowest(points[..i], coordinate), coordinate(points[i]))
  {
    assert points[..i + 1][..i] == points[..i];
  }

  // ----- helpers of the contract above

  lemma {:induction false} OpenedIsShort(points: seq<Point>)
    ensures |Opened(points)| <= |Dedup(points)| <= |points|
  {
    if points != [] {
      OpenedIsShort(points[..|points| - 1]);
    }
  }

  lemma PairsGrow(m: nat, n: nat)
    requires 3 <= m <= n
    ensures m * (m - 3) <= n * (n - 3)
    ensures PairChecks(m) <= PairChecks(n)
  {
  }

  lemma FlatIsCollinear(ring: seq<Point>)
    requires ring != [] && (Extent(ring, AcrossOf()) <= 0.0 || Extent(ring, UpOf()) <= 0.0)
    ensures AllCollinear(ring)
  {
    var along := if Extent(ring, AcrossOf()) <= 0.0 then AcrossOf() else UpOf();
    var low := Lowest(ring, along);
    LowestIsLowest(ring, along);
    LowestIsLowest(ring, Opposite(along));
    forall i | 0 <= i < |ring| ensures along(ring[i]) == low {
      assert Lowest(ring, Opposite(along)) <= Opposite(along)(ring[i]);
    }
    forall i, j, k | 0 <= i < |ring| && 0 <= j < |ring| && 0 <= k < |ring|
      ensures Cross(ring[i], ring[j], ring[k]) == 0.0
    {
      assert along(ring[i]) == along(ring[j]) == along(ring[k]);
      FlatCross(ring[i], ring[j], ring[k]);
    }
  }

  lemma FlatCross(a: Point, b: Point, c: Point)
    requires a.x == b.x == c.x || a.y == b.y == c.y
    ensures Cross(a, b, c) == 0.0
  {
  }

  lemma MovedPointOnSegment(p: Point, s: Segment, d: Point)
    ensures OnSegment(Moved(p, d), Segment(Moved(s.start, d), Moved(s.end, d))) <==> OnSegment(p, s)
  {
    forall t: real ensures At(Segment(Moved(s.start, d), Moved(s.end, d)), t) == Moved(At(s, t), d) {
    }
  }

  lemma MovedEdge(ring: seq<Point>, d: Point, i: nat, q: Point)
    requires i < |ring| && OnSegment(q, Edge(Move(ring, d), i))
    ensures OnSegment(Moved(q, Point(-d.x, -d.y)), Edge(ring, i))
  {
    var p := Moved(q, Point(-d.x, -d.y));
    assert Moved(p, d) == q;
    MovedPointOnSegment(p, Edge(ring, i), d);
  }

  lemma MovedSimple(ring: seq<Point>, d: Point)
    requires Simple(ring)
    ensures Simple(Move(ring, d))
  {
    var moved := Move(ring, d);
    forall i, j | 0 <= i < j < |ring| ensures Apart(moved, i, j) {
      assert Apart(ring, i, j);
      forall q | OnSegment(q, Edge(moved, i)) && OnSegment(q, Edge(moved, j))
        ensures Adjacent(|ring|, i, j) && q == moved[if j == i + 1 then j else 0]
      {
        MovedEdge(ring, d, i, q);
        MovedEdge(ring, d, j, q);
      }
    }
  }

  lemma MoveBack(ring: seq<Point>, d: Point)
    ensures Move(Move(ring, d), Point(-d.x, -d.y)) == ring
  {
  }

  lemma MovedCollinear(ring: seq<Point>, d: Point)
    requires AllCollinear(ring)
    ensures AllCollinear(Move(ring, d))
  {
  }

  lemma MovedNoRepeats(ring: seq<Point>, d: Point)
    ensures NoRepeats(Move(ring, d)) == NoRepeats(ring)
  {
    assert forall i | 0 <= i < |ring| :: Move(ring, d)[i] == Moved(ring[i], d);
  }

  lemma MovedRing(ring: seq<Point>, d: Point)
    ensures NoRepeats(Move(ring, d)) == NoRepeats(ring)
    ensures AllCollinear(Move(ring, d)) == AllCollinear(ring)
    ensures Simple(Move(ring, d)) == Simple(ring)
  {
    var moved, back := Move(ring, d), Point(-d.x, -d.y);
    MoveBack(ring, d);
    MovedNoRepeats(ring, d);
    if AllCollinear(ring) {
      MovedCollinear(ring, d);
    }
    if AllCollinear(moved) {
      MovedCollinear(moved, back);
    }
    if Simple(ring) {
      MovedSimple(ring, d);
    }
    if Simple(moved) {
      MovedSimple(moved, back);
    }
  }

  // ----- opening a point list

  predicate Repeats(ring: seq<Point>, i: nat)
    requires 0 < i < |ring|
  {
    ring[i] == ring[i - 1]
  }

  ghost predicate NoneRepeats(ring: seq<Point>) {
    forall i | 0 < i < |ring| :: !Repeats(ring, i)
  }

  /** No point repeats the one before it, around the end included. */
  ghost predicate IsOpen(ring: seq<Point>) {
    && NoneRepeats(ring)
    && (|ring| >= 2 ==> ring[0] != ring[|ring| - 1])
  }

  lemma {:induction false} DedupEnds(points: seq<Point>)
    requires points != []
    ensures var kept := Dedup(points);
            kept != [] && kept[0] == points[0] && kept[|kept| - 1] == points[|points| - 1]
  {
    if |points| > 1 {
      DedupEnds(points[..|points| - 1]);
    }
  }

  lemma {:induction false} DedupedHasNone(points: seq<Point>)
    ensures NoneRepeats(Dedup(points))
  {
    if points != [] {
      var init := points[..|points| - 1];
      DedupedHasNone(init);
      LongerRepeats(Dedup(init), points[|points| - 1]);
    }
  }

  lemma LongerRepeats(kept: seq<Point>, next: Point)
    ensures NoneRepeats(kept + [next]) <==> NoneRepeats(kept) && (kept != [] ==> kept[|kept| - 1] != next)
  {
    var longer := kept + [next];
    forall i | 0 < i < |kept| ensures Repeats(longer, i) == Repeats(kept, i) {
    }
    if kept != [] {
      assert Repeats(longer, |kept|) <==> kept[|kept| - 1] == next;
    }
  }

  lemma {:induction false} DedupGoesOn(a: seq<Point>, b: seq<Point>, more: seq<Point>)
    requires Dedup(a) == Dedup(b)
    ensures Dedup(a + more) == Dedup(b + more)
  {
    if more == [] {
      assert a + more == a && b + more == b;
    } else {
      var n := |more| - 1;
      DedupGoesOn(a, b, more[..n]);
      assert (a + more)[..|a + more| - 1] == a + more[..n];
      assert (b + more)[..|b + more| - 1] == b + more[..n];
    }
  }

  lemma {:induction false} DedupNext(points: seq<Point>, next: Point)
    requires points != []
    ensures Dedup(points + [next]) ==
      if points[|points| - 1] == next then Dedup(points) else Dedup(points) + [next]
  {
    DedupEnds(points);
    assert (points + [next])[..|points|] == points;
  }

  /** Repeating a point in place changes nothing. */
  lemma RepeatedPointIsDropped(points: seq<Point>, i: nat)
    requires i < |points|
    ensures Opened(points[..i + 1] + points[i..]) == Opened(points)
  {
    var before, p, more := points[..i + 1], points[i], points[i + 1..];
    DedupNext(before, p);
    DedupGoesOn(before + [p], before, more);
    assert before + points[i..] == before + [p] + more;
    assert points == before + more;
  }

  /** Closing a list by its first point changes nothing. */
  lemma ClosingPointIsDropped(points: seq<Point>)
    requires points != []
    ensures Opened(points + [points[0]]) == Opened(points)
  {
    DedupEnds(points);
    DedupNext(points, points[0]);
  }

  /** What is left has nothing to drop. */
  lemma OpenedIsOpen(points: seq<Point>)
    ensures IsOpen(Opened(points))
  {
    if points != [] {
      DedupedHasNone(points);
      var kept := Dedup(points);
      if |kept| >= 2 && kept[0] == kept[|kept| - 1] {
        var init := kept[..|kept| - 1];
        assert kept == init + [kept[|kept| - 1]];
        LongerRepeats(init, kept[|kept| - 1]);
        assert |init| >= 2 ==> init[|init| - 1] != kept[|kept| - 1];
      }
    }
  }

  /** A list with nothing to drop is left as it is. */
  lemma OpenIsOpened(ring: seq<Point>)
    requires IsOpen(ring)
    ensures Opened(ring) == ring
  {
    OpenIsDeduped(ring);
  }

  lemma {:induction false} OpenIsDeduped(ring: seq<Point>)
    requires NoneRepeats(ring)
    ensures Dedup(ring) == ring
  {
    if |ring| > 1 {
      var init, last := ring[..|ring| - 1], ring[|ring| - 1];
      assert ring == init + [last];
      LongerRepeats(init, last);
      OpenIsDeduped(init);
      DedupNext(init, last);
    } else if ring != [] {
      assert ring == [ring[0]] && ring[..0] == [];
    }
  }

  /** Within the vertex limit, a closed list and one with a repeated point are accepted like the list, with its ring. */
  lemma ClosedOrRepeatedSameResult(points: seq<Point>, i: nat)
    requires i < |points| < MAX_VERTICES_PER_POLYGON
    ensures Acceptable(points + [points[0]]) <==> Acceptable(points)
    ensures Acceptable(points[..i + 1] + points[i..]) <==> Acceptable(points)
    ensures FaultOf(Opened(points + [points[0]])) == FaultOf(Opened(points))
    ensures FaultOf(Opened(points[..i + 1] + points[i..])) == FaultOf(Opened(points))
    ensures Acceptable(points) ==>
      && NormalForm(Opened(points + [points[0]])) == NormalForm(Opened(points))
      && NormalForm(Opened(points[..i + 1] + points[i..])) == NormalForm(Opened(points))
  {
    ClosingPointIsDropped(points);
    RepeatedPointIsDropped(points, i);
  }

  /** Every triangle that is not flat and fits is accepted. */
  lemma TriangleIsAccepted(a: Point, b: Point, c: Point)
    requires Cross(a, b, c) != 0.0 && Fits([a, b, c])
    ensures Acceptable([a, b, c])
  {
    var ring := [a, b, c];
    assert Cross(ring[0], ring[1], ring[2]) != 0.0;
    assert !AllCollinear(ring);
    assert NoRepeats(ring) by {
      DistinctCorners(a, b, c);
    }
    DistinctIsOpened(ring);
    AcceptedRingsAreSimple(ring);
    NonCollinearTripleIsExact(ring);
    assert !SelfIntersecting(ring);
  }

  lemma DistinctCorners(a: Point, b: Point, c: Point)
    requires Cross(a, b, c) != 0.0
    ensures a != b && b != c && a != c
  {
  }

  /** The extent is the greatest difference of two coordinates. */
  lemma ExtentIsSpan(points: seq<Point>, coordinate: Point -> real)
    requires points != []
    ensures forall i, j | 0 <= i < |points| && 0 <= j < |points| ::
              coordinate(points[i]) - coordinate(points[j]) <= Extent(points, coordinate)
    ensures exists i, j :: 0 <= i < |points| && 0 <= j < |points|
              && coordinate(points[i]) - coordinate(points[j]) == Extent(points, coordinate)
  {
    LowestIsLowest(points, coordinate);
    LowestIsLowest(points, Opposite(coordinate));
  }

  // ----- the result does not depend on where the ring starts, its direction or its position

  /** The edge of the ring that edge `k` of its variant is. */
  function SourceEdge(n: nat, start: nat, forward: bool, k: nat): (r: nat)
    requires start < n && k < n
    ensures r < n
  {
    Place(n, start, forward, if forward then k else Next(n, k))
  }

  lemma VariantEdge(ring: seq<Point>, start: nat, forward: bool, k: nat, q: Point)
    requires start < |ring| && k < |ring| && OnSegment(q, Edge(Variant(ring, start, forward), k))
    ensures OnSegment(q, Edge(ring, SourceEdge(|ring|, start, forward, k)))
  {
    var s := Edge(Variant(ring, start, forward), k);
    if !forward {
      ReversedSegment(q, s);
    }
  }

  lemma SourceEdgesCorrespond(n: nat, start: nat, forward: bool, k: nat, j: nat)
    requires start < n && k < n && j < n && n >= 3 && k != j
    ensures var a, b := SourceEdge(n, start, forward, k), SourceEdge(n, start, forward, j);
            && a != b
            && (b == Next(n, a) <==> if forward then j == Next(n, k) else k == Next(n, j))
            && (j == Next(n, k) ==> Place(n, start, forward, j) == if forward then b else a)
  {
  }

  /** `Apart` without the order of the two edges. */
  ghost predicate ApartEither(ring: seq<Point>, i: nat, j: nat)
    requires i < |ring| && j < |ring|
  {
    if j == Next(|ring|, i) then MeetOnlyAt(Edge(ring, i), Edge(ring, j), ring[j])
    else if i == Next(|ring|, j) then MeetOnlyAt(Edge(ring, i), Edge(ring, j), ring[i])
    else !Meet(Edge(ring, i), Edge(ring, j))
  }

  lemma SimpleEither(ring: seq<Point>, i: nat, j: nat)
    requires |ring| >= 3 && Simple(ring) && i < |ring| && j < |ring| && i != j
    ensures ApartEither(ring, i, j)
  {
    assert if i < j then Apart(ring, i, j) else Apart(ring, j, i);
  }

  lemma VariantIsSimple(ring: seq<Point>, start: nat, forward: bool)
    requires |ring| >= 3 && start < |ring| && Simple(ring)
    ensures Simple(Variant(ring, start, forward))
  {
    var n := |ring|;
    var variant := Variant(ring, start, forward);
    forall i, j | 0 <= i < j < n ensures Apart(variant, i, j) {
      var a, b := SourceEdge(n, start, forward, i), SourceEdge(n, start, forward, j);
      SourceEdgesCorrespond(n, start, forward, i, j);
      SourceEdgesCorrespond(n, start, forward, j, i);
      SimpleEither(ring, a, b);
      forall q | OnSegment(q, Edge(variant, i)) && OnSegment(q, Edge(variant, j))
        ensures Adjacent(n, i, j) && q == variant[if j == i + 1 then j else 0]
      {
        VariantEdge(ring, start, forward, i, q);
        VariantEdge(ring, start, forward, j, q);
      }
    }
  }

  lemma LowestIs(points: seq<Point>, coordinate: Point -> real, k: nat)
    requires k < |points| && forall i | 0 <= i < |points| :: coordinate(points[k]) <= coordinate(points[i])
    ensures Lowest(points, coordinate) == coordinate(points[k])
  {
    LowestIsLowest(points, coordinate);
  }

  /** A variant of a moved ring has the moved extreme coordinates. */
  lemma LowestOfShape(ring: seq<Point>, d: Point, start: nat, forward: bool,
    coordinate: Point -> real, shift: real)
    requires start < |ring|
    requires forall p :: coordinate(Moved(p, d)) == coordinate(p) - shift
    ensures Lowest(Variant(Move(ring, d), start, forward), coordinate) == Lowest(ring, coordinate) - shift
  {
    var n := |ring|;
    var moved := Move(ring, d);
    var variant := Variant(moved, start, forward);
    var low := Lowest(ring, coordinate);
    LowestIsLowest(ring, coordinate);
    var m :| 0 <= m < n && low == coordinate(ring[m]);
    var k := if forward then Wrap(n, m + n - start) else Wrap(n, start + n - m);
    assert Place(n, start, forward, k) == m;
    assert variant[k] == moved[m] == Moved(ring[m], d);
    forall i | 0 <= i < n ensures coordinate(variant[k]) <= coordinate(variant[i]) {
      var p := Place(n, start, forward, i);
      assert variant[i] == moved[p] == Moved(ring[p], d);
      assert low <= coordinate(ring[p]);
    }
    LowestIs(variant, coordinate, k);
  }

  lemma ShapeKeepsExtent(ring: seq<Point>, d: Point, start: nat, forward: bool)
    requires start < |ring|
    ensures var variant := Variant(Move(ring, d), start, forward);
            Corner(variant) == Moved(Corner(ring), d) && Fits(variant) == Fits(ring)
  {
    AlongAxis(ring, d, start, forward, AcrossOf(), d.x);
    AlongAxis(ring, d, start, forward, UpOf(), d.y);
  }

  lemma {:induction false} AlongAxis(ring: seq<Point>, d: Point, start: nat, forward: bool,
    coordinate: Point -> real, shift: real)
    requires start < |ring|
    requires (coordinate == AcrossOf() && shift == d.x) || (coordinate == UpOf() && shift == d.y)
    ensures var variant := Variant(Move(ring, d), start, forward);
            && Lowest(variant, coordinate) == Lowest(ring, coordinate) - shift
            && Extent(variant, coordinate) == Extent(ring, coordinate)
  {
    forall p ensures coordinate(Moved(p, d)) == coordinate(p) - shift {
    }
    ExtentOfShape(ring, d, start, forward, coordinate, shift);
  }

  lemma {:induction false} ExtentOfShape(ring: seq<Point>, d: Point, start: nat, forward: bool,
    coordinate: Point -> real, shift: real)
    requires start < |ring|
    requires forall p :: coordinate(Moved(p, d)) == coordinate(p) - shift
    ensures var variant := Variant(Move(ring, d), start, forward);
            && Lowest(variant, coordinate) == Lowest(ring, coordinate) - shift
            && Extent(variant, coordinate) == Extent(ring, coordinate)
  {
    LowestOfShape(ring, d, start, forward, coordinate, shift);
    assert forall p :: Opposite(coordinate)(Moved(p, d)) == Opposite(coordinate)(p) + shift;
    LowestOfShape(ring, d, start, forward, Opposite(coordinate), -shift);
  }

  lemma ShapeKeepsSimple(ring: seq<Point>, d: Point, start: nat, forward: bool)
    requires |ring| >= 3 && start < |ring|
    ensures var variant := Variant(Move(ring, d), start, forward);
            NoRepeats(variant) == NoRepeats(ring) && Simple(variant) == Simple(ring)
  {
    var moved := Move(ring, d);
    MovedRing(ring, d);
    var variant := Variant(moved, start, forward);
    WholeVariant(moved);
    var back := VariantFromVariant(moved, start, forward, 0, true);
    if NoRepeats(variant) { VariantIsDistinct(variant, back, forward); }
    if NoRepeats(moved) { VariantIsDistinct(moved, start, forward); }
    if Simple(variant) { VariantIsSimple(variant, back, forward); }
    if Simple(moved) { VariantIsSimple(moved, start, forward); }
  }

  lemma MovedVariant(ring: seq<Point>, start: nat, forward: bool, d: Point)
    requires start < |ring|
    ensures Move(Variant(ring, start, forward), d) == Variant(Move(ring, d), start, forward)
  {
  }

  lemma MoveTwice(ring: seq<Point>, d: Point, e: Point)
    ensures Move(Move(ring, d), Moved(e, d)) == Move(ring, e)
  {
  }

  lemma ShapeKeepsNormalForm(ring: seq<Point>, d: Point, start: nat, forward: bool)
    requires start < |ring| && NoRepeats(ring)
    ensures NormalForm(Variant(Move(ring, d), start, forward)) == NormalForm(ring)
  {
    var corner := Corner(ring);
    var variant := Variant(Move(ring, d), start, forward);
    ShapeKeepsExtent(ring, d, start, forward);
    MovedVariant(Move(ring, d), start, forward, Moved(corner, d));
    MoveTwice(ring, d, corner);
    MovedRing(ring, corner);
    var placed := Move(ring, corner);
    assert Move(variant, Corner(variant)) == Variant(placed, start, forward);
    CanonicalIsInvariant(placed, Variant(placed, start, forward));
  }

  /** Point lists whose rings differ by a rotation, a reversal and a translation are accepted alike, with one result. */
  lemma SameShapeSameResult(first: seq<Point>, second: seq<Point>, d: Point)
    requires |first| <= MAX_VERTICES_PER_POLYGON && |second| <= MAX_VERTICES_PER_POLYGON
    requires IsVariant(Opened(second), Move(Opened(first), d))
    ensures Acceptable(first) <==> Acceptable(second)
    ensures Acceptable(first) ==> NormalForm(Opened(first)) == NormalForm(Opened(second))
  {
    var ring := Opened(first);
    var start, forward :| 0 <= start < |ring| && Opened(second) == Variant(Move(ring, d), start, forward);
    ShapeKeepsExtent(ring, d, start, forward);
    if |ring| >= 3 {
      ShapeKeepsSimple(ring, d, start, forward);
    }
    if Acceptable(first) {
      ShapeKeepsNormalForm(ring, d, start, forward);
    }
  }

  lemma DistinctIsOpened(ring: seq<Point>)
    requires |ring| >= 2 && NoRepeats(ring)
    ensures Opened(ring) == ring
  {
    forall i | 0 < i < |ring| ensures !Repeats(ring, i) {
    }
    OpenIsOpened(ring);
  }

  /**
   What the importer hands on: a simple ring in its canonical rotation and direction with its
   corner at the origin.
   */
  lemma NormalRing(points: seq<Point>)
    requires Acceptable(points)
    ensures var ring := NormalForm(Opened(points));
            && |ring| == |Opened(points)| >= 3 && NoRepeats(ring) && Simple(ring)
            && Corner(ring) == Point(0.0, 0.0)
            && IsLeastVariant(ring, Move(Opened(points), Corner(Opened(points))))
  {
    var ring := Opened(points);
    var corner := Corner(ring);
    MovedRing(ring, corner);
    CanonicalIsLeast(Move(ring, corner));
    var start, forward :| 0 <= start < |ring| && NormalForm(ring) == Variant(Move(ring, corner), start, forward);
    ShapeKeepsExtent(ring, corner, start, forward);
    ShapeKeepsSimple(ring, corner, start, forward);
  }

  /** Importing an imported ring changes nothing. */
  lemma NormalizingIsIdempotent(points: seq<Point>)
    requires Acceptable(points)
    ensures var ring := NormalForm(Opened(points));
            Acceptable(ring) && NormalForm(Opened(ring)) == ring
  {
    var ring := NormalForm(Opened(points));
    NormalRing(points);
    OpenedIsShort(points);
    DistinctIsOpened(ring);
    SameShapeSameResult(points, ring, Corner(Opened(points)));
  }
}
