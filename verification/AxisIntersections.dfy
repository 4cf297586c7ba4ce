/** Exact intersections of polygon boundaries with a horizontal or vertical grid line. */
module AxisIntersections {
  import opened Cycles
  import opened Grid
  import opened Rationals
  import opened Lists
  import opened OrderedMaps
  import Text

  datatype RationalPoint = RationalPoint(x: Rational, y: Rational)

  function PointKey(p: RationalPoint): string {
    RationalText(p.x) + [','] + RationalText(p.y)
  }

  lemma PointKeyInjective(a: RationalPoint, b: RationalPoint)
    requires PointKey(a) == PointKey(b)
    ensures a == b
  {
    RationalTextHasNoComma(a.x);
    RationalTextHasNoComma(b.x);
    Text.SplitIsUnique(RationalText(a.x), RationalText(a.y), RationalText(b.x), RationalText(b.y), ',');
    RationalTextInjective(a.x, b.x);
    RationalTextInjective(a.y, b.y);
  }

  ghost predicate Normal(p: RationalPoint) {
    LowestTerms(p.x) && LowestTerms(p.y)
  }

  /** Points have equal keys exactly when they are the same point of the plane. */
  lemma KeysAreValues(a: RationalPoint, b: RationalPoint)
    requires Normal(a) && Normal(b)
    ensures PointKey(a) == PointKey(b) <==> Value(a.x) == Value(b.x) && Value(a.y) == Value(b.y)
  {
    if PointKey(a) == PointKey(b) {
      PointKeyInjective(a, b);
    }
    TextsAreValues(a.x, b.x);
    TextsAreValues(a.y, b.y);
  }

  // ----- what the intersections are

  /** The coordinate that the line fixes, and the other one. */
  function Along(p: Point, axisIsY: bool): int {
    if axisIsY then p.y else p.x
  }

  function Other(p: Point, axisIsY: bool): int {
    if axisIsY then p.x else p.y
  }

  function Exact(p: Point): RationalPoint {
    RationalPoint(Integer(p.x), Integer(p.y))
  }

  ghost function Interpolate(a: int, b: int, t: real): real {
    Advance(a, b - a, t)
  }

  ghost function Advance(start: int, extent: int, t: real): real {
    start as real + t * extent as real
  }

  ghost predicate OnEdge(p: RationalPoint, first: Point, second: Point)
    requires Normal(p)
  {
    exists t: real ::
      && 0.0 <= t <= 1.0
      && Value(p.x) == Interpolate(first.x, second.x, t) && Value(p.y) == Interpolate(first.y, second.y, t)
  }

  /** The points that an edge contributes: its crossing with the line, or both ends when it lies on the line. */
  ghost predicate Contributes(first: Point, second: Point, axisIsY: bool, value: int, p: RationalPoint) {
    if Along(first, axisIsY) == Along(second, axisIsY) then
      Along(first, axisIsY) == value && (p == Exact(first) || p == Exact(second))
    else
      Normal(p) && Value(if axisIsY then p.y else p.x) == value as real && OnEdge(p, first, second)
  }

  /** The rational point is this grid point. */
  ghost predicate IsAt(p: RationalPoint, q: Point)
    requires Normal(p)
  {
    Value(p.x) == q.x as real && Value(p.y) == q.y as real
  }

  /** Whatever an edge contributes lies on the line and on the edge. */
  lemma ContributionsLieOnLine(first: Point, second: Point, axisIsY: bool, value: int, p: RationalPoint)
    requires Contributes(first, second, axisIsY, value, p)
    ensures Normal(p) && Value(if axisIsY then p.y else p.x) == value as real && OnEdge(p, first, second)
  {
    if Along(first, axisIsY) == Along(second, axisIsY) {
      var end := if p == Exact(first) then first else second;
      ExactIsAt(p, end);
      EndsAreOnEdge(p, first, second, end);
    }
  }

  lemma EndsAreOnEdge(p: RationalPoint, first: Point, second: Point, end: Point)
    requires Normal(p) && IsAt(p, end) && (end == first || end == second)
    ensures OnEdge(p, first, second)
  {
    var t := if end == first then 0.0 else 1.0;
    assert Interpolate(first.x, second.x, t) == end.x as real;
    assert Interpolate(first.y, second.y, t) == end.y as real;
  }

  lemma ExactIsAt(p: RationalPoint, q: Point)
    ensures p == Exact(q) <==> Normal(p) && IsAt(p, q)
  {
    IntegerIsLowest(q.x);
    IntegerIsLowest(q.y);
    if Normal(p) && IsAt(p, q) {
      LowestTermsAreUnique(p.x, Integer(q.x));
      LowestTermsAreUnique(p.y, Integer(q.y));
    }
  }

  /** An edge on the line contributes its two ends, one off the line nothing. */
  lemma ParallelEdgeContributesEnds(first: Point, second: Point, axisIsY: bool, value: int, p: RationalPoint)
    requires Along(first, axisIsY) == Along(second, axisIsY) && Normal(p)
    ensures Contributes(first, second, axisIsY, value, p) <==>
      Along(first, axisIsY) == value && (IsAt(p, first) || IsAt(p, second))
  {
    ExactIsAt(p, first);
    ExactIsAt(p, second);
  }

  ghost predicate EdgeContributes(boundaries: seq<seq<Point>>, b: int, i: int, axisIsY: bool, value: int,
    p: RationalPoint) {
    && 0 <= b < |boundaries| && 0 <= i < |boundaries[b]|
    && Contributes(boundaries[b][i], boundaries[b][Next(|boundaries[b]|, i)], axisIsY, value, p)
  }

  /** A point that one of the first `count` boundaries contributes. */
  ghost predicate Contributed(boundaries: seq<seq<Point>>, count: nat, axisIsY: bool, value: int, p: RationalPoint) {
    exists b, i :: b < count && EdgeContributes(boundaries, b, i, axisIsY, value, p)
  }

  /** A point that one of the first `count` edges of boundary `b` contributes. */
  ghost predicate ContributedBy(boundaries: seq<seq<Point>>, b: nat, count: nat, axisIsY: bool, value: int,
    p: RationalPoint) {
    exists i :: i < count && EdgeContributes(boundaries, b, i, axisIsY, value, p)
  }

  // ----- the code

  /** The other coordinate where the edge from `firstValue` to `secondValue` takes `value`. */
  function CrossingOther(firstOther: int, secondOther: int, firstValue: int, secondValue: int, value: int): Rational {
    PartWay(firstOther, secondOther - firstOther, value - firstValue, secondValue - firstValue)
  }

  /** `start + extent * part / whole`, in lowest terms. */
  function PartWay(start: int, extent: int, part: int, whole: int): Rational {
    Add(Integer(start), MakeRational(extent * part, whole))
  }

  function CrossingPoint(first: Point, second: Point, axisIsY: bool, value: int): RationalPoint {
    var other := CrossingOther(Other(first, axisIsY), Other(second, axisIsY),
      Along(first, axisIsY), Along(second, axisIsY), value);
    if axisIsY then RationalPoint(other, Integer(value)) else RationalPoint(Integer(value), other)
  }

  /** The edge lies strictly on one side of the line. */
  predicate Misses(first: Point, second: Point, axisIsY: bool, value: int) {
    || (value < Along(first, axisIsY) && value < Along(second, axisIsY))
    || (value > Along(first, axisIsY) && value > Along(second, axisIsY))
  }

  lemma PutPoint(entries: seq<(string, RationalPoint)>, point: RationalPoint)
    requires KeyedBy(entries, PointKey)
    ensures KeyedBy(Put(entries, PointKey(point), point), PointKey)
    ensures forall p :: Holds(Put(entries, PointKey(point), point), p) <==> Holds(entries, p) || p == point
  {
    forall a, b | PointKey(a) == PointKey(b) ensures a == b {
      PointKeyInjective(a, b);
    }
    PutKeyed(entries, PointKey, point);
  }

  method AddEdge(result: OrderedMap<RationalPoint>, first: Point, second: Point, axisIsY: bool, value: int)
    requires result.Valid() && KeyedBy(result.Entries(), PointKey)
    modifies result
    ensures result.Valid() && KeyedBy(result.Entries(), PointKey)
    ensures forall p :: Holds(result.Entries(), p) <==>
              old(Holds(result.Entries(), p)) || Contributes(first, second, axisIsY, value, p)
  {
    forall p | Along(first, axisIsY) != Along(second, axisIsY)
      ensures Contributes(first, second, axisIsY, value, p) <==>
        !Misses(first, second, axisIsY, value) && p == CrossingPoint(first, second, axisIsY, value)
    {
      CrossingIsExact(first, second, axisIsY, value, p);
    }
    if Misses(first, second, axisIsY, value) {
      return;
    }
    if Along(first, axisIsY) == Along(second, axisIsY) {
      if Along(first, axisIsY) == value {
        PutPoint(result.Entries(), Exact(first));
        result.Set(PointKey(Exact(first)), Exact(first));
        PutPoint(result.Entries(), Exact(second));
        result.Set(PointKey(Exact(second)), Exact(second));
      }
      return;
    }
    var point := CrossingPoint(first, second, axisIsY, value);
    PutPoint(result.Entries(), point);
    result.Set(PointKey(point), point);
  }

  /** The points of the line on the boundaries, each once. */
  method BoundaryLineIntersections(boundaries: seq<seq<Point>>, axisIsY: bool, value: int)
    returns (points: seq<RationalPoint>)
    ensures forall p :: p in points <==> exists b, i :: EdgeContributes(boundaries, b, i, axisIsY, value, p)
    ensures NoRepeats(points)
  {
    var result := new OrderedMap<RationalPoint>();
    for b := 0 to |boundaries|
      invariant result.Valid() && fresh(result) && KeyedBy(result.Entries(), PointKey)
      invariant forall p :: Holds(result.Entries(), p) <==> Contributed(boundaries, b, axisIsY, value, p)
    {
      var ring := boundaries[b];
      ghost var before := result.Entries();
      for k := 0 to |ring|
        invariant result.Valid() && fresh(result) && KeyedBy(result.Entries(), PointKey)
        invariant forall p :: Holds(result.Entries(), p) <==>
                    Holds(before, p) || ContributedBy(boundaries, b, k, axisIsY, value, p)
      {
        AddEdge(result, ring[k], ring[Next(|ring|, k)], axisIsY, value);
        forall p ensures ContributedBy(boundaries, b, k + 1, axisIsY, value, p) <==>
          ContributedBy(boundaries, b, k, axisIsY, value, p)
          || Contributes(ring[k], ring[Next(|ring|, k)], axisIsY, value, p)
        {
          OneMoreEdge(boundaries, b, k, axisIsY, value, p);
        }
      }
      forall p ensures Contributed(boundaries, b + 1, axisIsY, value, p) <==>
        Contributed(boundaries, b, axisIsY, value, p) || ContributedBy(boundaries, b, |ring|, axisIsY, value, p)
      {
        OneMoreBoundary(boundaries, b, axisIsY, value, p);
      }
    }
    points := result.IntoValues();
    KeyedValues(result.Entries(), points, PointKey);
  }

  lemma OneMoreEdge(boundaries: seq<seq<Point>>, b: nat, k: nat, axisIsY: bool, value: int,
    p: RationalPoint)
    requires b < |boundaries| && k < |boundaries[b]|
    ensures ContributedBy(boundaries, b, k + 1, axisIsY, value, p) <==>
      ContributedBy(boundaries, b, k, axisIsY, value, p) || EdgeContributes(boundaries, b, k, axisIsY, value, p)
  {
  }

  lemma OneMoreBoundary(boundaries: seq<seq<Point>>, b: nat, axisIsY: bool, value: int,
    p: RationalPoint)
    requires b < |boundaries|
    ensures Contributed(boundaries, b + 1, axisIsY, value, p) <==>
      Contributed(boundaries, b, axisIsY, value, p) || ContributedBy(boundaries, b, |boundaries[b]|, axisIsY, value, p)
  {
  }

  // ----- the crossing point is the only point of the edge on the line

  lemma IntegerIsLowest(value: int)
    ensures LowestTerms(Integer(value)) && Value(Integer(value)) == value as real
  {
  }

  lemma QuotientValue(n: int, d: int, v: real)
    requires d != 0 && n as real == v * d as real
    ensures LowestTerms(MakeRational(n, d)) && Value(MakeRational(n, d)) == v
  {
    if d > 0 {
      MakeRationalValue(n, d, v);
    } else {
      FlippedSigns(n, d);
      assert (-n) as real == v * (-d) as real;
      MakeRationalValue(-n, -d, v);
    }
  }

  lemma FlippedSigns(n: int, d: int)
    requires d < 0
    ensures MakeRational(n, d) == MakeRational(-n, -d)
  {
  }

  lemma ScaledByParameter(e: int, n: int, d: int, t: real)
    requires n as real == t * d as real
    ensures (e * n) as real == (t * e as real) * d as real
  {
  }

  /** Where on the edge the line is met. */
  lemma LineParameter(n: int, d: int) returns (t: real)
    requires d != 0
    ensures n as real == t * d as real
    ensures 0.0 <= t <= 1.0 <==> (if d > 0 then 0 <= n <= d else d <= n <= 0)
  {
    t := n as real / d as real;
    ParameterRange(n as real, d as real, t);
  }

  lemma ParameterRange(n: real, d: real, t: real)
    requires d != 0.0 && n == t * d
    ensures 0.0 <= t <= 1.0 <==> (if d > 0.0 then 0.0 <= n <= d else d <= n <= 0.0)
  {
  }

  lemma SignOfProduct(t: real, d: real)
    requires d != 0.0
    ensures d > 0.0 ==> (t >= 0.0 <==> t * d >= 0.0)
    ensures d < 0.0 ==> (t >= 0.0 <==> t * d <= 0.0)
  {
  }

  lemma SameParameter(a: int, b: int, s: real, t: real)
    requires a != b && Interpolate(a, b, s) == Interpolate(a, b, t)
    ensures s == t
  {
  }

  lemma EqualFractions(a: Rational, b: Rational)
    requires LowestTerms(a) && LowestTerms(b) && Value(a) == Value(b)
    ensures a == b
  {
    EqualValues(a, b);
    LowestTermsAreUnique(a, b);
  }

  /** The coordinates of the computed crossing. */
  lemma CrossingCoordinates(first: Point, second: Point, axisIsY: bool, value: int) returns (t: real)
    requires Along(first, axisIsY) != Along(second, axisIsY)
    ensures var p := CrossingPoint(first, second, axisIsY, value);
            && Normal(p)
            && Value(p.x) == Interpolate(first.x, second.x, t) && Value(p.y) == Interpolate(first.y, second.y, t)
            && Value(if axisIsY then p.y else p.x) == value as real
    ensures 0.0 <= t <= 1.0 <==> !Misses(first, second, axisIsY, value)
  {
    t := CrossingParameter(Along(first, axisIsY), Along(second, axisIsY), value);
    CrossingValue(Other(first, axisIsY), Other(second, axisIsY), Along(first, axisIsY),
      Along(second, axisIsY), value, t);
    IntegerIsLowest(value);
  }

  lemma CrossingParameter(first: int, second: int, value: int) returns (t: real)
    requires first != second
    ensures Interpolate(first, second, t) == value as real
    ensures 0.0 <= t <= 1.0 <==> !((value < first && value < second) || (value > first && value > second))
  {
    t := LineParameter(value - first, second - first);
  }

  lemma CrossingValue(firstOther: int, secondOther: int, firstValue: int, secondValue: int,
    value: int, t: real)
    requires firstValue != secondValue && Interpolate(firstValue, secondValue, t) == value as real
    ensures var other := CrossingOther(firstOther, secondOther, firstValue, secondValue, value);
            LowestTerms(other) && Value(other) == Interpolate(firstOther, secondOther, t)
  {
    PartWayValue(firstOther, secondOther - firstOther, value - firstValue, secondValue - firstValue, t);
  }

  lemma PartWayValue(start: int, e: int, n: int, d: int, t: real)
    requires d != 0 && n as real == t * d as real
    ensures LowestTerms(PartWay(start, e, n, d)) && Value(PartWay(start, e, n, d)) == Advance(start, e, t)
  {
    ScaledByParameter(e, n, d, t);
    QuotientValue(e * n, d, t * e as real);
    IntegerIsLowest(start);
    ArithmeticIsExact(Integer(start), MakeRational(e * n, d));
  }

  lemma CrossingIsExact(first: Point, second: Point, axisIsY: bool, value: int, p: RationalPoint)
    requires Along(first, axisIsY) != Along(second, axisIsY)
    ensures Contributes(first, second, axisIsY, value, p) <==>
      !Misses(first, second, axisIsY, value) && p == CrossingPoint(first, second, axisIsY, value)
  {
    var crossing := CrossingPoint(first, second, axisIsY, value);
    var t := CrossingCoordinates(first, second, axisIsY, value);
    if Contributes(first, second, axisIsY, value, p) {
      var s: real :| 0.0 <= s <= 1.0
        && Value(p.x) == Interpolate(first.x, second.x, s) && Value(p.y) == Interpolate(first.y, second.y, s);
      SameParameter(Along(first, axisIsY), Along(second, axisIsY), s, t);
      EqualFractions(p.x, crossing.x);
      EqualFractions(p.y, crossing.y);
    }
  }
}
