/**
 The far-neighbour certificate and the 3x3 lattice diagnostic of a periodic cell, and what the two
 together promise about the infinite lattice.
 */
module Lattice {
  import opened Wrappers
  import opened Grid
  import opened Sets

  /** A base member. A coordinate that has no exact grid value is `None`. */
  datatype Member = Member(point: Option<Point>, polygon: seq<Option<Point>>)

  /** A polygon in local coordinates together with the grid point it is placed at. */
  datatype Placed = Placed(polygon: seq<Option<Point>>, at: Point)

  datatype Basis = Basis(v1: Point, v2: Point)

  // ----- the members' world vertices and their spread

  /** The vertices of `polygon` that have a grid value, moved by `offset`. */
  function Translated(polygon: seq<Option<Point>>, offset: Point): seq<Point> {
    if polygon == [] then []
    else
      var last := polygon[|polygon| - 1];
      Translated(polygon[..|polygon| - 1], offset) + if last.Some? then [Plus(last.value, offset)] else []
  }

  function MemberVertices(member: Member): seq<Point> {
    if member.point.None? then [] else Translated(member.polygon, member.point.value)
  }

  function WorldVertices(members: seq<Member>): seq<Point> {
    if members == [] then []
    else WorldVertices(members[..|members| - 1]) + MemberVertices(members[|members| - 1])
  }

  ghost predicate Bounds<T(!new)>(items: seq<T>, distance: (T, T) -> int, bound: int) {
    forall u, v {:trigger distance(u, v)} | u in items && v in items :: distance(u, v) <= bound
  }

  ghost predicate Attained<T(!new)>(items: seq<T>, distance: (T, T) -> int, bound: int) {
    exists u, v {:trigger distance(u, v)} :: u in items && v in items && distance(u, v) == bound
  }

  /** `spread` is the greatest squared distance between two of the vertices, `None` without vertices. */
  ghost predicate IsSpread(vertices: seq<Point>, spread: Option<int>) {
    && (spread.None? <==> vertices == [])
    && (spread.Some? ==>
      Bounds(vertices, SquaredDistance, spread.value) && Attained(vertices, SquaredDistance, spread.value))
  }

  method FarNeighborMaximumDistanceSquared(members: seq<Member>) returns (spread: Option<int>)
    ensures IsSpread(WorldVertices(members), spread)
  {
    var vertices := CollectVertices(members);
    if vertices == [] {
      return None;
    }
    assert forall u :: SquaredDistance(u, u) == 0;
    var maximum := MaximumOverPairs(vertices, SquaredDistance);
    spread := Some(maximum);
  }

  method MaximumOverPairs<T(!new)>(items: seq<T>, distance: (T, T) -> int) returns (maximum: int)
    requires items != [] && forall u :: distance(u, u) == 0
    ensures Bounds(items, distance, maximum) && Attained(items, distance, maximum)
  {
    maximum := 0;
    assert distance(items[0], items[0]) == 0;
    for i := 0 to |items|
      invariant forall u, v | u in items[..i] && v in items :: distance(u, v) <= maximum
      invariant Attained(items, distance, maximum)
    {
      ghost var before := maximum;
      for j := 0 to |items|
        invariant before <= maximum
        invariant forall v | v in items[..j] :: distance(items[i], v) <= maximum
        invariant Attained(items, distance, maximum)
      {
        if distance(items[i], items[j]) > maximum {
          maximum := distance(items[i], items[j]);
        }
      }
    }
  }

  method CollectVertices(members: seq<Member>) returns (vertices: seq<Point>)
    ensures vertices == WorldVertices(members)
  {
    vertices := [];
    for i := 0 to |members|
      invariant vertices == WorldVertices(members[..i])
    {
      var member := members[i];
      assert members[..i + 1][..i] == members[..i];
      if member.point.Some? {
        ghost var before := vertices;
        for k := 0 to |member.polygon|
          invariant vertices == before + Translated(member.polygon[..k], member.point.value)
        {
          assert member.polygon[..k + 1][..k] == member.polygon[..k];
          if member.polygon[k].Some? {
            vertices := vertices + [Plus(member.polygon[k].value, member.point.value)];
          }
        }
        assert member.polygon[..|member.polygon|] == member.polygon;
      }
    }
    assert members[..|members|] == members;
  }

  // ----- the certificate

  predicate FarNeighborCertificate(spread: Option<int>, basis: Basis) {
    && spread.Some?
    && var determinant := Abs(Cross(basis.v1, basis.v2));
       4 * determinant * determinant > spread.value * (SquaredLength(basis.v1) + SquaredLength(basis.v2))
  }

  lemma CauchySchwarz(u: Point, v: Point)
    ensures Cross(u, v) * Cross(u, v) <= SquaredLength(u) * SquaredLength(v)
  {
    CauchySchwarzGap(u, v);
  }

  lemma CertificateBeatsSpread(spread: int, det: int, k: int, w2: int, side2: int, other2: int)
    requires 4 * det * det > spread * (side2 + other2)
    requires k <= -2 || 2 <= k
    requires spread >= 0 && side2 >= 0 && other2 >= 0 && w2 >= 0
    requires (k * det) * (k * det) <= w2 * side2
    ensures w2 > spread
  {
    assert k * k >= 4;
    assert (k * det) * (k * det) == (k * k) * (det * det);
    assert (k * k) * (det * det) >= 4 * (det * det);
    assert 4 * det * det <= w2 * side2;
    ProductsRespectOrder(w2, spread, side2, other2);
  }

  lemma ProductsRespectOrder(w2: int, spread: int, side2: int, other2: int)
    requires spread >= 0 && side2 >= 0 && other2 >= 0
    ensures w2 <= spread ==> w2 * side2 <= spread * (side2 + other2)
  {
  }

  /** A certified basis moves every far translate further than the spread of the members. */
  lemma CertifiedTranslatesAreFar(spread: int, basis: Basis, n: int, m: int)
    requires spread >= 0 && FarNeighborCertificate(Some(spread), basis)
    requires Abs(n) >= 2 || Abs(m) >= 2
    ensures SquaredLength(Combine(basis.v1, basis.v2, n, m)) > spread
  {
    var w, det := Combine(basis.v1, basis.v2, n, m), Cross(basis.v1, basis.v2);
    CrossesOfCombination(basis.v1, basis.v2, n, m);
    CauchySchwarz(w, basis.v2);
    CauchySchwarz(w, basis.v1);
    FarVectorIsLong(spread, det, n, m, Cross(w, basis.v2), Cross(w, basis.v1),
                    SquaredLength(w), SquaredLength(basis.v1), SquaredLength(basis.v2));
  }

  lemma CrossesOfCombination(v1: Point, v2: Point, n: int, m: int)
    ensures Cross(Combine(v1, v2, n, m), v2) == n * Cross(v1, v2)
    ensures Cross(Combine(v1, v2, n, m), v1) == -m * Cross(v1, v2)
  {
  }

  lemma FarVectorIsLong(spread: int, det: int, n: int, m: int, c2: int, c1: int,
                                           w2: int, l1: int, l2: int)
    requires spread >= 0 && w2 >= 0 && l1 >= 0 && l2 >= 0
    requires 4 * Abs(det) * Abs(det) > spread * (l1 + l2)
    requires c2 == n * det && c1 == -m * det && c2 * c2 <= w2 * l2 && c1 * c1 <= w2 * l1
    requires Abs(n) >= 2 || Abs(m) >= 2
    ensures w2 > spread
  {
    assert Abs(det) * Abs(det) == det * det;
    if Abs(n) >= 2 {
      CertificateBeatsSpread(spread, det, n, w2, l2, l1);
    } else {
      CertificateBeatsSpread(spread, det, -m, w2, l1, l2);
    }
  }

  // ----- which bases are certified

  /** The squared distance from `v` to the point `t` on the line along `w`. */
  ghost function GapSquared(v: Point, w: Point, t: real): real {
    Square(v.x as real - t * w.x as real) + Square(v.y as real - t * w.y as real)
  }

  ghost function Square(a: real): real {
    a * a
  }

  /** `height` is the squared distance from `v` to the line along `w`. */
  ghost predicate IsHeight(v: Point, w: Point, height: real) {
    && (forall t: real :: height <= GapSquared(v, w, t))
    && (exists t: real :: height == GapSquared(v, w, t))
  }

  /** That is, `4 / (1 / first + 1 / second) > spread`. */
  predicate HarmonicExceeds(first: real, second: real, spread: real) {
    4.0 * (first * second) > spread * (first + second)
  }

  /**
   A basis is certified exactly when twice the harmonic mean of the squared heights of its parallelogram
   exceeds the spread.
   */
  lemma CertificateByHeights(spread: int, basis: Basis, first: real, second: real)
    requires Cross(basis.v1, basis.v2) != 0
    requires IsHeight(basis.v1, basis.v2, first) && IsHeight(basis.v2, basis.v1, second)
    ensures first > 0.0 && second > 0.0
    ensures FarNeighborCertificate(Some(spread), basis) <==> HarmonicExceeds(first, second, spread as real)
  {
    var c := Cross(basis.v1, basis.v2);
    var a, b := SquaredLength(basis.v1) as real, SquaredLength(basis.v2) as real;
    NonZeroLengths(basis.v1, basis.v2);
    HeightOfCross(basis.v1, basis.v2, first);
    HeightOfCross(basis.v2, basis.v1, second);
    CrossBack(basis.v1, basis.v2);
    HarmonicMean(Square(c as real), a, b, first, second, spread as real);
    CertificateInReals(spread, basis);
  }

  lemma CrossBack(v: Point, w: Point)
    ensures Square(Cross(w, v) as real) == Square(Cross(v, w) as real)
    ensures Cross(v, w) != 0 ==> Square(Cross(v, w) as real) > 0.0
  {
    assert Cross(w, v) == -Cross(v, w);
  }

  lemma NonZeroLengths(v: Point, w: Point)
    requires Cross(v, w) != 0
    ensures SquaredLength(v) > 0 && SquaredLength(w) > 0
  {
  }

  predicate RealCertificate(square: real, a: real, b: real, spread: real) {
    4.0 * square > spread * (a + b)
  }

  lemma CertificateInReals(spread: int, basis: Basis)
    ensures FarNeighborCertificate(Some(spread), basis) <==>
      RealCertificate(Square(Cross(basis.v1, basis.v2) as real),
        SquaredLength(basis.v1) as real, SquaredLength(basis.v2) as real, spread as real)
  {
    var c := Cross(basis.v1, basis.v2);
    var lengths := SquaredLength(basis.v1) + SquaredLength(basis.v2);
    assert 4 * Abs(c) * Abs(c) == 4 * (c * c);
    assert (4 * (c * c)) as real == 4.0 * (c as real * c as real);
    assert (spread * lengths) as real == spread as real * lengths as real;
  }

  lemma HarmonicMean(square: real, a: real, b: real, first: real, second: real, spread: real)
    requires square > 0.0 && a > 0.0 && b > 0.0 && b * first == square && a * second == square
    ensures first > 0.0 && second > 0.0
    ensures HarmonicExceeds(first, second, spread) <==> RealCertificate(square, a, b, spread)
  {
    PositiveFactor(b, first);
    PositiveFactor(a, second);
    var k, sum, product := a * b, first + second, first * second;
    assert k > 0.0;
    assert k * sum == square * (a + b) by {
      assert k * first == a * square && k * second == b * square;
    }
    assert k * product == square * square by {
      assert k * product == (b * first) * (a * second);
    }
    assert k * (4.0 * product) == square * (4.0 * square);
    assert k * (spread * sum) == square * (spread * (a + b));
    SameRealFactor(k, 4.0 * product, spread * sum);
    SameRealFactor(square, 4.0 * square, spread * (a + b));
  }

  lemma PositiveFactor(k: real, a: real)
    requires k > 0.0 && k * a > 0.0
    ensures a > 0.0
  {
  }

  lemma SameRealFactor(k: real, a: real, b: real)
    requires k > 0.0
    ensures k * a > k * b <==> a > b
  {
    assert k * a - k * b == k * (a - b);
  }

  lemma HeightOfCross(v: Point, w: Point, height: real)
    requires IsHeight(v, w, height) && SquaredLength(w) > 0
    ensures SquaredLength(w) as real * height == Square(Cross(v, w) as real)
  {
    var square := SquaredLength(w) as real;
    var attained: real :| height == GapSquared(v, w, attained);
    GapTimesLength(v, w, attained);
    var foot := Divided(Dot(v, w) as real, square);
    GapTimesLength(v, w, foot);
    SquareIsNonNegative(Dot(v, w) as real - foot * square);
    SquareIsNonNegative(Dot(v, w) as real - attained * square);
    ScaledOrder(square, height, GapSquared(v, w, foot));
  }

  lemma Divided(a: real, b: real) returns (q: real)
    requires b != 0.0
    ensures q * b == a
  {
    q := a / b;
  }

  lemma SquareIsNonNegative(a: real)
    ensures Square(a) >= 0.0
    ensures a == 0.0 ==> Square(a) == 0.0
  {
  }

  lemma ScaledOrder(k: real, a: real, b: real)
    requires k > 0.0 && a <= b
    ensures k * a <= k * b
  {
  }

  lemma GapTimesLength(v: Point, w: Point, t: real)
    ensures var square := SquaredLength(w) as real;
            square * GapSquared(v, w, t) == Square(Cross(v, w) as real) + Square(Dot(v, w) as real - t * square)
  {
    var a, b, c, d := v.x as real, v.y as real, w.x as real, w.y as real;
    assert SquaredLength(w) as real == c * c + d * d;
    assert Cross(v, w) as real == a * d - b * c;
    assert Dot(v, w) as real == a * c + b * d;
    LagrangeIdentity(a - t * c, b - t * d, c, d);
    assert (a - t * c) * d - (b - t * d) * c == a * d - b * c;
    assert (a - t * c) * c + (b - t * d) * d == a * c + b * d - t * (c * c + d * d);
  }

  lemma LagrangeIdentity(a: real, b: real, c: real, d: real)
    ensures (c * c + d * d) * (Square(a) + Square(b)) == Square(a * d - b * c) + Square(a * c + b * d)
  {
  }

  /** A square basis is certified exactly when its diagonal exceeds the spread. */
  lemma SquareBasisCertificate(spread: int, basis: Basis)
    requires Dot(basis.v1, basis.v2) == 0 && SquaredLength(basis.v1) == SquaredLength(basis.v2) > 0
    ensures FarNeighborCertificate(Some(spread), basis) <==> SquaredLength(Plus(basis.v1, basis.v2)) > spread
  {
    var side, c := SquaredLength(basis.v1), Cross(basis.v1, basis.v2);
    assert c * c == side * side by {
      CauchySchwarzGap(basis.v1, basis.v2);
    }
    assert SquaredLength(Plus(basis.v1, basis.v2)) == 2 * side by {
      LengthOfSum(basis.v1, basis.v2);
    }
    assert Abs(c) * Abs(c) == c * c;
    assert 4 * Abs(c) * Abs(c) == 2 * side * (2 * side);
    assert spread * (side + side) == 2 * side * spread;
    SameFactor(2 * side, 2 * side, spread);
  }

  lemma CauchySchwarzGap(u: Point, v: Point)
    ensures SquaredLength(u) * SquaredLength(v) == Cross(u, v) * Cross(u, v) + Dot(u, v) * Dot(u, v)
  {
  }

  lemma LengthOfSum(u: Point, v: Point)
    ensures SquaredLength(Plus(u, v)) == SquaredLength(u) + 2 * Dot(u, v) + SquaredLength(v)
  {
  }

  lemma SameFactor(k: int, a: int, b: int)
    requires k > 0
    ensures k * a > k * b <==> a > b
  {
  }

  /** A basis of at least the area of a certified one, with vectors no longer, is certified for members no wider. */
  lemma CertificateIsMonotone(spread: nat, basis: Basis, narrower: nat, better: Basis)
    requires FarNeighborCertificate(Some(spread), basis) && narrower <= spread
    requires Abs(Cross(better.v1, better.v2)) >= Abs(Cross(basis.v1, basis.v2))
    requires SquaredLength(better.v1) <= SquaredLength(basis.v1)
    requires SquaredLength(better.v2) <= SquaredLength(basis.v2)
    ensures FarNeighborCertificate(Some(narrower), better)
  {
    var c, d := Abs(Cross(basis.v1, basis.v2)), Abs(Cross(better.v1, better.v2));
    var a := SquaredLength(basis.v1) + SquaredLength(basis.v2);
    var b := SquaredLength(better.v1) + SquaredLength(better.v2);
    ProductsOrdered(c, d, c, d);
    ProductsOrdered(narrower, spread, b, a);
    assert 4 * c * c == 4 * (c * c) && 4 * d * d == 4 * (d * d);
  }

  lemma ProductsOrdered(a: nat, b: nat, c: nat, d: nat)
    requires a <= b && c <= d
    ensures a * c <= b * d
  {
  }

  datatype RealPoint = RealPoint(x: real, y: real)

  ghost function Total(weights: seq<real>): real {
    if weights == [] then 0.0 else weights[0] + Total(weights[1..])
  }

  ghost function WeightedSum(vertices: seq<Point>, weights: seq<real>): RealPoint
    requires |vertices| == |weights|
  {
    if vertices == [] then RealPoint(0.0, 0.0)
    else
      var rest := WeightedSum(vertices[1..], weights[1..]);
      Weighted(weights[0], vertices[0], rest)
  }

  ghost function Weighted(w: real, v: Point, rest: RealPoint): RealPoint {
    RealPoint(w * v.x as real + rest.x, w * v.y as real + rest.y)
  }

  ghost predicate ConvexWeights(weights: seq<real>) {
    (forall k | 0 <= k < |weights| :: weights[k] >= 0.0) && Total(weights) == 1.0
  }

  /** `p` is a convex combination of `vertices`. */
  ghost predicate InHull(p: RealPoint, vertices: seq<Point>) {
    exists weights: seq<real> ::
      |weights| == |vertices| && ConvexWeights(weights) && WeightedSum(vertices, weights) == p
  }

  ghost function Along(a: real, b: real, v: Point): real {
    a * v.x as real + b * v.y as real
  }

  /** All the points lie in a half-plane. */
  ghost predicate Below(vertices: seq<Point>, a: real, b: real, bound: real) {
    forall v | v in vertices :: Along(a, b, v) <= bound
  }

  lemma {:induction false} WeightedSumIsBounded(vertices: seq<Point>, weights: seq<real>, a: real, b: real, bound: real)
    requires |vertices| == |weights| && forall k | 0 <= k < |weights| :: weights[k] >= 0.0
    requires Below(vertices, a, b, bound)
    ensures var s := WeightedSum(vertices, weights); a * s.x + b * s.y <= bound * Total(weights)
  {
    if vertices != [] {
      assert Along(a, b, vertices[0]) <= bound && Below(vertices[1..], a, b, bound);
      WeightedSumIsBounded(vertices[1..], weights[1..], a, b, bound);
      var rest := WeightedSum(vertices[1..], weights[1..]);
      AddWeighted(weights[0], vertices[0].x as real, vertices[0].y as real, rest, a, b, bound, Total(weights[1..]),
        WeightedSum(vertices, weights), Total(weights));
    }
  }

  lemma AddWeighted(w: real, x: real, y: real, rest: RealPoint, a: real, b: real, bound: real,
    restTotal: real, sum: RealPoint, total: real)
    requires w >= 0.0 && a * x + b * y <= bound && a * rest.x + b * rest.y <= bound * restTotal
    requires sum == RealPoint(w * x + rest.x, w * y + rest.y) && total == w + restTotal
    ensures a * sum.x + b * sum.y <= bound * total
  {
    assert w * (a * x + b * y) <= w * bound;
    assert a * (w * x) + b * (w * y) == w * (a * x + b * y);
  }

  /** A half-plane that holds every vertex holds the hull. */
  lemma HullIsBounded(p: RealPoint, vertices: seq<Point>, a: real, b: real, bound: real)
    requires InHull(p, vertices)
    requires Below(vertices, a, b, bound)
    ensures a * p.x + b * p.y <= bound
  {
    var weights :| |weights| == |vertices| && ConvexWeights(weights) && WeightedSum(vertices, weights) == p;
    WeightedSumIsBounded(vertices, weights, a, b, bound);
  }

  /** A direction separates two hulls by no more than it separates their vertices. */
  lemma HullsFollowVertices(p: RealPoint, q: RealPoint, us: seq<Point>, vs: seq<Point>, a: real,
    b: real, slack: real)
    requires InHull(p, us) && InHull(q, vs)
    requires forall u, v | u in us && v in vs :: Along(a, b, u) <= slack + Along(a, b, v)
    ensures a * p.x + b * p.y + -a * q.x + -b * q.y <= slack
  {
    forall v | v in vs
      ensures -a * v.x as real + -b * v.y as real <= slack - (a * p.x + b * p.y)
    {
      forall u | u in us
        ensures a * u.x as real + b * u.y as real <= slack + Along(a, b, v)
      {
        assert Along(a, b, u) <= slack + Along(a, b, v);
      }
      HullIsBounded(p, us, a, b, slack + Along(a, b, v));
    }
    HullIsBounded(q, vs, -a, -b, slack - (a * p.x + b * p.y));
  }

  /**
   When the hulls of two vertex lists meet, moving the lists back by `s` and `t` brings some pair of their
   vertices no closer than the two moves are apart.
   */
  lemma MeetingHullsAreClose(us: seq<Point>, vs: seq<Point>, p: RealPoint,
                                                s: Point, t: Point, spread: int)
    requires InHull(p, us) && InHull(p, vs)
    requires forall u, v | u in us && v in vs :: SquaredDistance(Minus(u, s), Minus(v, t)) <= spread
    ensures SquaredDistance(t, s) <= spread
  {
    var d := Minus(t, s);
    var a, b, slack := (2 * d.x) as real, (2 * d.y) as real, (spread - SquaredLength(d)) as real;
    forall u, v | u in us && v in vs
      ensures Along(a, b, u) <= slack + Along(a, b, v)
    {
      MovedPairIsBounded(u, v, s, t, spread);
      AlongGrid(2 * d.x, 2 * d.y, u);
      AlongGrid(2 * d.x, 2 * d.y, v);
    }
    HullsFollowVertices(p, p, us, vs, a, b, slack);
  }

  lemma AlongGrid(a: int, b: int, v: Point)
    ensures Along(a as real, b as real, v) == (a * v.x + b * v.y) as real
  {
  }

  lemma MovedPairIsBounded(u: Point, v: Point, s: Point, t: Point, spread: int)
    requires SquaredDistance(Minus(u, s), Minus(v, t)) <= spread
    ensures var d := Minus(t, s);
            2 * d.x * u.x + 2 * d.y * u.y <= spread - SquaredLength(d) + (2 * d.x * v.x + 2 * d.y * v.y)
  {
  }

  // ----- the 3x3 block

  ghost predicate AllOnGrid(members: seq<Member>) {
    forall i | 0 <= i < |members| :: members[i].point.Some?
  }

  /** A member moved by `offset` from its base point. */
  ghost function Copy(member: Member, offset: Point): Placed
    requires member.point.Some?
  {
    Placed(member.polygon, Plus(member.point.value, offset))
  }

  /** The copies of all members moved by `offset`. */
  ghost function Copies(members: seq<Member>, offset: Point): (copies: seq<Placed>)
    requires AllOnGrid(members)
    ensures |copies| == |members|
  {
    seq(|members|, i requires 0 <= i < |members| => Copy(members[i], offset))
  }

  /** The lattice vector of cell `(n, m)`. */
  function Cell(basis: Basis, n: int, m: int): Point {
    Combine(basis.v1, basis.v2, n, m)
  }

  /** The lattice coordinates of the `k`-th cell of the 3x3 block, from -1 to 1. */
  function Row(k: nat): int {
    if k < 3 then -1 else if k < 6 then 0 else 1
  }

  function Column(k: nat): int {
    k - 3 * (Row(k) + 1) - 1
  }

  /** The first `count` cells of the 3x3 block, row by row from cell `(-1, -1)`. */
  ghost function Block(members: seq<Member>, basis: Basis, count: nat): seq<Placed>
    requires AllOnGrid(members)
  {
    if count == 0 then []
    else
      Block(members, basis, count - 1)
      + Copies(members, Cell(basis, Row(count - 1), Column(count - 1)))
  }

  ghost predicate PairwiseApart(placed: seq<Placed>, overlaps: (Placed, Placed) -> bool) {
    forall a, b | 0 <= a < b < |placed| :: !overlaps(placed[a], placed[b])
  }

  /** The legality check of one more piece against those already placed. */
  predicate CheckSheetless(placed: seq<Placed>, moving: Placed, overlaps: (Placed, Placed) -> bool) {
    forall a | 0 <= a < |placed| :: !overlaps(placed[a], moving)
  }

  ghost predicate LatticeLegal(members: seq<Member>, basis: Basis, overlaps: (Placed, Placed) -> bool) {
    AllOnGrid(members) && PairwiseApart(Block(members, basis, 9), overlaps)
  }

  // ----- placing the block piece by piece

  /** The check of one more piece against those already placed; it can fail with an error. */
  type Check<!E> = (seq<Placed>, Placed) -> Result<bool, E>

  /** Whenever the check gives a verdict it is that of the overlap relation. */
  ghost predicate Decides<E(!new)>(check: Check<E>, overlaps: (Placed, Placed) -> bool) {
    forall placed, moving | check(placed, moving).Ok? ::
      check(placed, moving).value == CheckSheetless(placed, moving, overlaps)
  }

  /** The piece that `member` becomes at `offset`; `None` when the member has no grid point. */
  function Attempt(member: Member, offset: Point): Option<Placed> {
    if member.point.Some? then Some(Placed(member.polygon, Plus(member.point.value, offset))) else None
  }

  function CellAttempts(members: seq<Member>, offset: Point): (attempts: seq<Option<Placed>>)
    ensures |attempts| == |members|
  {
    seq(|members|, i requires 0 <= i < |members| => Attempt(members[i], offset))
  }

  /** The pieces of the first `count` cells of the 3x3 block, in the order of the attempts to place them. */
  function Attempts(members: seq<Member>, basis: Basis, count: nat): seq<Option<Placed>> {
    if count == 0 then []
    else Attempts(members, basis, count - 1) + CellAttempts(members, Cell(basis, Row(count - 1), Column(count - 1)))
  }

  function Pieces(attempts: seq<Option<Placed>>): seq<Placed> {
    if attempts == [] then []
    else
      var last := attempts[|attempts| - 1];
      Pieces(attempts[..|attempts| - 1]) + if last.Some? then [last.value] else []
  }

  /** The verdict on a list of attempts: the first that has no place, is illegal or fails decides. */
  function Scan<E>(attempts: seq<Option<Placed>>, check: Check<E>): Result<bool, E> {
    if attempts == [] then Ok(true)
    else
      var init, last := attempts[..|attempts| - 1], attempts[|attempts| - 1];
      var verdict := Scan(init, check);
      if verdict != Ok(true) then verdict
      else if last.None? then Ok(false)
      else check(Pieces(init), last.value)
  }

  ghost predicate AllPresent(attempts: seq<Option<Placed>>) {
    forall i | 0 <= i < |attempts| :: attempts[i].Some?
  }

  /** A scan that does not fail finds out whether all attempts have a place and all pieces are apart. */
  lemma {:induction false} ScanIsVerdict<E(!new)>(attempts: seq<Option<Placed>>, check: Check<E>,
    overlaps: (Placed, Placed) -> bool)
    requires Decides(check, overlaps) && Scan(attempts, check).Ok?
    ensures Scan(attempts, check).value <==> AllPresent(attempts) && PairwiseApart(Pieces(attempts), overlaps)
  {
    if attempts != [] {
      var init, last := attempts[..|attempts| - 1], attempts[|attempts| - 1];
      ScanIsVerdict(init, check, overlaps);
      assert attempts == init + [last];
      ScanNext(init, last, check);
      OneMorePresent(init, last);
      if last.Some? {
        OneMoreApart(Pieces(init), last.value, overlaps);
      }
    }
  }

  lemma OneMorePresent(attempts: seq<Option<Placed>>, attempt: Option<Placed>)
    ensures AllPresent(attempts + [attempt]) <==> AllPresent(attempts) && attempt.Some?
  {
    var all := attempts + [attempt];
    assert all[|attempts|] == attempt;
    assert forall i | 0 <= i < |attempts| :: all[i] == attempts[i];
  }

  lemma PiecesNext(attempts: seq<Option<Placed>>, attempt: Option<Placed>)
    ensures Pieces(attempts + [attempt]) == Pieces(attempts) + if attempt.Some? then [attempt.value] else []
  {
    assert (attempts + [attempt])[..|attempts|] == attempts;
  }

  lemma ScanNext<E>(attempts: seq<Option<Placed>>, attempt: Option<Placed>, check: Check<E>)
    ensures Pieces(attempts + [attempt]) == Pieces(attempts) + if attempt.Some? then [attempt.value] else []
    ensures Scan(attempts + [attempt], check) ==
      if Scan(attempts, check) != Ok(true) then Scan(attempts, check)
      else if attempt.None? then Ok(false)
      else check(Pieces(attempts), attempt.value)
  {
    assert (attempts + [attempt])[..|attempts|] == attempts;
  }

  lemma OneMoreApart(placed: seq<Placed>, moving: Placed, overlaps: (Placed, Placed) -> bool)
    ensures PairwiseApart(placed + [moving], overlaps)
       <==> PairwiseApart(placed, overlaps) && CheckSheetless(placed, moving, overlaps)
  {
    var all := placed + [moving];
    if PairwiseApart(all, overlaps) {
      forall a, b | 0 <= a < b < |placed| ensures !overlaps(placed[a], placed[b]) {
        assert all[a] == placed[a] && all[b] == placed[b];
      }
      forall a | 0 <= a < |placed| ensures !overlaps(placed[a], moving) {
        assert all[a] == placed[a] && all[|placed|] == moving;
      }
    }
  }

  /** A decided scan stays decided. */
  lemma {:induction false} ScanStops<E>(attempts: seq<Option<Placed>>, more: seq<Option<Placed>>, check: Check<E>)
    requires Scan(attempts, check) != Ok(true)
    ensures Scan(attempts + more, check) == Scan(attempts, check)
  {
    if more == [] {
      assert attempts + more == attempts;
    } else {
      ScanStops(attempts, more[..|more| - 1], check);
      assert (attempts + more)[..|attempts + more| - 1] == attempts + more[..|more| - 1];
    }
  }

  lemma {:induction false} AttemptsAreBlock(members: seq<Member>, basis: Basis, count: nat)
    requires AllOnGrid(members)
    ensures Pieces(Attempts(members, basis, count)) == Block(members, basis, count)
  {
    if count > 0 {
      var before := count - 1;
      AttemptsAreBlock(members, basis, before);
      CellIsCopied(members, Attempts(members, basis, before), Cell(basis, Row(before), Column(before)));
    }
  }

  lemma {:induction false} CellIsCopied(members: seq<Member>, attempts: seq<Option<Placed>>, offset: Point)
    requires AllOnGrid(members)
    ensures Pieces(attempts + CellAttempts(members, offset)) == Pieces(attempts) + Copies(members, offset)
  {
    PiecesAfter(attempts, CellAttempts(members, offset), Copies(members, offset));
  }

  lemma {:induction false} AttemptsArePresent(members: seq<Member>, basis: Basis, count: nat)
    ensures AllPresent(Attempts(members, basis, count)) <==> count == 0 || AllOnGrid(members)
  {
    if count > 0 {
      AttemptsArePresent(members, basis, count - 1);
      var before := Attempts(members, basis, count - 1);
      var cell := CellAttempts(members, Cell(basis, Row(count - 1), Column(count - 1)));
      if AllPresent(before + cell) {
        forall i | 0 <= i < |members| ensures members[i].point.Some? {
          assert (before + cell)[|before| + i] == cell[i];
        }
      }
    }
  }

  /** Attempts that all have a place add their pieces. */
  lemma {:induction false} PiecesAfter(before: seq<Option<Placed>>, cell: seq<Option<Placed>>, copies: seq<Placed>)
    requires |cell| == |copies| && forall i | 0 <= i < |cell| :: cell[i] == Some(copies[i])
    ensures Pieces(before + cell) == Pieces(before) + copies
  {
    var n := |cell|;
    if n == 0 {
      assert before + cell == before;
    } else {
      var init, last := cell[..n - 1], cell[n - 1];
      PiecesAfter(before, init, copies[..n - 1]);
      PiecesNext(before + init, last);
      JoinedLast(before, cell);
      JoinedLast(Pieces(before), copies);
    }
  }

  lemma {:induction false} JoinedLast<T>(a: seq<T>, b: seq<T>)
    requires b != []
    ensures a + b == a + b[..|b| - 1] + [b[|b| - 1]]
  {
  }

  /** How placing pieces ended: with all of them, without an illegal or missing one, or with an error. */
  ghost predicate Places<E>(extended: Result<Option<seq<Placed>>, E>, attempts: seq<Option<Placed>>, check: Check<E>) {
    match extended
    case Ok(Some(pieces)) => Scan(attempts, check) == Ok(true) && pieces == Pieces(attempts)
    case Ok(None) => Scan(attempts, check) == Ok(false)
    case Err(error) => Scan(attempts, check) == Err(error)
  }

  predicate Ended<E>(extended: Result<Option<seq<Placed>>, E>) {
    extended.Err? || extended.value.None?
  }

  lemma EndedStays<E>(extended: Result<Option<seq<Placed>>, E>, attempts: seq<Option<Placed>>,
    more: seq<Option<Placed>>, check: Check<E>)
    requires Ended(extended) && Places(extended, attempts, check)
    ensures Places(extended, attempts + more, check)
  {
    ScanStops(attempts, more, check);
  }

  method PlaceMember<E>(placed: seq<Placed>, member: Member, offset: Point, check: Check<E>,
    ghost before: seq<Option<Placed>>) returns (extended: Result<Option<seq<Placed>>, E>)
    requires Places(Ok(Some(placed)), before, check)
    ensures Places(extended, before + [Attempt(member, offset)], check)
  {
    ScanNext(before, Attempt(member, offset), check);
    if member.point.None? {
      return Ok(None);
    }
    var moving := Placed(member.polygon, Plus(member.point.value, offset));
    match check(placed, moving) {
      case Err(error) => return Err(error);
      case Ok(legal) => return if legal then Ok(Some(placed + [moving])) else Ok(None);
    }
  }

  /** Places the members of one lattice cell, stopping at the first that cannot be placed. */
  method PlaceCell<E>(placed: seq<Placed>, members: seq<Member>, offset: Point, check: Check<E>,
    ghost before: seq<Option<Placed>>) returns (extended: Result<Option<seq<Placed>>, E>)
    requires Places(Ok(Some(placed)), before, check)
    ensures Places(extended, before + CellAttempts(members, offset), check)
  {
    extended := Ok(Some(placed));
    ghost var cell := CellAttempts(members, offset);
    assert before + cell[..0] == before;
    for i := 0 to |members|
      invariant Places(extended, before + cell[..i], check) && !Ended(extended)
    {
      assert before + cell[..i] + [cell[i]] == before + cell[..i + 1];
      extended := PlaceMember(extended.value.value, members[i], offset, check, before + cell[..i]);
      if Ended(extended) {
        assert before + cell[..i + 1] + cell[i + 1..] == before + cell;
        EndedStays(extended, before + cell[..i + 1], cell[i + 1..], check);
        return;
      }
    }
    assert cell[..|members|] == cell;
  }

  /** Lays out the 3x3 block, stopping at the first piece that cannot be placed. */
  method PlaceBlock<E>(members: seq<Member>, basis: Basis, check: Check<E>)
    returns (block: Result<Option<seq<Placed>>, E>)
    ensures Places(block, Attempts(members, basis, 9), check)
  {
    var placed: seq<Placed> := [];
    ghost var count: nat := 0;
    for n := -1 to 2
      invariant count == 3 * (n + 1)
      invariant Places(Ok(Some(placed)), Attempts(members, basis, count), check)
    {
      for m := -1 to 2
        invariant count == 3 * (n + 1) + m + 1
        invariant Places(Ok(Some(placed)), Attempts(members, basis, count), check)
      {
        assert Row(count) == n && Column(count) == m;
        var extended := PlaceCell(placed, members, Cell(basis, n, m), check, Attempts(members, basis, count));
        count := count + 1;
        if Ended(extended) {
          ghost var rest := MoreAttempts(members, basis, count, 9);
          EndedStays(extended, Attempts(members, basis, count), rest, check);
          return extended;
        }
        placed := extended.value.value;
      }
    }
    block := Ok(Some(placed));
  }

  lemma {:induction false} MoreAttempts(members: seq<Member>, basis: Basis, count: nat, more: nat)
    returns (rest: seq<Option<Placed>>)
    requires count <= more
    ensures Attempts(members, basis, more) == Attempts(members, basis, count) + rest
    decreases more
  {
    rest := [];
    if count < more {
      var before := MoreAttempts(members, basis, count, more - 1);
      rest := before + CellAttempts(members, Cell(basis, Row(more - 1), Column(more - 1)));
    }
  }

  /** The block is placed exactly when it is legal, unless the check fails. */
  lemma PlacedBlockIsLegal<E(!new)>(members: seq<Member>, basis: Basis, check: Check<E>,
    overlaps: (Placed, Placed) -> bool)
    requires Decides(check, overlaps) && Scan(Attempts(members, basis, 9), check).Ok?
    ensures Scan(Attempts(members, basis, 9), check).value <==> LatticeLegal(members, basis, overlaps)
    ensures AllOnGrid(members) ==> Pieces(Attempts(members, basis, 9)) == Block(members, basis, 9)
  {
    ScanIsVerdict(Attempts(members, basis, 9), check, overlaps);
    AttemptsArePresent(members, basis, 9);
    if AllOnGrid(members) {
      AttemptsAreBlock(members, basis, 9);
    }
  }

  lemma {:induction false} BlockIsMonotone(members: seq<Member>, basis: Basis, count: nat, more: nat)
    requires AllOnGrid(members) && count <= more
    ensures Block(members, basis, count) <= Block(members, basis, more)
    decreases more
  {
    if count < more {
      BlockIsMonotone(members, basis, count, more - 1);
    }
  }

  // ----- contact of the centre cell with the cells around it

  datatype Diagnostic = Diagnostic(legal: bool, centreContactComplete: bool, sharedBoundaryLength: real)

  const ILLEGAL := Diagnostic(false, false, 0.0)

  /** The shared boundary length of two placed pieces; `None` when it cannot be measured. */
  type Contact = (Placed, Placed) -> Option<real>

  /** The pieces `lo..hi` of `placed` are the centre cell; `o` is a piece around it. */
  ghost predicate Around(placed: seq<Placed>, lo: nat, hi: nat, o: int) {
    0 <= o < |placed| && !(lo <= o < hi)
  }

  ghost predicate Measurable(placed: seq<Placed>, lo: nat, hi: nat, contact: Contact)
    requires lo <= hi <= |placed|
  {
    forall c, o | lo <= c < hi && Around(placed, lo, hi, o) :: contact(placed[c], placed[o]).Some?
  }

  ghost predicate Touches(placed: seq<Placed>, lo: nat, hi: nat, c: nat, contact: Contact)
    requires lo <= c < hi <= |placed|
  {
    exists o :: Around(placed, lo, hi, o) && PositiveContact(contact(placed[c], placed[o])) > 0.0
  }

  function PositiveContact(length: Option<real>): real {
    if length.Some? && length.value > 0.0 then length.value else 0.0
  }

  /** The contact length of centre piece `c` with the first `count` pieces. */
  ghost function PieceContact(placed: seq<Placed>, lo: nat, hi: nat, c: nat, count: nat, contact: Contact): real
    requires lo <= c < hi <= |placed| && count <= |placed|
  {
    if count == 0 then 0.0
    else
      PieceContact(placed, lo, hi, c, count - 1, contact)
      + if lo <= count - 1 < hi then 0.0 else PositiveContact(contact(placed[c], placed[count - 1]))
  }

  ghost function CentreContact(placed: seq<Placed>, lo: nat, hi: nat, end: nat, contact: Contact): real
    requires lo <= end <= hi <= |placed|
  {
    if end == lo then 0.0
    else CentreContact(placed, lo, hi, end - 1, contact)
         + PieceContact(placed, lo, hi, end - 1, |placed|, contact)
  }

  method MeasureContacts(placed: seq<Placed>, lo: nat, hi: nat, contact: Contact) returns (d: Diagnostic)
    requires lo <= hi <= |placed|
    ensures d.legal <==> Measurable(placed, lo, hi, contact)
    ensures d.legal ==>
      && (d.centreContactComplete <==> forall c | lo <= c < hi :: Touches(placed, lo, hi, c, contact))
      && d.sharedBoundaryLength == CentreContact(placed, lo, hi, hi, contact)
    ensures !d.legal ==> d == ILLEGAL
  {
    var length := 0.0;
    var contacted: set<int> := {};
    for c := lo to hi
      invariant contacted <= Range(lo, c)
      invariant forall e, o | lo <= e < c && Around(placed, lo, hi, o) :: contact(placed[e], placed[o]).Some?
      invariant forall e | lo <= e < c :: e in contacted <==> Touches(placed, lo, hi, e, contact)
      invariant length == CentreContact(placed, lo, hi, c, contact)
    {
      ghost var earlier := contacted;
      for o := 0 to |placed|
        invariant forall p | 0 <= p < o && Around(placed, lo, hi, p) :: contact(placed[c], placed[p]).Some?
        invariant contacted == earlier || contacted == earlier + {c}
        invariant c in contacted <==>
          exists p :: 0 <= p < o && Around(placed, lo, hi, p) && PositiveContact(contact(placed[c], placed[p])) > 0.0
        invariant length == CentreContact(placed, lo, hi, c, contact) + PieceContact(placed, lo, hi, c, o, contact)
      {
        if lo <= o < hi {
          continue;
        }
        assert Around(placed, lo, hi, o);
        var shared := contact(placed[c], placed[o]);
        if shared.None? {
          assert !Measurable(placed, lo, hi, contact);
          return ILLEGAL;
        }
        if shared.value > 0.0 {
          contacted := contacted + {c};
          length := length + shared.value;
        }
      }
    }
    AllContacted(contacted, lo, hi);
    d := Diagnostic(true, |contacted| == hi - lo, length);
    assert Measurable(placed, lo, hi, contact);
    assert d.centreContactComplete <==> forall c | lo <= c < hi :: Touches(placed, lo, hi, c, contact);
  }

  /** Counting the contacted pieces tells whether every piece of the range was contacted. */
  lemma AllContacted(contacted: set<int>, lo: nat, hi: nat)
    requires lo <= hi && contacted <= Range(lo, hi)
    ensures |contacted| == hi - lo <==> forall c | lo <= c < hi :: c in contacted
  {
    RangeSize(lo, hi);
    FullSubset(contacted, Range(lo, hi));
    forall c | lo <= c < hi ensures c in Range(lo, hi) {
      assert c - lo >= 0;
    }
    if forall c | lo <= c < hi :: c in contacted {
      assert contacted == Range(lo, hi);
    }
  }

  /** The diagnostic of a legal block: its centre cell's contact with the cells around it. */
  ghost predicate Diagnoses(d: Diagnostic, block: seq<Placed>, k: nat, contact: Contact)
    requires |block| == 9 * k
  {
    && (d.legal <==> Measurable(block, 4 * k, 5 * k, contact))
    && (d.legal ==>
      && (d.centreContactComplete <==> forall c | 4 * k <= c < 5 * k :: Touches(block, 4 * k, 5 * k, c, contact))
      && d.sharedBoundaryLength == CentreContact(block, 4 * k, 5 * k, 5 * k, contact))
    && (!d.legal ==> d == ILLEGAL)
  }

  method DiagnoseLattice<E(!new)>(members: seq<Member>, basis: Basis, check: Check<E>, contact: Contact,
    ghost overlaps: (Placed, Placed) -> bool) returns (result: Result<Diagnostic, E>)
    requires Decides(check, overlaps)
    ensures result.Err? <==> Scan(Attempts(members, basis, 9), check).Err?
    ensures result.Err? ==> Scan(Attempts(members, basis, 9), check) == Err(result.error)
    ensures result.Ok? && !LatticeLegal(members, basis, overlaps) ==> result.value == ILLEGAL
    ensures result.Ok? && LatticeLegal(members, basis, overlaps) ==>
      && |Block(members, basis, 9)| == 9 * |members|
      && Diagnoses(result.value, Block(members, basis, 9), |members|, contact)
  {
    var block := PlaceBlock(members, basis, check);
    if block.Err? {
      return Err(block.error);
    }
    PlacedBlockIsLegal(members, basis, check, overlaps);
    if block.value.None? {
      return Ok(ILLEGAL);
    }
    BlockLength(members, basis, 9);
    var d := MeasureContacts(block.value.value, 4 * |members|, 5 * |members|, contact);
    result := Ok(d);
  }

  lemma {:induction false} BlockLength(members: seq<Member>, basis: Basis, count: nat)
    requires AllOnGrid(members)
    ensures |Block(members, basis, count)| == count * |members|
  {
    if count > 0 {
      BlockLength(members, basis, count - 1);
      assert count * |members| == (count - 1) * |members| + |members|;
    }
  }

  // ----- the infinite lattice

  /** Grid vertices of a placed polygon. */
  ghost function Footprint(piece: Placed): seq<Point> {
    Translated(piece.polygon, piece.at)
  }

  ghost predicate Symmetric(overlaps: (Placed, Placed) -> bool) {
    forall a, b :: overlaps(a, b) == overlaps(b, a)
  }

  ghost predicate TranslationInvariant(overlaps: (Placed, Placed) -> bool) {
    forall p, q, a, b, t {:trigger overlaps(Placed(p, Plus(a, t)), Placed(q, Plus(b, t)))} ::
      overlaps(Placed(p, Plus(a, t)), Placed(q, Plus(b, t))) == overlaps(Placed(p, a), Placed(q, b))
  }

  ghost predicate MeetInHulls(a: Placed, b: Placed) {
    exists p :: InHull(p, Footprint(a)) && InHull(p, Footprint(b))
  }

  /** Overlap is symmetric, does not depend on the origin and needs a common point of the convex hulls. */
  ghost predicate OverlapRelation(overlaps: (Placed, Placed) -> bool) {
    && Symmetric(overlaps)
    && TranslationInvariant(overlaps)
    && forall a, b | overlaps(a, b) :: MeetInHulls(a, b)
  }

  lemma {:induction false} FootprintMoves(polygon: seq<Option<Point>>, at: Point, offset: Point)
    ensures forall u | u in Translated(polygon, Plus(at, offset)) :: Minus(u, offset) in Translated(polygon, at)
  {
    if polygon != [] {
      FootprintMoves(polygon[..|polygon| - 1], at, offset);
    }
  }

  /** Two placed polygons overlap when their convex hulls share a point. */
  ghost function HullOverlap(): (Placed, Placed) -> bool {
    (a: Placed, b: Placed) => MeetInHulls(a, b)
  }

  /** Sharing a point of the hulls is itself an overlap relation as assumed here. */
  lemma {:induction false} HullOverlapIsOverlapRelation()
    ensures OverlapRelation(HullOverlap())
  {
    HullOverlapIsSymmetric();
    HullOverlapIsInvariant();
  }

  lemma {:induction false} HullOverlapIsSymmetric()
    ensures Symmetric(HullOverlap())
  {
  }

  lemma {:induction false} HullOverlapIsInvariant()
    ensures TranslationInvariant(HullOverlap())
  {
    var overlaps := HullOverlap();
    forall p, q, a, b, t
      ensures overlaps(Placed(p, Plus(a, t)), Placed(q, Plus(b, t))) == overlaps(Placed(p, a), Placed(q, b))
    {
      HullsMeetMoved(p, q, a, b, t);
    }
  }

  lemma {:induction false} HullsMeetMoved(p: seq<Option<Point>>, q: seq<Option<Point>>, a: Point, b: Point, t: Point)
    ensures MeetInHulls(Placed(p, Plus(a, t)), Placed(q, Plus(b, t))) == MeetInHulls(Placed(p, a), Placed(q, b))
  {
    var back := Minus(Point(0, 0), t);
    if MeetInHulls(Placed(p, a), Placed(q, b)) {
      HullsMove(p, q, a, b, t);
    }
    if MeetInHulls(Placed(p, Plus(a, t)), Placed(q, Plus(b, t))) {
      HullsMove(p, q, Plus(a, t), Plus(b, t), back);
      assert Plus(Plus(a, t), back) == a && Plus(Plus(b, t), back) == b;
    }
  }

  lemma {:induction false} HullsMove(p: seq<Option<Point>>, q: seq<Option<Point>>, a: Point, b: Point, t: Point)
    requires MeetInHulls(Placed(p, a), Placed(q, b))
    ensures MeetInHulls(Placed(p, Plus(a, t)), Placed(q, Plus(b, t)))
  {
    var r :| InHull(r, Translated(p, a)) && InHull(r, Translated(q, b));
    HullMoves(r, p, a, t);
    HullMoves(r, q, b, t);
    var moved := RealPoint(r.x + t.x as real, r.y + t.y as real);
    assert InHull(moved, Footprint(Placed(p, Plus(a, t)))) && InHull(moved, Footprint(Placed(q, Plus(b, t))));
  }

  lemma {:induction false} HullMoves(r: RealPoint, polygon: seq<Option<Point>>, at: Point, t: Point)
    requires InHull(r, Translated(polygon, at))
    ensures InHull(RealPoint(r.x + t.x as real, r.y + t.y as real), Translated(polygon, Plus(at, t)))
  {
    var vertices, moved := Translated(polygon, at), Translated(polygon, Plus(at, t));
    TranslatedMoves(polygon, at, t);
    var weights: seq<real> :|
      |weights| == |vertices| && ConvexWeights(weights) && WeightedSum(vertices, weights) == r;
    WeightedSumMoves(vertices, moved, weights, t);
  }

  lemma {:induction false} TranslatedMoves(polygon: seq<Option<Point>>, at: Point, t: Point)
    ensures var vertices, moved := Translated(polygon, at), Translated(polygon, Plus(at, t));
            AllMoved(vertices, moved, t)
  {
    if polygon != [] {
      TranslatedMoves(polygon[..|polygon| - 1], at, t);
    }
  }

  ghost predicate SumMoved(sum: RealPoint, moved: RealPoint, total: real, t: Point) {
    moved.x == sum.x + total * t.x as real && moved.y == sum.y + total * t.y as real
  }

  ghost predicate AllMoved(vertices: seq<Point>, moved: seq<Point>, t: Point) {
    |vertices| == |moved| && forall k | 0 <= k < |moved| :: moved[k] == Plus(vertices[k], t)
  }

  lemma {:induction false} WeightedSumMoves(vertices: seq<Point>, moved: seq<Point>, weights: seq<real>, t: Point)
    requires AllMoved(vertices, moved, t) && |moved| == |weights|
    ensures SumMoved(WeightedSum(vertices, weights), WeightedSum(moved, weights), Total(weights), t)
  {
    if vertices != [] {
      TailMoved(vertices, moved, t);
      WeightedSumMoves(vertices[1..], moved[1..], weights[1..], t);
      OneMoreMoved(weights[0], vertices[0], moved[0], WeightedSum(vertices[1..], weights[1..]),
        WeightedSum(moved[1..], weights[1..]), Total(weights[1..]), t);
    }
  }

  lemma TailMoved(vertices: seq<Point>, moved: seq<Point>, t: Point)
    requires AllMoved(vertices, moved, t) && vertices != []
    ensures AllMoved(vertices[1..], moved[1..], t) && moved[0] == Plus(vertices[0], t)
  {
  }

  lemma OneMoreMoved(w: real, v: Point, m: Point, sum: RealPoint, moved: RealPoint, total: real, t: Point)
    requires m == Plus(v, t) && SumMoved(sum, moved, total, t)
    ensures SumMoved(Weighted(w, v, sum), Weighted(w, m, moved), w + total, t)
  {
    assert m.x as real == v.x as real + t.x as real && m.y as real == v.y as real + t.y as real;
    WeightedMoves(w, v.x as real, t.x as real, total, sum.x, moved.x, m.x as real);
    WeightedMoves(w, v.y as real, t.y as real, total, sum.y, moved.y, m.y as real);
  }

  lemma WeightedMoves(w: real, x: real, t: real, total: real, s: real, m: real, moved: real)
    requires m == s + total * t && moved == x + t
    ensures w * moved + m == w * x + s + (w + total) * t
  {
  }

  /** Every vertex of a polygon is a point of its hull, so polygons with a common vertex overlap. */
  lemma {:induction false} VertexIsInHull(vertices: seq<Point>, i: nat)
    requires i < |vertices|
    ensures InHull(RealPoint(vertices[i].x as real, vertices[i].y as real), vertices)
  {
    var weights := UnitWeights(vertices, i);
  }

  lemma {:induction false} UnitWeights(vertices: seq<Point>, i: nat) returns (weights: seq<real>)
    requires i < |vertices|
    ensures |weights| == |vertices| && ConvexWeights(weights)
    ensures WeightedSum(vertices, weights) == RealPoint(vertices[i].x as real, vertices[i].y as real)
  {
    if i == 0 {
      weights := [1.0] + seq(|vertices| - 1, _ => 0.0);
      var rest := weights[1..];
      NoWeights(vertices[1..], rest);
      assert weights == [1.0] + rest;
    } else {
      var rest := UnitWeights(vertices[1..], i - 1);
      weights := [0.0] + rest;
      assert weights[1..] == rest;
    }
  }

  lemma {:induction false} NoWeights(vertices: seq<Point>, weights: seq<real>)
    requires |vertices| == |weights| && forall k | 0 <= k < |weights| :: weights[k] == 0.0
    ensures Total(weights) == 0.0 && WeightedSum(vertices, weights) == RealPoint(0.0, 0.0)
  {
    if vertices != [] {
      NoWeights(vertices[1..], weights[1..]);
    }
  }

  lemma {:induction false} VerticesAreWorldVertices(members: seq<Member>, i: nat)
    requires i < |members|
    ensures forall v | v in MemberVertices(members[i]) :: v in WorldVertices(members)
  {
    if i < |members| - 1 {
      VerticesAreWorldVertices(members[..|members| - 1], i);
      assert members[..|members| - 1][i] == members[i];
    }
  }

  lemma SpreadIsNonNegative(members: seq<Member>, spread: int)
    requires IsSpread(WorldVertices(members), Some(spread))
    ensures spread >= 0
  {
  }

  lemma BoundAt<T(!new)>(items: seq<T>, distance: (T, T) -> int, bound: int, u: T, v: T)
    requires Bounds(items, distance, bound) && u in items && v in items
    ensures distance(u, v) <= bound
  {
  }

  /** Copies that meet are moved apart by no more than the spread. */
  lemma MeetingCopiesAreClose(members: seq<Member>, spread: int, i: nat, j: nat, s: Point, t: Point)
    requires AllOnGrid(members) && i < |members| && j < |members|
    requires Bounds(WorldVertices(members), SquaredDistance, spread)
    requires MeetInHulls(Copy(members[i], s), Copy(members[j], t))
    ensures SquaredDistance(t, s) <= spread
  {
    FootprintMoves(members[i].polygon, members[i].point.value, s);
    FootprintMoves(members[j].polygon, members[j].point.value, t);
    VerticesAreWorldVertices(members, i);
    VerticesAreWorldVertices(members, j);
    var us, vs := Footprint(Copy(members[i], s)), Footprint(Copy(members[j], t));
    forall u, v | u in us && v in vs
      ensures SquaredDistance(Minus(u, s), Minus(v, t)) <= spread
    {
      BoundAt(WorldVertices(members), SquaredDistance, spread, Minus(u, s), Minus(v, t));
    }
    var p :| InHull(p, us) && InHull(p, vs);
    MeetingHullsAreClose(us, vs, p, s, t, spread);
  }

  lemma CellsAdd(basis: Basis, n: int, m: int, n': int, m': int)
    ensures Cell(basis, n', m') == Plus(Cell(basis, n, m), Cell(basis, n' - n, m' - m))
    ensures Cell(basis, 0, 0) == Point(0, 0)
  {
  }

  /** Where copy `i` of cell `(n, m)` sits in the 3x3 block. */
  lemma CopyIsInBlock(members: seq<Member>, basis: Basis, n: int, m: int, i: nat)
    requires AllOnGrid(members) && -1 <= n <= 1 && -1 <= m <= 1 && i < |members|
    ensures var block, at := Block(members, basis, 9), (3 * (n + 1) + m + 1) * |members| + i;
            at < |block| && block[at] == Copy(members[i], Cell(basis, n, m))
  {
    var count := 3 * (n + 1) + m + 1;
    assert Row(count) == n && Column(count) == m;
    BlockIsMonotone(members, basis, count + 1, 9);
    BlockLength(members, basis, count);
    assert Block(members, basis, count + 1) == Block(members, basis, count) + Copies(members, Cell(basis, n, m));
  }

  /** Copies in the centre cell and in a neighbouring cell are apart when the 3x3 block is legal. */
  lemma {:induction false} NeighboursAreApart(members: seq<Member>, basis: Basis, overlaps: (Placed, Placed) -> bool,
                                              i: nat, j: nat, n: int, m: int)
    requires LatticeLegal(members, basis, overlaps) && Symmetric(overlaps)
    requires i < |members| && j < |members| && -1 <= n <= 1 && -1 <= m <= 1
    requires (0, 0, i) != (n, m, j)
    ensures !overlaps(Copy(members[i], Cell(basis, 0, 0)), Copy(members[j], Cell(basis, n, m)))
  {
    CopyIsInBlock(members, basis, 0, 0, i);
    CopyIsInBlock(members, basis, n, m, j);
    var count := 3 * (n + 1) + m + 1;
    PositionsDiffer(|members|, count, i, j);
    ApartInList(Block(members, basis, 9), overlaps, 4 * |members| + i, count * |members| + j);
  }

  lemma ApartInList(placed: seq<Placed>, overlaps: (Placed, Placed) -> bool, p: nat, q: nat)
    requires PairwiseApart(placed, overlaps) && Symmetric(overlaps) && p < |placed| && q < |placed| && p != q
    ensures !overlaps(placed[p], placed[q])
  {
    assert overlaps(placed[p], placed[q]) == overlaps(placed[q], placed[p]);
  }

  lemma PositionsDiffer(k: nat, c: nat, i: nat, j: nat)
    requires i < k && j < k && (c != 4 || i != j)
    ensures c * k + j != 4 * k + i
  {
  }

  /** What holds of two pieces holds of the same pieces moved together. */
  lemma ShiftedCopiesAgree(first: Member, second: Member, overlaps: (Placed, Placed) -> bool,
                                              s: Point, d: Point)
    requires TranslationInvariant(overlaps) && first.point.Some? && second.point.Some?
    ensures overlaps(Copy(first, s), Copy(second, Plus(s, d))) == overlaps(Copy(first, Point(0, 0)), Copy(second, d))
  {
    var p, q, a, b := first.polygon, second.polygon, first.point.value, Plus(second.point.value, d);
    assert Plus(a, Point(0, 0)) == a;
    assert Plus(second.point.value, Plus(s, d)) == Plus(b, s);
    assert overlaps(Placed(p, Plus(a, s)), Placed(q, Plus(b, s))) == overlaps(Placed(p, a), Placed(q, b));
  }

  /** Copies whose cells are two or more apart in some direction are apart. */
  lemma FarCopiesAreApart(members: seq<Member>, basis: Basis, spread: int,
                                             overlaps: (Placed, Placed) -> bool,
                                             i: nat, j: nat, s: Point, dn: int, dm: int)
    requires IsSpread(WorldVertices(members), Some(spread)) && FarNeighborCertificate(Some(spread), basis)
    requires AllOnGrid(members) && forall a, b | overlaps(a, b) :: MeetInHulls(a, b)
    requires i < |members| && j < |members| && (Abs(dn) >= 2 || Abs(dm) >= 2)
    ensures !overlaps(Copy(members[i], s), Copy(members[j], Plus(s, Cell(basis, dn, dm))))
  {
    SpreadIsNonNegative(members, spread);
    CertifiedTranslatesAreFar(spread, basis, dn, dm);
    var d := Cell(basis, dn, dm);
    assert Minus(Plus(s, d), s) == d;
    if overlaps(Copy(members[i], s), Copy(members[j], Plus(s, d))) {
      MeetingCopiesAreClose(members, spread, i, j, s, Plus(s, d));
    }
  }

  /**
   A certified basis with a legal 3x3 block tiles the whole plane: no two distinct copies of members,
   in any two cells of the infinite lattice, overlap.
   */
  lemma {:induction false} InfiniteLatticeIsLegal(members: seq<Member>, basis: Basis, spread: Option<int>,
                                                  overlaps: (Placed, Placed) -> bool,
                                                  i: nat, n: int, m: int, j: nat, n': int, m': int)
    requires IsSpread(WorldVertices(members), spread) && FarNeighborCertificate(spread, basis)
    requires LatticeLegal(members, basis, overlaps) && OverlapRelation(overlaps)
    requires i < |members| && j < |members| && (n, m, i) != (n', m', j)
    ensures !overlaps(Copy(members[i], Cell(basis, n, m)), Copy(members[j], Cell(basis, n', m')))
  {
    CellsAdd(basis, n, m, n', m');
    if Abs(n' - n) >= 2 || Abs(m' - m) >= 2 {
      FarCopiesAreApart(members, basis, spread.value, overlaps, i, j, Cell(basis, n, m), n' - n, m' - m);
    } else {
      NeighboursAreApart(members, basis, overlaps, i, j, n' - n, m' - m);
      ShiftedCopiesAgree(members[i], members[j], overlaps, Cell(basis, n, m), Cell(basis, n' - n, m' - m));
    }
  }

  /** A degenerate basis is never certified. */
  lemma CertifiedBasisIsIndependent(members: seq<Member>, basis: Basis, spread: Option<int>)
    requires IsSpread(WorldVertices(members), spread) && FarNeighborCertificate(spread, basis)
    ensures Cross(basis.v1, basis.v2) != 0
  {
    SpreadIsNonNegative(members, spread.value);
    assert spread.value * (SquaredLength(basis.v1) + SquaredLength(basis.v2)) >= 0;
  }
}
