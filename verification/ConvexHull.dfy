/** The convex hull of grid points: deduplicate, sort, build the lower and the upper chain. */
module ConvexHull {
  import opened Grid
  import opened Lists
  import opened OrderedMaps
  import Sorting
  import opened Text

  // ----- the order of the sweep

  predicate Before(a: Point, b: Point) {
    a.x < b.x || (a.x == b.x && a.y < b.y)
  }

  /** The order in which one chain visits the points: ascending for the lower chain, descending for the upper. */
  predicate Ahead(ascending: bool, a: Point, b: Point) {
    if ascending then Before(a, b) else Before(b, a)
  }

  predicate NotAfter(a: Point, b: Point) {
    a == b || Before(a, b)
  }

  // ----- cross products of vectors that all point ahead

  predicate PointsAhead(x: int, y: int) {
    x > 0 || (x == 0 && y > 0)
  }

  lemma ScaleCross(ux: int, uy: int, vx: int, vy: int, wx: int, wy: int)
    ensures (ux * wy - uy * wx) * vx == (ux * vy - uy * vx) * wx + (vx * wy - vy * wx) * ux
    ensures (ux * wy - uy * wx) * vy == (ux * vy - uy * vx) * wy + (vx * wy - vy * wx) * uy
  {
  }

  lemma SignOfProduct(a: int, b: int)
    requires b > 0
    ensures a * b >= 0 <==> a >= 0
    ensures a * b > 0 <==> a > 0
  {
  }

  /** Turning left twice among vectors that point ahead is turning left. */
  lemma LeftTurnsAdd(u: Point, v: Point, w: Point)
    requires PointsAhead(u.x, u.y) && PointsAhead(v.x, v.y) && PointsAhead(w.x, w.y)
    requires Cross(u, v) >= 0 && Cross(v, w) >= 0
    ensures Cross(u, w) >= 0
    ensures Cross(u, v) > 0 || Cross(v, w) > 0 ==> Cross(u, w) > 0
  {
    ScaleCross(u.x, u.y, v.x, v.y, w.x, w.y);
    if v.x > 0 {
      SignOfProduct(Cross(u, w), v.x);
      if u.x == 0 {
        SignOfProduct(u.y, v.x);
      } else {
        SignOfProduct(Cross(v, w), u.x);
      }
      if w.x == 0 {
        SignOfProduct(w.y, v.x);
        SignOfProduct(Cross(v, w), u.x);
      } else {
        SignOfProduct(Cross(u, v), w.x);
      }
    } else {
      SignOfProduct(u.x, v.y);
      SignOfProduct(-w.x, v.y);
      assert w.x == 0;
      SignOfProduct(u.x, w.y);
    }
  }

  /** Turns among three points, as crosses of the steps between them. */
  lemma TurnAsCross(a: Point, b: Point, c: Point)
    ensures Turn(a, b, c) == Cross(Minus(b, a), Minus(c, b))
    ensures Turn(a, b, c) == Cross(Minus(a, c), Minus(b, c))
    ensures Turn(a, b, c) == Turn(b, c, a) == Turn(c, a, b)
    ensures Turn(a, c, b) == -Turn(a, b, c)
  {
  }

  // ----- one chain

  ghost predicate Step(h: seq<Point>, ascending: bool, i: nat)
    requires i + 1 < |h|
  {
    Ahead(ascending, h[i], h[i + 1])
  }

  ghost predicate Bend(h: seq<Point>, i: nat)
    requires i + 2 < |h|
  {
    Turn(h[i], h[i + 1], h[i + 2]) > 0
  }

  ghost predicate EdgeLeft(h: seq<Point>, i: nat, q: Point)
    requires i + 1 < |h|
  {
    Turn(h[i], h[i + 1], q) >= 0
  }

  ghost predicate Chain(h: seq<Point>, ascending: bool) {
    && (forall i | 0 <= i < |h| - 1 :: Step(h, ascending, i))
    && (forall i | 0 <= i < |h| - 2 :: Bend(h, i))
  }

  /** `q` is on or to the left of every edge of the chain. */
  ghost predicate OnLeft(h: seq<Point>, q: Point) {
    forall i | 0 <= i < |h| - 1 :: EdgeLeft(h, i, q)
  }

  /** Removing a right turn keeps later points on the left. */
  lemma PopKeepsLeft(ascending: bool, o: Point, t: Point, p: Point, q: Point)
    requires Ahead(ascending, o, t) && Ahead(ascending, t, p) && Ahead(ascending, o, q)
    requires Turn(o, t, p) <= 0 && Turn(o, t, q) >= 0
    ensures Turn(o, p, q) >= 0
  {
  }

  /** A point behind the last vertex is left of the edge that a left turn adds. */
  lemma BehindIsLeft(ascending: bool, o: Point, t: Point, p: Point, q: Point)
    requires Ahead(ascending, o, t) && Ahead(ascending, t, p) && Ahead(ascending, q, t)
    requires Turn(o, t, p) > 0 && Turn(o, t, q) >= 0
    ensures Turn(t, p, q) >= 0
  {
  }

  lemma TurnExtends(ascending: bool, a: Point, b: Point, c: Point, p: Point)
    requires Ahead(ascending, a, b) && Ahead(ascending, b, c) && Ahead(ascending, b, p)
    requires Turn(a, b, c) > 0 && Turn(b, c, p) > 0
    ensures Turn(a, b, p) > 0
  {
  }

  /** A left turn at the end of a chain is left of the whole chain. */
  lemma {:induction false} PushedIsLeft(h: seq<Point>, ascending: bool, p: Point, i: nat)
    requires Chain(h, ascending) && i < |h| - 1 && Ahead(ascending, h[|h| - 1], p)
    requires Turn(h[|h| - 2], h[|h| - 1], p) > 0
    ensures Turn(h[i], h[i + 1], p) > 0 && Ahead(ascending, h[i + 1], p)
    decreases |h| - i
  {
    assert Step(h, ascending, i);
    if i < |h| - 2 {
      PushedIsLeft(h, ascending, p, i + 1);
      assert Step(h, ascending, i + 1) && Bend(h, i);
      TurnExtends(ascending, h[i], h[i + 1], h[i + 2], p);
    }
  }

  lemma {:induction false} ChainIsOrdered(h: seq<Point>, ascending: bool, i: nat, j: nat)
    requires Chain(h, ascending) && i < j < |h|
    ensures Ahead(ascending, h[i], h[j])
    decreases j - i
  {
    assert Step(h, ascending, j - 1);
    if i < j - 1 {
      ChainIsOrdered(h, ascending, i, j - 1);
    }
  }

  ghost predicate StrictlyOrdered(ps: seq<Point>, ascending: bool) {
    forall i, j | 0 <= i < j < |ps| :: Ahead(ascending, ps[i], ps[j])
  }

  /** What the chain promises after the points `ps` have been swept. */
  ghost predicate Swept(h: seq<Point>, ps: seq<Point>, ascending: bool) {
    && ps != [] && h != [] && h[0] == ps[0] && h[|h| - 1] == ps[|ps| - 1]
    && Chain(h, ascending)
    && (forall i | 0 <= i < |h| :: h[i] in ps)
    && (forall q | q in ps :: OnLeft(h, q))
  }

  lemma NewEdgeIsLeft(h: seq<Point>, ascending: bool, p: Point, q: Point)
    requires h != [] && Chain(h, ascending) && Ahead(ascending, h[|h| - 1], p) && OnLeft(h, q)
    requires |h| >= 2 ==> Turn(h[|h| - 2], h[|h| - 1], p) > 0
    requires Ahead(ascending, h[|h| - 1], q) ==> Turn(h[|h| - 1], p, q) >= 0
    requires Ahead(ascending, q, h[|h| - 1]) ==> |h| >= 2
    ensures Turn(h[|h| - 1], p, q) >= 0
  {
    var top := h[|h| - 1];
    if Ahead(ascending, q, top) {
      assert EdgeLeft(h, |h| - 2, q) && Step(h, ascending, |h| - 2);
      BehindIsLeft(ascending, h[|h| - 2], top, p, q);
    } else if q == top {
      TurnAsCross(top, p, q);
    }
  }

  lemma PushedChain(h: seq<Point>, ascending: bool, p: Point)
    requires h != [] && Chain(h, ascending) && Ahead(ascending, h[|h| - 1], p)
    requires |h| >= 2 ==> Turn(h[|h| - 2], h[|h| - 1], p) > 0
    ensures Chain(h + [p], ascending) && OnLeft(h + [p], p)
  {
    var longer := h + [p];
    forall i | 0 <= i < |longer| - 1 ensures Step(longer, ascending, i) {
      if i < |h| - 1 {
        assert Step(h, ascending, i);
      }
    }
    forall i | 0 <= i < |longer| - 2 ensures Bend(longer, i) {
      if i < |h| - 2 {
        assert Bend(h, i);
      }
    }
    forall i | 0 <= i < |longer| - 1 ensures EdgeLeft(longer, i, p) {
      if i < |h| - 1 {
        PushedIsLeft(h, ascending, p, i);
      } else {
        TurnAsCross(h[|h| - 1], p, p);
      }
    }
  }

  lemma PushKeepsLeft(h: seq<Point>, p: Point, q: Point)
    requires h != [] && OnLeft(h, q) && Turn(h[|h| - 1], p, q) >= 0
    ensures OnLeft(h + [p], q)
  {
    var longer := h + [p];
    forall i | 0 <= i < |longer| - 1 ensures EdgeLeft(longer, i, q) {
      if i < |h| - 1 {
        assert EdgeLeft(h, i, q);
      }
    }
  }

  /** The state of the chain over the swept points `ps` just before `p` is pushed. */
  ghost predicate ReadyToPush(h: seq<Point>, ps: seq<Point>, ascending: bool, p: Point) {
    && ps != [] && h != [] && h[0] == ps[0] && Chain(h, ascending)
    && (forall i | 0 <= i < |h| :: h[i] in ps)
    && (forall q | q in ps :: OnLeft(h, q))
    && (forall q | q in ps && Ahead(ascending, h[|h| - 1], q) :: Turn(h[|h| - 1], p, q) >= 0)
  }

  lemma PushSweeps(h: seq<Point>, ps: seq<Point>, ascending: bool, p: Point)
    requires ReadyToPush(h, ps, ascending, p) && StrictlyOrdered(ps + [p], ascending)
    requires |h| >= 2 ==> Turn(h[|h| - 2], h[|h| - 1], p) > 0
    ensures Swept(h + [p], ps + [p], ascending)
  {
    var top, longer, all := h[|h| - 1], h + [p], ps + [p];
    FirstIsBehindNone(ps, p, ascending);
    assert top in ps;
    PushedChain(h, ascending, p);
    forall q | q in all ensures OnLeft(longer, q) {
      if q != p {
        assert q in ps;
        NewEdgeIsLeft(h, ascending, p, q);
        PushKeepsLeft(h, p, q);
      }
    }
  }

  lemma FirstIsBehindNone(ps: seq<Point>, p: Point, ascending: bool)
    requires ps != [] && StrictlyOrdered(ps + [p], ascending)
    ensures forall q | q in ps :: Ahead(ascending, q, p) && !Ahead(ascending, q, ps[0])
  {
    var all := ps + [p];
    forall q | q in ps ensures Ahead(ascending, q, p) && !Ahead(ascending, q, ps[0]) {
      var k :| 0 <= k < |ps| && ps[k] == q;
      assert all[k] == q && all[|ps|] == p && all[0] == ps[0];
      assert k > 0 ==> Ahead(ascending, all[0], all[k]);
    }
  }

  lemma ShorterChain(h: seq<Point>, ascending: bool)
    requires h != [] && Chain(h, ascending)
    ensures Chain(h[..|h| - 1], ascending)
  {
    var shorter := h[..|h| - 1];
    forall i | 0 <= i < |shorter| - 1 ensures Step(shorter, ascending, i) {
      assert Step(h, ascending, i);
    }
    forall i | 0 <= i < |shorter| - 2 ensures Bend(shorter, i) {
      assert Bend(h, i);
    }
  }

  lemma PopStaysReady(h: seq<Point>, ps: seq<Point>, ascending: bool, p: Point)
    requires ReadyToPush(h, ps, ascending, p) && |h| >= 2 && Turn(h[|h| - 2], h[|h| - 1], p) <= 0
    requires forall q | q in ps :: Ahead(ascending, q, p)
    ensures ReadyToPush(h[..|h| - 1], ps, ascending, p)
  {
    var shorter, o, t := h[..|h| - 1], h[|h| - 2], h[|h| - 1];
    forall q | q in ps && Ahead(ascending, o, q) ensures Turn(o, p, q) >= 0 {
      assert OnLeft(h, q) && EdgeLeft(h, |h| - 2, q) && Step(h, ascending, |h| - 2);
      assert t in ps;
      PopKeepsLeft(ascending, o, t, p, q);
    }
    ShorterChain(h, ascending);
    forall q | q in ps ensures OnLeft(shorter, q) {
      assert OnLeft(h, q);
      forall i | 0 <= i < |shorter| - 1 ensures EdgeLeft(shorter, i, q) {
        assert EdgeLeft(h, i, q);
      }
    }
  }

  method BuildChain(ordered: seq<Point>, ascending: bool) returns (half: seq<Point>)
    requires ordered != [] && StrictlyOrdered(ordered, ascending)
    ensures Swept(half, ordered, ascending)
  {
    half := [ordered[0]];
    assert ordered[..1] == half;
    for k := 1 to |ordered|
      invariant Swept(half, ordered[..k], ascending)
    {
      var p := ordered[k];
      ghost var swept := ordered[..k];
      assert ordered[..k + 1] == swept + [p];
      StartReady(half, swept, ascending, p);
      while |half| >= 2 && Turn(half[|half| - 2], half[|half| - 1], p) <= 0
        invariant ReadyToPush(half, swept, ascending, p)
      {
        PopStaysReady(half, swept, ascending, p);
        half := half[..|half| - 1];
      }
      PushSweeps(half, swept, ascending, p);
      half := half + [p];
    }
    assert ordered[..|ordered|] == ordered;
  }

  lemma StartReady(h: seq<Point>, ps: seq<Point>, ascending: bool, p: Point)
    requires Swept(h, ps, ascending) && StrictlyOrdered(ps + [p], ascending)
    ensures ReadyToPush(h, ps, ascending, p)
    ensures forall q | q in ps :: Ahead(ascending, q, p)
  {
    FirstIsBehindNone(ps, p, ascending);
    var all, last := ps + [p], |ps| - 1;
    forall q | q in ps ensures !Ahead(ascending, h[|h| - 1], q) {
      var k :| 0 <= k < |ps| && ps[k] == q;
      assert all[k] == q && all[last] == h[|h| - 1];
      assert k < last ==> Ahead(ascending, all[k], all[last]);
    }
  }

  // ----- collinear points

  ghost predicate AllCollinear(points: seq<Point>) {
    forall p, q, r {:trigger Turn(p, q, r)} | p in points && q in points && r in points :: Turn(p, q, r) == 0
  }

  /** Points on the line through two distinct points are collinear. */
  lemma OnOneLine(points: seq<Point>, a: Point, b: Point)
    requires a != b && forall q | q in points :: Turn(a, b, q) == 0
    ensures AllCollinear(points)
  {
  }

  /** Points left of both edges of a corner that folds back lie on one line. */
  lemma FoldedCorner(ascending: bool, a: Point, m: Point, b: Point, q: Point)
    requires Ahead(ascending, a, m) && Ahead(ascending, b, m) && Turn(a, m, b) == 0
    requires Turn(a, m, q) >= 0 && Turn(m, b, q) >= 0
    ensures Turn(a, m, q) == 0
  {
  }

  // ----- the whole hull

  /** The `i`-th vertex of a closed ring. */
  function Vertex(ring: seq<Point>, i: nat): Point
    requires i < 2 * |ring|
  {
    if i < |ring| then ring[i] else ring[i - |ring|]
  }

  ghost predicate LeftCorner(ring: seq<Point>, i: nat)
    requires i < |ring| && |ring| >= 2
  {
    Turn(Vertex(ring, i), Vertex(ring, i + 1), Vertex(ring, i + 2)) > 0
  }

  ghost predicate LeftOfEdge(ring: seq<Point>, i: nat, q: Point)
    requires i < |ring|
  {
    Turn(Vertex(ring, i), Vertex(ring, i + 1), q) >= 0
  }

  ghost predicate LeftCycle(hull: seq<Point>) {
    |hull| >= 3 && forall i | 0 <= i < |hull| :: LeftCorner(hull, i)
  }

  ghost predicate Encloses(hull: seq<Point>, q: Point) {
    forall i | 0 <= i < |hull| :: LeftOfEdge(hull, i, q)
  }

  /** The hull of a list of points, for each of the shapes the points can have. */
  ghost predicate IsConvexHull(hull: seq<Point>, points: seq<Point>) {
    && (forall v | v in hull :: v in points)
    && NoRepeats(hull)
    && (points == [] <==> hull == [])
    && (|hull| == 1 <==> points != [] && forall q | q in points :: q == points[0])
    && (|hull| == 2 <==> AllCollinear(points) && exists q :: q in points && q != points[0])
    && (|hull| == 2 ==> forall q | q in points :: NotAfter(hull[0], q) && NotAfter(q, hull[1]))
    && (!AllCollinear(points) ==> LeftCycle(hull) && forall q | q in points :: Encloses(hull, q))
  }

  /** The two chains of a sweep in both directions over the same points. */
  ghost predicate TwoChains(lower: seq<Point>, upper: seq<Point>, points: seq<Point>) {
    && |lower| >= 2 && |upper| >= 2 && Chain(lower, true) && Chain(upper, false)
    && lower[0] == upper[|upper| - 1] && upper[0] == lower[|lower| - 1]
    && (forall v | v in lower || v in upper :: v in points)
    && (forall q | q in points :: OnLeft(lower, q) && OnLeft(upper, q))
  }

  ghost predicate Corner(h: seq<Point>, k: seq<Point>) {
    |h| >= 2 && |k| >= 2 && Turn(h[|h| - 2], h[|h| - 1], k[1]) > 0
  }

  /** Where one chain ends and the other begins the turn is strict, unless all points are on one line. */
  lemma ChainsMeetInCorner(h: seq<Point>, k: seq<Point>, ascending: bool, points: seq<Point>)
    requires |h| >= 2 && |k| >= 2 && Chain(h, ascending) && Chain(k, !ascending) && h[|h| - 1] == k[0]
    requires k[1] in points && forall q | q in points :: OnLeft(h, q) && OnLeft(k, q)
    requires !AllCollinear(points)
    ensures Corner(h, k)
  {
    var a, m, b := h[|h| - 2], h[|h| - 1], k[1];
    assert Step(h, ascending, |h| - 2) && Step(k, !ascending, 0);
    assert OnLeft(h, b) && EdgeLeft(h, |h| - 2, b);
    if Turn(a, m, b) == 0 {
      forall q | q in points ensures Turn(a, m, q) == 0 {
        assert OnLeft(h, q) && OnLeft(k, q) && EdgeLeft(h, |h| - 2, q) && EdgeLeft(k, 0, q);
        FoldedCorner(ascending, a, m, b, q);
      }
      OnOneLine(points, a, m);
    }
  }

  function Closed(lower: seq<Point>, upper: seq<Point>): seq<Point>
    requires lower != [] && upper != []
  {
    lower[..|lower| - 1] + upper[..|upper| - 1]
  }

  /** Edge `i` of the closed hull is an edge of one of the chains. */
  lemma CycleVertex(lower: seq<Point>, upper: seq<Point>, i: nat)
    requires |lower| >= 2 && |upper| >= 2 && lower[0] == upper[|upper| - 1] && upper[0] == lower[|lower| - 1]
    requires i <= |Closed(lower, upper)|
    ensures Vertex(Closed(lower, upper), i) == if i < |lower| then lower[i] else upper[i - |lower| + 1]
  {
  }

  lemma CycleEncloses(lower: seq<Point>, upper: seq<Point>, points: seq<Point>, q: Point)
    requires TwoChains(lower, upper, points) && q in points
    ensures Encloses(Closed(lower, upper), q)
  {
    var hull := Closed(lower, upper);
    assert OnLeft(lower, q) && OnLeft(upper, q);
    forall i | 0 <= i < |hull| ensures LeftOfEdge(hull, i, q) {
      CycleVertex(lower, upper, i);
      CycleVertex(lower, upper, i + 1);
      if i >= |lower| - 1 {
        assert EdgeLeft(upper, i - |lower| + 1, q);
      } else {
        assert EdgeLeft(lower, i, q);
      }
    }
  }

  lemma CycleTurnsLeft(lower: seq<Point>, upper: seq<Point>, points: seq<Point>)
    requires TwoChains(lower, upper, points) && !AllCollinear(points)
    ensures LeftCycle(Closed(lower, upper))
  {
    var hull := Closed(lower, upper);
    ChainsMeetInCorner(lower, upper, true, points);
    ChainsMeetInCorner(upper, lower, false, points);
    TurnBack(lower[0], lower[1]);
    assert |hull| >= 3;
    forall i | 0 <= i < |hull| ensures LeftCorner(hull, i) {
      CycleTurnsLeftAt(lower, upper, i);
    }
  }

  lemma CycleTurnsLeftAt(lower: seq<Point>, upper: seq<Point>, i: nat)
    requires Chain(lower, true) && Chain(upper, false) && Corner(lower, upper) && Corner(upper, lower)
    requires lower[0] == upper[|upper| - 1] && upper[0] == lower[|lower| - 1]
    requires i < |Closed(lower, upper)| && |Closed(lower, upper)| >= 3
    ensures LeftCorner(Closed(lower, upper), i)
  {
    var left := (a, b, c) => Turn(a, b, c) > 0;
    forall k | 0 <= k < |lower| - 2 ensures left(lower[k], lower[k + 1], lower[k + 2]) {
      assert Bend(lower, k);
    }
    forall k | 0 <= k < |upper| - 2 ensures left(upper[k], upper[k + 1], upper[k + 2]) {
      assert Bend(upper, k);
    }
    CornersOfCycle(lower, upper, left, i);
  }

  /** The three consecutive vertices at `i` come from one chain or from a corner between the chains. */
  lemma CornersOfCycle(lower: seq<Point>, upper: seq<Point>, left: (Point, Point, Point) -> bool,
    i: nat)
    requires |lower| >= 2 && |upper| >= 2 && lower[0] == upper[|upper| - 1] && upper[0] == lower[|lower| - 1]
    requires i < |Closed(lower, upper)| && |Closed(lower, upper)| >= 3
    requires forall k {:trigger lower[k]} | 0 <= k < |lower| - 2 :: left(lower[k], lower[k + 1], lower[k + 2])
    requires forall k {:trigger upper[k]} | 0 <= k < |upper| - 2 :: left(upper[k], upper[k + 1], upper[k + 2])
    requires left(lower[|lower| - 2], lower[|lower| - 1], upper[1])
    requires left(upper[|upper| - 2], upper[|upper| - 1], lower[1])
    ensures var hull := Closed(lower, upper); left(Vertex(hull, i), Vertex(hull, i + 1), Vertex(hull, i + 2))
  {
  }

  lemma TurnBack(a: Point, b: Point)
    ensures Turn(a, b, a) == 0
  {
  }

  /** A point left of both chains' edges at `c` cannot be passed by the upper chain on its way back. */
  lemma NoSharedInterior(a: Point, c: Point, d: Point, e: Point)
    requires Before(a, c) && Before(c, d) && Before(c, e)
    ensures Turn(a, c, d) > 0 && Turn(e, c, a) >= 0 ==> Turn(e, c, d) < 0
  {
    var x, u, w := Minus(c, a), Minus(d, c), Minus(e, c);
    TurnAsCross(a, c, d);
    CrossesAtMiddle(a, c, d, e);
    if Cross(x, u) > 0 && Cross(w, x) >= 0 {
      LeftTurnsAdd(w, x, u);
    }
  }

  lemma CrossesAtMiddle(a: Point, c: Point, d: Point, e: Point)
    ensures Turn(e, c, a) == Cross(Minus(e, c), Minus(c, a))
    ensures Turn(e, c, d) == -Cross(Minus(e, c), Minus(d, c))
  {
  }

  lemma ChainsShareOnlyEnds(lower: seq<Point>, upper: seq<Point>, points: seq<Point>, i: nat, k: nat)
    requires TwoChains(lower, upper, points) && 0 < i < |lower| - 1 && 0 < k < |upper| - 1
    ensures lower[i] != upper[k]
  {
    var a, c, d, e := lower[i - 1], lower[i], lower[i + 1], upper[k - 1];
    assert Step(lower, true, i - 1) && Step(lower, true, i) && Step(upper, false, k - 1) && Bend(lower, i - 1);
    assert OnLeft(upper, a) && OnLeft(upper, d);
    assert EdgeLeft(upper, k - 1, a) && EdgeLeft(upper, k - 1, d);
    if c == upper[k] {
      NoSharedInterior(a, c, d, e);
    }
  }

  lemma CycleIsDistinct(lower: seq<Point>, upper: seq<Point>, points: seq<Point>)
    requires TwoChains(lower, upper, points)
    ensures NoRepeats(Closed(lower, upper))
  {
    var hull, l := Closed(lower, upper), |lower| - 1;
    forall i, j | 0 <= i < j < |hull| ensures hull[i] != hull[j] {
      if j < l {
        ChainIsOrdered(lower, true, i, j);
      } else if i >= l {
        ChainIsOrdered(upper, false, i - l, j - l);
      } else if i == 0 {
        ChainIsOrdered(upper, false, j - l, |upper| - 1);
      } else if j == l {
        ChainIsOrdered(lower, true, i, l);
      } else {
        ChainsShareOnlyEnds(lower, upper, points, i, j - l);
      }
    }
  }

  /** A chain of more than two points is not on one line. */
  lemma LongChainBends(h: seq<Point>, ascending: bool, points: seq<Point>)
    requires |h| > 2 && Chain(h, ascending) && forall v | v in h :: v in points
    ensures !AllCollinear(points)
  {
    assert Bend(h, 0);
    assert h[0] in points && h[1] in points && h[2] in points;
    assert Turn(h[0], h[1], h[2]) != 0;
  }

  // ----- deduplication and sorting

  lemma PutPoint(entries: seq<(string, Point)>, point: Point)
    requires KeyedBy(entries, PointText)
    ensures KeyedBy(Put(entries, PointText(point), point), PointText)
    ensures forall p :: Holds(Put(entries, PointText(point), point), p) <==> Holds(entries, p) || p == point
  {
    forall a, b | PointText(a) == PointText(b) ensures a == b {
      PointTextInjective(a, b);
    }
    PutKeyed(entries, PointText, point);
  }

  method Remember(seen: OrderedMap<Point>, point: Point)
    requires seen.Valid() && KeyedBy(seen.Entries(), PointText)
    modifies seen
    ensures seen.Valid() && KeyedBy(seen.Entries(), PointText)
    ensures forall p :: Holds(seen.Entries(), p) <==> old(Holds(seen.Entries(), p)) || p == point
  {
    PutPoint(seen.Entries(), point);
    seen.Set(PointText(point), point);
  }

  /** The points without repetitions, in order of first occurrence. */
  method UniquePoints(points: seq<Point>) returns (unique: seq<Point>)
    ensures NoRepeats(unique) && forall p :: p in unique <==> p in points
  {
    var seen := new OrderedMap<Point>();
    for k := 0 to |points|
      invariant seen.Valid() && fresh(seen) && KeyedBy(seen.Entries(), PointText)
      invariant forall p :: Holds(seen.Entries(), p) <==> p in points[..k]
    {
      Remember(seen, points[k]);
      assert points[..k + 1] == points[..k] + [points[k]];
    }
    assert points[..|points|] == points;
    unique := seen.IntoValues();
    KeyedValues(seen.Entries(), unique, PointText);
  }

  lemma SortedPointsAreStrict(unique: seq<Point>)
    requires NoRepeats(unique)
    ensures StrictlyOrdered(Sorting.Sort(unique, NotAfter), true)
    ensures forall p :: p in Sorting.Sort(unique, NotAfter) <==> p in unique
    ensures |Sorting.Sort(unique, NotAfter)| == |unique|
  {
    var sorted := Sorting.Sort(unique, NotAfter);
    Sorting.SortSorts(unique, NotAfter);
    Sorting.SortKeeps(unique, NotAfter);
    Sorting.SameItems(sorted, unique);
    RearrangedHasNoRepeats(unique, sorted);
    forall i, j | 0 <= i < j < |sorted| ensures Ahead(true, sorted[i], sorted[j]) {
      assert NotAfter(sorted[i], sorted[j]);
    }
  }

  method ConvexHullGrid(points: seq<Point>) returns (hull: seq<Point>)
    ensures IsConvexHull(hull, points)
  {
    var unique := UniquePoints(points);
    SortedPointsAreStrict(unique);
    unique := Sorting.Sort(unique, NotAfter);
    if |unique| <= 1 {
      FewPoints(unique, points);
      return unique;
    }
    var lower := BuildChain(unique, true);
    var upper := BuildChain(Reversed(unique), false);
    ChainsOfPoints(unique, lower, upper, points);
    HullOfChains(unique, lower, upper, points);
    hull := lower[..|lower| - 1] + upper[..|upper| - 1];
  }

  lemma FewPoints(unique: seq<Point>, points: seq<Point>)
    requires |unique| <= 1 && forall p :: p in unique <==> p in points
    ensures IsConvexHull(unique, points)
  {
    forall q | q in points ensures q == points[0] {
      assert q in unique && points[0] in unique;
    }
    EqualPointsAreCollinear(points);
    assert unique == [] <==> points == [] by {
      assert points != [] ==> points[0] in unique;
      assert unique != [] ==> unique[0] in points;
    }
  }

  lemma EqualPointsAreCollinear(points: seq<Point>)
    requires forall q | q in points :: q == points[0]
    ensures AllCollinear(points)
  {
  }

  lemma ChainsOfPoints(unique: seq<Point>, lower: seq<Point>, upper: seq<Point>, points: seq<Point>)
    requires |unique| >= 2 && StrictlyOrdered(unique, true) && forall p :: p in unique <==> p in points
    requires Swept(lower, unique, true) && Swept(upper, Reversed(unique), false)
    ensures TwoChains(lower, upper, points)
  {
    assert Ahead(true, unique[0], unique[|unique| - 1]);
    assert forall p :: p in Reversed(unique) <==> p in unique by {
      forall p | p in unique ensures p in Reversed(unique) {
        var i :| 0 <= i < |unique| && unique[i] == p;
        assert Reversed(unique)[|unique| - 1 - i] == p;
      }
    }
  }

  lemma HullOfChains(unique: seq<Point>, lower: seq<Point>, upper: seq<Point>, points: seq<Point>)
    requires |unique| >= 2 && StrictlyOrdered(unique, true) && forall p :: p in unique <==> p in points
    requires TwoChains(lower, upper, points) && lower[0] == unique[0] && upper[0] == unique[|unique| - 1]
    ensures IsConvexHull(Closed(lower, upper), points)
  {
    var hull := Closed(lower, upper);
    CycleIsDistinct(lower, upper, points);
    assert unique[0] in points && unique[|unique| - 1] in points && Ahead(true, unique[0], unique[|unique| - 1]);
    forall q | q in points ensures NotAfter(unique[0], q) && NotAfter(q, unique[|unique| - 1]) {
      var i :| 0 <= i < |unique| && unique[i] == q;
    }
    if AllCollinear(points) {
      if |lower| > 2 {
        LongChainBends(lower, true, points);
      }
      if |upper| > 2 {
        LongChainBends(upper, false, points);
      }
    } else {
      CycleTurnsLeft(lower, upper, points);
      forall q | q in points ensures Encloses(hull, q) {
        CycleEncloses(lower, upper, points, q);
      }
    }
  }
}
