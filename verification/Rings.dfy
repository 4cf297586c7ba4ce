/** Polygon rings: the importer's checks and what an accepted ring is. */
module Rings {
  import opened Cycles
  import opened Lists
  import opened Segments

  function Edge(ring: seq<Point>, i: nat): Segment
    requires i < |ring|
  {
    Segment(ring[i], ring[Next(|ring|, i)])
  }

  /** Edges `i < j` of a ring of `n` edges that share a vertex. */
  predicate Adjacent(n: nat, i: nat, j: nat) {
    j == i + 1 || (i == 0 && j == n - 1)
  }

  /** Adjacent edges are those that follow one another around the ring. */
  lemma AdjacentEdgesFollow(n: nat, i: nat, j: nat)
    requires i < j < n
    ensures Adjacent(n, i, j) <==> j == Next(n, i) || i == Next(n, j)
  {
  }

  ghost predicate Crosses(ring: seq<Point>, i: nat, j: nat)
    requires i < |ring| && j < |ring|
  {
    i < j && !Adjacent(|ring|, i, j) && SegmentsIntersect(Edge(ring, i), Edge(ring, j))
  }

  ghost predicate SelfIntersecting(ring: seq<Point>) {
    exists i, j :: 0 <= i < |ring| && 0 <= j < |ring| && Crosses(ring, i, j)
  }

  /** The pairs compared for edge `i`, and for the first `count` edges. */
  ghost function RowTests(n: nat, i: nat): nat {
    if i == 0 then (if n >= 3 then n - 3 else 0) else if i + 2 <= n then n - 2 - i else 0
  }

  ghost function Tests(n: nat, count: nat): nat {
    if count == 0 then 0 else Tests(n, count - 1) + RowTests(n, count - 1)
  }

  lemma {:induction false} TestsClosedForm(n: nat, count: nat)
    requires 1 <= count <= n - 1 && n >= 3
    ensures 2 * Tests(n, count) == 2 * (n - 3) + (count - 1) * (2 * n - 4 - count)
  {
    if count > 1 {
      TestsClosedForm(n, count - 1);
      ClosedFormStep(n, count);
      assert RowTests(n, count - 1) == n - 1 - count;
    } else {
      assert Tests(n, 0) == 0;
    }
  }

  lemma ClosedFormStep(n: int, count: int)
    ensures (count - 2) * (2 * n - 3 - count) + 2 * (n - 1 - count) == (count - 1) * (2 * n - 4 - count)
  {
    var a := 2 * n - 4 - count;
    assert (count - 2) * (a + 1) == (count - 2) * a + count - 2;
    assert (count - 1) * a == (count - 2) * a + a;
  }

  lemma AllTests(n: nat)
    requires n >= 3
    ensures 2 * Tests(n, n) == n * (n - 3)
  {
    TestsClosedForm(n, n - 1);
    assert RowTests(n, n - 1) == 0;
    assert 2 * (n - 3) + (n - 2) * (n - 3) == n * (n - 3);
  }

  /** Whether two edges without a common vertex share a point, and how many pairs it takes to find out. */
  method HasSelfIntersection(points: seq<Point>) returns (found: bool, ghost tests: nat)
    ensures found <==> SelfIntersecting(points)
    ensures !found && |points| >= 3 ==> 2 * tests == |points| * (|points| - 3)
  {
    tests := 0;
    var n := |points|;
    for i := 0 to n
      invariant forall k, j | 0 <= k < i && 0 <= j < n :: !Crosses(points, k, j)
      invariant tests == Tests(n, i)
    {
      ghost var before := tests;
      for j := i + 1 to n
        invariant forall k | 0 <= k < j :: !Crosses(points, i, k)
        invariant tests == before + (if j <= i + 2 then 0 else if i == 0 && j == n then n - 3 else j - i - 2)
      {
        if j == i + 1 || (i == 0 && j == n - 1) {
          continue;
        }
        tests := tests + 1;
        if SegmentsIntersect(Edge(points, i), Edge(points, j)) {
          assert Crosses(points, i, j);
          return true, tests;
        }
      }
    }
    if n >= 3 {
      AllTests(n);
    }
    found := false;
  }

  /** The index of the first vertex from `k` on that differs from the first one. */
  function FirstDifferent(points: seq<Point>, k: nat): (r: nat)
    requires 0 < k <= |points|
    ensures k <= r <= |points|
    ensures forall i | k <= i < r :: points[i] == points[0]
    ensures r < |points| ==> points[r] != points[0]
    decreases |points| - k
  {
    if k == |points| || points[k] != points[0] then k else FirstDifferent(points, k + 1)
  }

  predicate ContainsNonCollinearTriple(points: seq<Point>)
    requires points != []
  {
    var second := FirstDifferent(points, 1);
    second < |points|
    && exists i | 1 <= i < |points| :: i != second && Cross(points[0], points[second], points[i]) != 0.0
  }

  ghost predicate AllCollinear(points: seq<Point>) {
    forall i, j, k {:trigger points[i], points[j], points[k]}
      | 0 <= i < |points| && 0 <= j < |points| && 0 <= k < |points| :: Cross(points[i], points[j], points[k]) == 0.0
  }

  /** Three points on the line through two distinct points are collinear. */
  lemma OnCommonLine(a: Point, b: Point, p: Point, q: Point, r: Point)
    requires a != b && Cross(a, b, p) == 0.0 && Cross(a, b, q) == 0.0 && Cross(a, b, r) == 0.0
    ensures Cross(p, q, r) == 0.0
  {
  }

  /** The check looks at one pair of vertices only, but decides collinearity of all of them. */
  lemma NonCollinearTripleIsExact(points: seq<Point>)
    requires points != []
    ensures ContainsNonCollinearTriple(points) <==> !AllCollinear(points)
  {
    var second := FirstDifferent(points, 1);
    if ContainsNonCollinearTriple(points) {
      var i :| 1 <= i < |points| && i != second && Cross(points[0], points[second], points[i]) != 0.0;
      assert 0 <= second < |points| && 0 <= i < |points|;
    } else {
      forall i, j, k | 0 <= i < |points| && 0 <= j < |points| && 0 <= k < |points|
        ensures Cross(points[i], points[j], points[k]) == 0.0
      {
        if second == |points| {
          CrossOfEqual(points[0]);
        } else {
          var a, b := points[0], points[second];
          forall h | 0 <= h < |points| ensures Cross(a, b, points[h]) == 0.0 {
            CrossOfEnds(a, b);
          }
          OnCommonLine(a, b, points[i], points[j], points[k]);
        }
      }
    }
  }

  lemma CrossOfEqual(a: Point)
    ensures Cross(a, a, a) == 0.0
  {
  }

  lemma CrossOfEnds(a: Point, b: Point)
    ensures Cross(a, b, a) == 0.0 && Cross(a, b, b) == 0.0
  {
  }

  // ----- what an accepted ring is

  ghost predicate MeetOnlyAt(first: Segment, second: Segment, p: Point) {
    forall q | OnSegment(q, first) && OnSegment(q, second) :: q == p
  }

  /** Edges `i < j` touch at their common vertex only, or not at all without one. */
  ghost predicate Apart(ring: seq<Point>, i: nat, j: nat)
    requires i < j < |ring|
  {
    if Adjacent(|ring|, i, j) then MeetOnlyAt(Edge(ring, i), Edge(ring, j), ring[if j == i + 1 then j else 0])
    else !Meet(Edge(ring, i), Edge(ring, j))
  }

  ghost predicate Simple(ring: seq<Point>) {
    forall i, j | 0 <= i < j < |ring| :: Apart(ring, i, j)
  }

  lemma ReversedSegment(p: Point, s: Segment)
    requires OnSegment(p, s)
    ensures OnSegment(p, Segment(s.end, s.start))
  {
    var t: real :| 0.0 <= t <= 1.0 && p == At(s, t);
    ReversedBlend(s.start.x, s.end.x, t);
    ReversedBlend(s.start.y, s.end.y, t);
    assert p == At(Segment(s.end, s.start), 1.0 - t);
  }

  lemma ReversedBlend(a: real, b: real, t: real)
    ensures Blend(a, b, t) == Blend(b, a, 1.0 - t)
  {
  }

  lemma ScaledBack(b: real, a: real, c: real, s: real, t: real)
    requires 0.0 < s && 0.0 < t && Blend(b, a, s) == Blend(b, c, t)
    ensures c == Blend(b, a, s / t)
  {
  }

  lemma RatioInRange(s: real, t: real)
    requires 0.0 < s <= t
    ensures 0.0 <= s / t <= 1.0
  {
  }

  lemma CommonRay(a: Point, b: Point, c: Point, s: real, t: real)
    requires 0.0 < s <= t && At(Segment(b, a), s) == At(Segment(b, c), t)
    ensures OnSegment(c, Segment(b, a))
  {
    ScaledBack(b.x, a.x, c.x, s, t);
    ScaledBack(b.y, a.y, c.y, s, t);
    RatioInRange(s, t);
    assert c == At(Segment(b, a), s / t);
  }

  /** Two edges at `b` that share more than `b` are a spike: one of them covers the other. */
  lemma SharedRayIsSpike(a: Point, b: Point, c: Point, p: Point)
    requires p != b && OnSegment(p, Segment(a, b)) && OnSegment(p, Segment(b, c))
    ensures OnSegment(c, Segment(a, b)) || OnSegment(a, Segment(b, c))
    ensures Cross(a, b, c) == 0.0
  {
    ReversedSegment(p, Segment(a, b));
    var s: real :| 0.0 <= s <= 1.0 && p == At(Segment(b, a), s);
    var t: real :| 0.0 <= t <= 1.0 && p == At(Segment(b, c), t);
    assert s != 0.0 && t != 0.0;
    if s <= t {
      CommonRay(a, b, c, s, t);
      ReversedSegment(c, Segment(b, a));
      OnSegmentIsInBox(c, Segment(a, b));
    } else {
      CommonRay(c, b, a, t, s);
      OnSegmentIsInBox(a, Segment(b, c));
      RotatedCross(a, b, c);
    }
  }

  lemma RotatedCross(a: Point, b: Point, c: Point)
    ensures Cross(a, b, c) == Cross(b, c, a)
  {
  }

  /** Edges without a common vertex do not meet, whichever comes first. */
  lemma UncrossedEdgesAreApart(ring: seq<Point>, i: nat, j: nat)
    requires i < |ring| && j < |ring| && i != j && j != Next(|ring|, i) && i != Next(|ring|, j)
    requires !SelfIntersecting(ring)
    ensures !Meet(Edge(ring, i), Edge(ring, j))
  {
    if i < j {
      assert !Crosses(ring, i, j);
      SegmentsIntersectIsExact(Edge(ring, i), Edge(ring, j));
    } else {
      assert !Crosses(ring, j, i);
      SegmentsIntersectIsExact(Edge(ring, j), Edge(ring, i));
    }
  }

  lemma Touching(p: Point, s: Segment, t: Segment)
    requires OnSegment(p, s) && (p == t.start || p == t.end)
    ensures Meet(s, t) && Meet(t, s)
  {
    EndsAreOnSegment(t);
  }

  function Previous(n: nat, i: nat): (j: nat)
    requires i < n
    ensures j < n && Next(n, j) == i
  {
    if i == 0 then n - 1 else i - 1
  }

  /** Consecutive edges of an accepted ring meet in their common vertex only; a spike runs into a further edge. */
  lemma ConsecutiveEdges(ring: seq<Point>, i: nat)
    requires |ring| >= 3 && i < |ring| && !AllCollinear(ring) && !SelfIntersecting(ring)
    ensures MeetOnlyAt(Edge(ring, i), Edge(ring, Next(|ring|, i)), ring[Next(|ring|, i)])
  {
    var n := |ring|;
    var j := Next(n, i);
    var k := Next(n, j);
    var a, b, c := ring[i], ring[j], ring[k];
    forall p | OnSegment(p, Edge(ring, i)) && OnSegment(p, Edge(ring, j))
      ensures p == b
    {
      if p != b {
        SharedRayIsSpike(a, b, c, p);
        if n == 3 {
          TriangleIsCollinear(ring, i);
        } else {
          var h := Previous(n, i);
          if OnSegment(c, Edge(ring, i)) {
            Touching(c, Edge(ring, i), Edge(ring, k));
            UncrossedEdgesAreApart(ring, i, k);
          } else {
            Touching(a, Edge(ring, j), Edge(ring, h));
            UncrossedEdgesAreApart(ring, j, h);
          }
        }
      }
    }
  }

  lemma TriangleIsCollinear(ring: seq<Point>, i: nat)
    requires |ring| == 3 && i < 3
    requires Cross(ring[i], ring[Next(3, i)], ring[Next(3, Next(3, i))]) == 0.0
    ensures AllCollinear(ring)
  {
    RotatedCross(ring[0], ring[1], ring[2]);
    RotatedCross(ring[1], ring[2], ring[0]);
    forall x, y, z | 0 <= x < 3 && 0 <= y < 3 && 0 <= z < 3 ensures Cross(ring[x], ring[y], ring[z]) == 0.0 {
      SwappedCross(ring[x], ring[y], ring[z]);
      SwappedCross(ring[x], ring[z], ring[y]);
      SwappedCross(ring[0], ring[1], ring[2]);
      SwappedCross(ring[1], ring[2], ring[0]);
      SwappedCross(ring[2], ring[0], ring[1]);
      CrossOfEnds(ring[x], ring[y]);
    }
  }

  lemma SwappedCross(a: Point, b: Point, c: Point)
    ensures Cross(a, b, c) == -Cross(a, c, b) && Cross(a, a, c) == 0.0
  {
  }

  // ----- the converse

  /** The order of the ring vertices: by x, then by y. */
  predicate Below(a: Point, b: Point) {
    a.x < b.x || (a.x == b.x && a.y < b.y)
  }

  lemma {:induction false} GreatestVertex(ring: seq<Point>, count: nat) returns (m: nat)
    requires NoRepeats(ring) && 0 < count <= |ring|
    ensures m < count && forall i | 0 <= i < count && i != m :: Below(ring[i], ring[m])
  {
    if count == 1 {
      m := 0;
    } else {
      m := GreatestVertex(ring, count - 1);
      if Below(ring[m], ring[count - 1]) {
        m := count - 1;
      }
    }
  }

  /** The edges at a vertex past both of its neighbours on one line share more than that vertex. */
  lemma TurnAtExtremeIsSpike(a: Point, b: Point, c: Point)
    requires Below(a, b) && Below(c, b) && Cross(b, a, c) == 0.0
    ensures OnSegment(c, Segment(a, b)) || OnSegment(a, Segment(b, c))
  {
    var t := LineParameter(Segment(b, a), c);
    if a.x < b.x {
      PositiveParameter(a.x - b.x, t, c.x - b.x);
    } else {
      PositiveParameter(a.y - b.y, t, c.y - b.y);
    }
    EndsAreOnSegment(Segment(b, a));
    assert At(Segment(b, c), 1.0) == c;
    assert At(Segment(b, a), 1.0) == a;
    if t <= 1.0 {
      assert OnSegment(c, Segment(b, a));
      ReversedSegment(c, Segment(b, a));
    } else {
      CommonRay(c, b, a, 1.0, t);
    }
  }

  lemma PositiveParameter(d: real, t: real, e: real)
    requires d < 0.0 && e == t * d && (e < 0.0 || (e == 0.0 && t != 0.0))
    ensures t > 0.0
  {
  }

  lemma SimpleIsNotCollinear(ring: seq<Point>)
    requires |ring| >= 3 && NoRepeats(ring) && Simple(ring)
    ensures !AllCollinear(ring)
  {
    var n := |ring|;
    var m := GreatestVertex(ring, n);
    var h, k := Previous(n, m), Next(n, m);
    var a, b, c := ring[h], ring[m], ring[k];
    assert if h < m then Apart(ring, h, m) else Apart(ring, m, h);
    EndsAreOnSegment(Edge(ring, h));
    EndsAreOnSegment(Edge(ring, m));
    if Cross(b, a, c) == 0.0 {
      TurnAtExtremeIsSpike(a, b, c);
    }
  }

  /** The two checks accept a ring of distinct vertices exactly when it is simple. */
  lemma AcceptedRingsAreSimple(ring: seq<Point>)
    requires |ring| >= 3 && NoRepeats(ring)
    ensures ContainsNonCollinearTriple(ring) && !SelfIntersecting(ring) <==> Simple(ring)
  {
    NonCollinearTripleIsExact(ring);
    if !AllCollinear(ring) && !SelfIntersecting(ring) {
      forall i, j | 0 <= i < j < |ring| ensures Apart(ring, i, j) {
        if j == i + 1 {
          ConsecutiveEdges(ring, i);
        } else if i == 0 && j == |ring| - 1 {
          ConsecutiveEdges(ring, j);
        } else {
          UncrossedEdgesAreApart(ring, i, j);
        }
      }
    }
    if Simple(ring) {
      SimpleIsNotCollinear(ring);
      forall i, j | 0 <= i < |ring| && 0 <= j < |ring| ensures !Crosses(ring, i, j) {
        if i < j && !Adjacent(|ring|, i, j) {
          assert Apart(ring, i, j);
          SegmentsIntersectIsExact(Edge(ring, i), Edge(ring, j));
        }
      }
    }
  }
}
