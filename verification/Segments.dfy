/** Exact intersection of two line segments, as the polygon importer decides it from orientations. */
module Segments {

  datatype Point = Point(x: real, y: real)

  datatype Segment = Segment(start: Point, end: Point)

  function Cross(origin: Point, first: Point, second: Point): real {
    (first.x - origin.x) * (second.y - origin.y) - (first.y - origin.y) * (second.x - origin.x)
  }

  function Orientation(origin: Point, first: Point, second: Point): int {
    var cross := Cross(origin, first, second);
    if cross > 0.0 then 1 else if cross < 0.0 then -1 else 0
  }

  function Min(a: real, b: real): real {
    if a <= b then a else b
  }

  function Max(a: real, b: real): real {
    if a <= b then b else a
  }

  predicate PointIsOnSegment(p: Point, s: Segment) {
    && Min(s.start.x, s.end.x) <= p.x <= Max(s.start.x, s.end.x)
    && Min(s.start.y, s.end.y) <= p.y <= Max(s.start.y, s.end.y)
  }

  predicate SegmentsIntersect(first: Segment, second: Segment) {
    var firstStartTurn := Orientation(first.start, first.end, second.start);
    var firstEndTurn := Orientation(first.start, first.end, second.end);
    var secondStartTurn := Orientation(second.start, second.end, first.start);
    var secondEndTurn := Orientation(second.start, second.end, first.end);
    if firstStartTurn == 0 && PointIsOnSegment(second.start, first) then true
    else if firstEndTurn == 0 && PointIsOnSegment(second.end, first) then true
    else if secondStartTurn == 0 && PointIsOnSegment(first.start, second) then true
    else if secondEndTurn == 0 && PointIsOnSegment(first.end, second) then true
    else firstStartTurn != firstEndTurn && secondStartTurn != secondEndTurn
  }

  // ----- what it means to share a point

  function Blend(a: real, b: real, t: real): real {
    a + t * (b - a)
  }

  function At(s: Segment, t: real): Point {
    Point(Blend(s.start.x, s.end.x, t), Blend(s.start.y, s.end.y, t))
  }

  ghost predicate OnSegment(p: Point, s: Segment) {
    exists t: real :: 0.0 <= t <= 1.0 && p == At(s, t)
  }

  ghost predicate Meet(first: Segment, second: Segment) {
    exists p :: OnSegment(p, first) && OnSegment(p, second)
  }

  lemma BlendIsBetween(a: real, b: real, t: real)
    requires 0.0 <= t <= 1.0
    ensures Min(a, b) <= Blend(a, b, t) <= Max(a, b)
  {
    var d := b - a;
    var m := t * d;
    assert Blend(a, b, t) == a + m;
    PartOfDifference(d, t);
    assert d >= 0.0 ==> 0.0 <= m <= d;
    assert d < 0.0 ==> d <= m <= 0.0;
  }

  lemma PartOfDifference(d: real, t: real)
    requires 0.0 <= t <= 1.0
    ensures if d >= 0.0 then 0.0 <= t * d <= d else d <= t * d <= 0.0
  {
  }

  lemma CrossAt(a: Point, b: Point, s: Segment, t: real)
    ensures Cross(a, b, At(s, t)) == Blend(Cross(a, b, s.start), Cross(a, b, s.end), t)
  {
  }

  /** A point of a segment is collinear with it and inside its bounding box. */
  lemma OnSegmentIsInBox(p: Point, s: Segment)
    requires OnSegment(p, s)
    ensures Cross(s.start, s.end, p) == 0.0 && PointIsOnSegment(p, s)
  {
    var t: real :| 0.0 <= t <= 1.0 && p == At(s, t);
    BlendIsBetween(s.start.x, s.end.x, t);
    BlendIsBetween(s.start.y, s.end.y, t);
    CrossAt(s.start, s.end, s, t);
    assert Cross(s.start, s.end, s.start) == 0.0 && Cross(s.start, s.end, s.end) == 0.0;
  }

  /** Conversely such a point is a point of the segment. */
  lemma InBoxIsOnSegment(p: Point, s: Segment)
    requires Cross(s.start, s.end, p) == 0.0 && PointIsOnSegment(p, s)
    ensures OnSegment(p, s)
  {
    if s.start.x != s.end.x {
      var t := InBoxParameter(s.start.x, s.end.x, p.x, s.start.y, s.end.y, p.y);
      assert p == At(s, t);
    } else if s.start.y != s.end.y {
      var t := InBoxParameter(s.start.y, s.end.y, p.y, s.start.x, s.end.x, p.x);
      assert p == At(s, t);
    } else {
      assert p == At(s, 0.0);
    }
  }

  lemma InBoxParameter(a: real, b: real, x: real, c: real, d: real, y: real) returns (t: real)
    requires a != b && Min(a, b) <= x <= Max(a, b) && (b - a) * (y - c) - (d - c) * (x - a) == 0.0
    ensures 0.0 <= t <= 1.0 && x == Blend(a, b, t) && y == Blend(c, d, t)
  {
    t := Parameter(b - a, d - c, x - a, y - c);
    ParameterInRange(a, b, x, t);
  }

  lemma Parameter(dx: real, dy: real, x: real, y: real) returns (t: real)
    requires dx != 0.0 && dx * y - dy * x == 0.0
    ensures x == t * dx && y == t * dy
  {
    t := x / dx;
    assert t * dx == x;
    assert dx * y == dy * (t * dx);
    assert dx * (y - t * dy) == 0.0;
    if y - t * dy != 0.0 {
      NonZeroProduct(dx, y - t * dy);
    }
  }

  lemma NonZeroProduct(a: real, b: real)
    requires a != 0.0 && b != 0.0
    ensures a * b != 0.0
  {
  }

  lemma ParameterInRange(a: real, b: real, x: real, t: real)
    requires a != b && x - a == t * (b - a) && Min(a, b) <= x <= Max(a, b)
    ensures 0.0 <= t <= 1.0
  {
    if a < b {
      PartInRange(b - a, x - a, t);
    } else {
      assert (a - x) == t * (a - b);
      PartInRange(a - b, a - x, t);
    }
  }

  lemma PartInRange(d: real, e: real, t: real)
    requires d > 0.0 && e == t * d && 0.0 <= e <= d
    ensures 0.0 <= t <= 1.0
  {
  }

  // ----- the orientation test is exact

  /** Turns of opposite or mixed sign give the crossing point. */
  lemma StraddlingSegmentsMeet(first: Segment, second: Segment)
    requires Orientation(first.start, first.end, second.start) != Orientation(first.start, first.end, second.end)
    requires Orientation(second.start, second.end, first.start) != Orientation(second.start, second.end, first.end)
    ensures Meet(first, second)
  {
    var a, b, c, d := first.start, first.end, second.start, second.end;
    var o1, o2, o3, o4 := Cross(a, b, c), Cross(a, b, d), Cross(c, d, a), Cross(c, d, b);
    CrossDifferences(a, b, c, d);
    var s := ZeroBetween(o3, o4);
    var t := ZeroBetween(o1, o2);
    CrossingCoordinate(b.x - a.x, b.y - a.y, d.x - c.x, d.y - c.y, c.x - a.x, c.y - a.y, s, t);
    var p := At(first, s);
    assert p == At(second, t);
    assert OnSegment(p, first) && OnSegment(p, second);
  }

  /** Where a linear function with end values of different sign vanishes. */
  lemma ZeroBetween(p: real, q: real) returns (t: real)
    requires p != q && !(p > 0.0 && q > 0.0) && !(p < 0.0 && q < 0.0)
    ensures 0.0 <= t <= 1.0 && t * (p - q) == p
  {
    t := p / (p - q);
    assert t * (p - q) == p;
    if p > q {
      PartInRange(p - q, p, t);
    } else {
      assert t * (q - p) == -p;
      PartInRange(q - p, -p, t);
    }
  }

  lemma CrossDifferences(a: Point, b: Point, c: Point, d: Point)
    ensures var D := (b.x - a.x) * (d.y - c.y) - (b.y - a.y) * (d.x - c.x);
            Cross(a, b, d) - Cross(a, b, c) == D && Cross(c, d, a) - Cross(c, d, b) == D
  {
    var ux, uy, vx, vy := b.x - a.x, b.y - a.y, d.x - c.x, d.y - c.y;
    Distribute(ux, d.y, c.y, a.y);
    Distribute(uy, d.x, c.x, a.x);
    Distribute(vx, a.y, b.y, c.y);
    Distribute(vy, a.x, b.x, c.x);
    assert vx * (a.y - b.y) == -(uy * vx) && vy * (a.x - b.x) == -(ux * vy);
  }

  lemma Distribute(u: real, p: real, q: real, r: real)
    ensures u * (p - r) - u * (q - r) == u * (p - q)
  {
  }

  /** With `s * D = cross(w, v)` and `t * D = cross(w, u)` the lines `s * u` and `w + t * v` meet. */
  lemma CrossingCoordinate(ux: real, uy: real, vx: real, vy: real, wx: real, wy: real, s: real,
    t: real)
    requires ux * vy - uy * vx != 0.0
    requires s * (ux * vy - uy * vx) == wx * vy - wy * vx
    requires t * (uy * vx - ux * vy) == ux * wy - uy * wx
    ensures s * ux == wx + t * vx && s * uy == wy + t * vy
  {
  }

  /** One of the four tests that an endpoint lies on the other segment succeeds. */
  ghost predicate EndpointHit(first: Segment, second: Segment) {
    || (Cross(first.start, first.end, second.start) == 0.0 && PointIsOnSegment(second.start, first))
    || (Cross(first.start, first.end, second.end) == 0.0 && PointIsOnSegment(second.end, first))
    || (Cross(second.start, second.end, first.start) == 0.0 && PointIsOnSegment(first.start, second))
    || (Cross(second.start, second.end, first.end) == 0.0 && PointIsOnSegment(first.end, second))
  }

  lemma ReversedTest(first: Segment, second: Segment)
    ensures EndpointHit(first, second) == EndpointHit(second, first)
    ensures Meet(first, second) == Meet(second, first)
  {
  }

  /** A blend of two values of the same strict sign is not zero. */
  lemma SameSignBlend(p: real, q: real, t: real)
    requires 0.0 <= t <= 1.0 && Blend(p, q, t) == 0.0
    ensures !(p > 0.0 && q > 0.0) && !(p < 0.0 && q < 0.0)
  {
    BlendIsBetween(p, q, t);
  }

  /** A shared point on one line with both endpoints of `second` hits an endpoint. */
  lemma CollinearMeetHits(first: Segment, second: Segment)
    requires Meet(first, second)
    requires Cross(first.start, first.end, second.start) == 0.0 && Cross(first.start, first.end, second.end) == 0.0
    ensures EndpointHit(first, second)
  {
    var a, b, c, d := first.start, first.end, second.start, second.end;
    var p :| OnSegment(p, first) && OnSegment(p, second);
    if a == b {
      OnSegmentIsInBox(p, first);
      assert p == a;
      OnSegmentIsInBox(a, second);
    } else {
      var s: real :| 0.0 <= s <= 1.0 && p == At(first, s);
      var t: real :| 0.0 <= t <= 1.0 && p == At(second, t);
      var g := LineParameter(first, c);
      var h := LineParameter(first, d);
      SharedParameter(first, s, g, h, t);
      if 0.0 <= g <= 1.0 {
        assert OnSegment(c, first);
        OnSegmentIsInBox(c, first);
      } else if 0.0 <= h <= 1.0 {
        assert OnSegment(d, first);
        OnSegmentIsInBox(d, first);
      } else {
        var r := OriginBetween(g, h, s, t);
        OriginOnSecond(first, second, g, h, r);
        assert OnSegment(a, second);
        OnSegmentIsInBox(a, second);
      }
    }
  }

  lemma LineParameter(s: Segment, p: Point) returns (t: real)
    requires s.start != s.end && Cross(s.start, s.end, p) == 0.0
    ensures p == At(s, t)
  {
    var dx, dy := s.end.x - s.start.x, s.end.y - s.start.y;
    if dx != 0.0 {
      t := Parameter(dx, dy, p.x - s.start.x, p.y - s.start.y);
    } else {
      t := Parameter(dy, dx, p.y - s.start.y, p.x - s.start.x);
    }
  }

  lemma SharedParameter(first: Segment, s: real, g: real, h: real, t: real)
    requires first.start != first.end
    requires At(first, s) == At(Segment(At(first, g), At(first, h)), t)
    ensures s == Blend(g, h, t)
  {
  }

  /** With a common parameter in range and both ends out of range, the ends lie on both sides of it. */
  lemma OriginBetween(g: real, h: real, s: real, t: real) returns (r: real)
    requires 0.0 <= s <= 1.0 && 0.0 <= t <= 1.0 && s == Blend(g, h, t)
    requires !(0.0 <= g <= 1.0) && !(0.0 <= h <= 1.0)
    ensures 0.0 <= r <= 1.0 && Blend(g, h, r) == 0.0
  {
    BlendIsBetween(g, h, t);
    r := ZeroBetween(g, h);
    assert r * (h - g) == -(r * (g - h));
  }

  lemma OriginOnSecond(first: Segment, second: Segment, g: real, h: real, r: real)
    requires second == Segment(At(first, g), At(first, h)) && Blend(g, h, r) == 0.0
    ensures first.start == At(second, r)
  {
  }

  /** The orientation test is true exactly when the two segments share a point. */
  lemma SegmentsIntersectIsExact(first: Segment, second: Segment)
    ensures SegmentsIntersect(first, second) <==> Meet(first, second)
  {
    var a, b, c, d := first.start, first.end, second.start, second.end;
    if EndpointHit(first, second) {
      HitIsMeeting(first, second);
    } else if Orientation(a, b, c) != Orientation(a, b, d) && Orientation(c, d, a) != Orientation(c, d, b) {
      StraddlingSegmentsMeet(first, second);
    } else if Meet(first, second) {
      var p :| OnSegment(p, first) && OnSegment(p, second);
      SharedPointSigns(p, first, second);
      SharedPointSigns(p, second, first);
      if Cross(a, b, c) == 0.0 && Cross(a, b, d) == 0.0 {
        CollinearMeetHits(first, second);
      } else {
        ReversedTest(first, second);
        CollinearMeetHits(second, first);
      }
    }
  }

  lemma SharedPointSigns(p: Point, first: Segment, second: Segment)
    requires OnSegment(p, first) && OnSegment(p, second)
    ensures var o1, o2 := Cross(first.start, first.end, second.start), Cross(first.start, first.end, second.end);
            !(o1 > 0.0 && o2 > 0.0) && !(o1 < 0.0 && o2 < 0.0)
  {
    OnSegmentIsInBox(p, first);
    var t: real :| 0.0 <= t <= 1.0 && p == At(second, t);
    CrossAt(first.start, first.end, second, t);
    SameSignBlend(Cross(first.start, first.end, second.start), Cross(first.start, first.end, second.end), t);
  }

  lemma HitIsMeeting(first: Segment, second: Segment)
    requires EndpointHit(first, second)
    ensures Meet(first, second)
  {
    EndsAreOnSegment(first);
    EndsAreOnSegment(second);
    if Cross(first.start, first.end, second.start) == 0.0 && PointIsOnSegment(second.start, first) {
      InBoxIsOnSegment(second.start, first);
    } else if Cross(first.start, first.end, second.end) == 0.0 && PointIsOnSegment(second.end, first) {
      InBoxIsOnSegment(second.end, first);
    } else if Cross(second.start, second.end, first.start) == 0.0 && PointIsOnSegment(first.start, second) {
      InBoxIsOnSegment(first.start, second);
    } else {
      InBoxIsOnSegment(first.end, second);
    }
  }

  lemma EndsAreOnSegment(s: Segment)
    ensures OnSegment(s.start, s) && OnSegment(s.end, s)
  {
    assert At(s, 0.0) == s.start && At(s, 1.0) == s.end;
  }
}
