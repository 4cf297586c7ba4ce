/**
 The canonical form of a ring: the least vertex first and the lexicographically smaller of the two
 directions. For distinct vertices that is the least of all rotations and reversals.
 */
module RingOrder {
  import opened Lists
  import opened Segments
  import opened Rings
  import opened Cycles

  /** -1, 0 or 1 as the first differing vertex decides. */
  function CompareRings(left: seq<Point>, right: seq<Point>): int {
    if left == [] || right == [] then 0
    else if left[0] == right[0] then CompareRings(left[1..], right[1..])
    else if Below(left[0], right[0]) then -1 else 1
  }

  /** The lexicographically least of all `2n` rotations and reversals. */
  ghost predicate IsLeastVariant(least: seq<Point>, ring: seq<Point>) {
    && IsVariant(least, ring)
    && forall start, forward | 0 <= start < |ring| :: CompareRings(least, Variant(ring, start, forward)) <= 0
  }

  // ----- the code

  /** The first index of the least vertex among the first `count`. */
  function LeastIndex(points: seq<Point>, count: nat): (m: nat)
    requires 0 < count <= |points|
    ensures m < count
    ensures forall i | 0 <= i < count && points[i] != points[m] :: Below(points[m], points[i])
  {
    if count == 1 then 0
    else
      var m := LeastIndex(points, count - 1);
      if Below(points[count - 1], points[m]) then count - 1 else m
  }

  function Canonical(ring: seq<Point>): seq<Point>
    requires ring != []
  {
    var start := LeastIndex(ring, |ring|);
    var forward, reverse := Variant(ring, start, true), Variant(ring, start, false);
    if CompareRings(forward, reverse) > 0 then reverse else forward
  }

  method CanonicalizeRing(points: array<Point>)
    requires points.Length > 0
    modifies points
    ensures points[..] == Canonical(old(points[..]))
    ensures NoRepeats(old(points[..])) ==> IsLeastVariant(points[..], old(points[..]))
  {
    ghost var ring := points[..];
    var n := points.Length;
    var start := 0;
    for i := 1 to n
      invariant start < i
      invariant start == LeastIndex(ring, i)
    {
      if Below(points[i], points[start]) {
        start := i;
      }
    }
    var forward, reverse := [], [];
    for offset := 0 to n
      invariant |forward| == |reverse| == offset
      invariant forall k | 0 <= k < offset :: forward[k] == ring[Wrap(n, start + k)]
      invariant forall k | 0 <= k < offset :: reverse[k] == ring[Wrap(n, start + n - k)]
    {
      forward := forward + [points[Wrap(n, start + offset)]];
      reverse := reverse + [points[Wrap(n, start + n - offset)]];
    }
    assert forward == Variant(ring, start, true);
    assert reverse == Variant(ring, start, false);
    var chosen := if CompareRings(forward, reverse) > 0 then reverse else forward;
    forall i | 0 <= i < n {
      points[i] := chosen[i];
    }
    assert points[..] == chosen;
    if NoRepeats(ring) {
      CanonicalIsLeast(ring);
    }
  }

  // ----- least of all rotations and reversals

  lemma {:induction false} CompareIsAntisymmetric(left: seq<Point>, right: seq<Point>)
    ensures CompareRings(left, right) == -CompareRings(right, left)
  {
    if left != [] && right != [] && left[0] == right[0] {
      CompareIsAntisymmetric(left[1..], right[1..]);
    }
  }

  lemma {:induction false} EqualRings(left: seq<Point>, right: seq<Point>)
    requires |left| == |right| && CompareRings(left, right) == 0
    ensures left == right
  {
    if left != [] {
      EqualRings(left[1..], right[1..]);
      assert left == [left[0]] + left[1..] && right == [right[0]] + right[1..];
    }
  }

  lemma {:induction false} CompareIsReflexive(ring: seq<Point>)
    ensures CompareRings(ring, ring) == 0
  {
    if ring != [] {
      CompareIsReflexive(ring[1..]);
    }
  }

  /** Two comparisons at the least vertex replace the search through all variants. */
  lemma CanonicalIsLeast(ring: seq<Point>)
    requires ring != [] && NoRepeats(ring)
    ensures IsLeastVariant(Canonical(ring), ring)
  {
    var least := LeastIndex(ring, |ring|);
    var ahead, back := Variant(ring, least, true), Variant(ring, least, false);
    CompareIsAntisymmetric(ahead, back);
    CompareIsReflexive(ahead);
    CompareIsReflexive(back);
    forall start, forward | 0 <= start < |ring|
      ensures CompareRings(Canonical(ring), Variant(ring, start, forward)) <= 0
    {
      if start != least {
        assert ring[least] != ring[start];
        assert Canonical(ring)[0] == ring[least] && Variant(ring, start, forward)[0] == ring[start];
      }
    }
  }

  lemma LeastIsUnique(a: seq<Point>, b: seq<Point>, ring: seq<Point>)
    requires IsLeastVariant(a, ring) && IsLeastVariant(b, ring)
    ensures a == b
  {
    CompareIsAntisymmetric(a, b);
    EqualRings(a, b);
  }

  /** The canonical ring starts at its leftmost vertex, of those the lowest. */
  lemma CanonicalStartsLowestLeft(ring: seq<Point>, k: nat)
    requires k < |ring|
    ensures Canonical(ring) != []
    ensures var first := Canonical(ring)[0];
            && first in ring && first.x <= ring[k].x && (first.x == ring[k].x ==> first.y <= ring[k].y)
  {
    assert ring[k] != ring[LeastIndex(ring, |ring|)] ==> Below(ring[LeastIndex(ring, |ring|)], ring[k]);
  }

  /** Rings are compared at the first vertex in which they differ, by x before y. */
  lemma {:induction false} FirstDifferenceDecides(common: seq<Point>, p: Point, left: seq<Point>, q: Point,
    right: seq<Point>)
    requires p != q
    ensures CompareRings(common + [p] + left, common + [q] + right) < 0 <==> p.x < q.x || (p.x == q.x && p.y < q.y)
  {
    var a, b := common + [p] + left, common + [q] + right;
    if common != [] {
      FirstDifferenceDecides(common[1..], p, left, q, right);
      assert a[1..] == common[1..] + [p] + left && b[1..] == common[1..] + [q] + right;
    }
  }

  // ----- the same result for every rotation and reversal

  lemma VariantIsDistinct(ring: seq<Point>, start: nat, forward: bool)
    requires start < |ring| && NoRepeats(ring)
    ensures NoRepeats(Variant(ring, start, forward))
  {
  }

  lemma LeastOfVariant(least: seq<Point>, ring: seq<Point>, start: nat, forward: bool)
    requires start < |ring| && IsLeastVariant(least, Variant(ring, start, forward))
    ensures IsLeastVariant(least, ring)
  {
    var variant := Variant(ring, start, forward);
    var next, ahead :| 0 <= next < |variant| && least == Variant(variant, next, ahead);
    VariantOfVariant(ring, start, forward, next, ahead);
    forall target, direction | 0 <= target < |ring|
      ensures CompareRings(least, Variant(ring, target, direction)) <= 0
    {
      var back := VariantFromVariant(ring, start, forward, target, direction);
      assert CompareRings(least, Variant(variant, back, forward == direction)) <= 0;
    }
  }

  /** Every rotation and reversal of a ring has the same canonical form, the canonical form included. */
  lemma CanonicalIsInvariant(ring: seq<Point>, variant: seq<Point>)
    requires ring != [] && NoRepeats(ring) && IsVariant(variant, ring)
    ensures NoRepeats(variant) && Canonical(variant) == Canonical(ring)
  {
    var start, forward :| 0 <= start < |ring| && variant == Variant(ring, start, forward);
    VariantIsDistinct(ring, start, forward);
    CanonicalIsLeast(ring);
    CanonicalIsLeast(variant);
    LeastOfVariant(Canonical(variant), ring, start, forward);
    LeastIsUnique(Canonical(variant), Canonical(ring), ring);
  }

  lemma CanonicalIsIdempotent(ring: seq<Point>)
    requires ring != [] && NoRepeats(ring)
    ensures Canonical(Canonical(ring)) == Canonical(ring) && NoRepeats(Canonical(ring))
  {
    CanonicalIsLeast(ring);
    CanonicalIsInvariant(ring, Canonical(ring));
  }
}
