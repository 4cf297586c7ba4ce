/** Rotations and reversals of cyclic lists, such as the vertices of a ring. */
module Cycles {
  import opened Lists

  /** The index after `i` in a cycle of `n`. */
  function Next(n: nat, i: nat): (j: nat)
    requires i < n
    ensures j < n
  {
    if i + 1 == n then 0 else i + 1
  }

  /** An index in `0..2n` taken modulo `n`. */
  function Wrap(n: nat, i: nat): (j: nat)
    requires i < 2 * n
    ensures j < n
  {
    if i < n then i else i - n
  }

  /** Where item `k` of the variant stands in the cycle. */
  function Place(n: nat, start: nat, forward: bool, k: nat): (r: nat)
    requires start < n && k < n
    ensures r < n
  {
    Wrap(n, if forward then start + k else start + n - k)
  }

  /** The cycle read from `start`, forwards or backwards. */
  function Variant<T>(cycle: seq<T>, start: nat, forward: bool): (variant: seq<T>)
    requires start < |cycle|
    ensures |variant| == |cycle| && variant[0] == cycle[start]
  {
    seq(|cycle|, k requires 0 <= k < |cycle| => cycle[Place(|cycle|, start, forward, k)])
  }

  /** Forwards a variant is a rotation, backwards the reverse of one that ends where the variant starts. */
  lemma {:induction false} VariantsAreRotations<T>(cycle: seq<T>, start: nat)
    requires start < |cycle|
    ensures Variant(cycle, start, true) == cycle[start..] + cycle[..start]
    ensures Variant(cycle, start, false) == Reversed(cycle[start + 1..] + cycle[..start + 1])
  {
  }

  ghost predicate IsVariant<T>(variant: seq<T>, cycle: seq<T>) {
    exists start, forward :: 0 <= start < |cycle| && variant == Variant(cycle, start, forward)
  }

  lemma VariantOfVariant<T>(cycle: seq<T>, start: nat, forward: bool, next: nat, ahead: bool)
    requires start < |cycle| && next < |cycle|
    ensures Variant(Variant(cycle, start, forward), next, ahead)
         == Variant(cycle, Place(|cycle|, start, forward, next), forward == ahead)
  {
  }

  /** Every variant of a cycle is reached from each of its variants. */
  lemma VariantFromVariant<T>(cycle: seq<T>, start: nat, forward: bool, target: nat, ahead: bool)
    returns (next: nat)
    requires start < |cycle| && target < |cycle|
    ensures next < |cycle|
    ensures Variant(cycle, target, ahead) == Variant(Variant(cycle, start, forward), next, forward == ahead)
  {
    var n := |cycle|;
    next := Wrap(n, if forward then target + n - start else start + n - target);
    assert Place(n, start, forward, next) == target;
    VariantOfVariant(cycle, start, forward, next, forward == ahead);
  }

  lemma WholeVariant<T>(cycle: seq<T>)
    requires cycle != []
    ensures Variant(cycle, 0, true) == cycle
  {
  }
}
