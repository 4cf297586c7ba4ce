/** Lists with the same items, as index permutations. */
module Permutations {
  import opened Lists
  import opened Sets
  import opened Sorting

  ghost predicate IsPermutation(p: seq<nat>, n: nat) {
    && |p| == n
    && (forall i | 0 <= i < n :: p[i] < n)
    && (forall i, j | 0 <= i < j < n :: p[i] != p[j])
  }

  function Without<T>(items: seq<T>, k: nat): (rest: seq<T>)
    requires k < |items|
    ensures |rest| == |items| - 1
  {
    items[..k] + items[k + 1..]
  }

  lemma WithoutItems<T>(items: seq<T>, k: nat)
    requires k < |items|
    ensures multiset(items) == multiset{items[k]} + multiset(Without(items, k))
  {
    assert items == items[..k] + [items[k]] + items[k + 1..];
  }

  /** Lists with the same items are rearrangements of each other. */
  lemma {:induction false} SameItemsArePermuted<T>(a: seq<T>, b: seq<T>) returns (p: seq<nat>)
    requires multiset(a) == multiset(b)
    ensures |a| == |b| && IsPermutation(p, |a|)
    ensures forall i | 0 <= i < |b| :: b[i] == a[p[i]]
    decreases |b|
  {
    assert |a| == |multiset(a)| == |multiset(b)| == |b|;
    if b == [] {
      p := [];
    } else {
      var k := FindFirst(a, b);
      var rest := Without(a, k);
      var q := SameItemsArePermuted(rest, b[1..]);
      p := Inserted(rest, b[1..], q, k);
      forall i | 0 < i < |b| ensures b[i] == a[p[i]] {
        assert b[i] == b[1..][i - 1] == rest[q[i - 1]];
        assert p[i - 1 + 1] == if q[i - 1] < k then q[i - 1] else q[i - 1] + 1;
      }
    }
  }

  lemma FindFirst<T>(a: seq<T>, b: seq<T>) returns (k: nat)
    requires b != [] && multiset(a) == multiset(b)
    ensures k < |a| && a[k] == b[0] && multiset(Without(a, k)) == multiset(b[1..])
  {
    assert b[0] in multiset(a);
    k :| k < |a| && a[k] == b[0];
    WithoutItems(a, k);
    WithoutItems(b, 0);
    assert Without(b, 0) == b[1..];
    CancelItem(multiset(Without(a, k)), multiset(b[1..]), b[0]);
  }

  lemma Inserted<T>(rest: seq<T>, b: seq<T>, q: seq<nat>, k: nat) returns (p: seq<nat>)
    requires |rest| == |b| && IsPermutation(q, |rest|) && k <= |rest|
    ensures IsPermutation(p, |rest| + 1) && p[0] == k
    ensures forall i | 0 <= i < |q| :: p[i + 1] == if q[i] < k then q[i] else q[i] + 1
  {
    p := [k] + seq(|q|, i requires 0 <= i < |q| => if q[i] < k then q[i] else q[i] + 1);
  }

  /** A rearrangement keeps the items. */
  lemma {:induction false} PermutedHaveSameItems<T>(a: seq<T>, b: seq<T>, p: seq<nat>)
    requires |a| == |b| && IsPermutation(p, |a|)
    requires forall i | 0 <= i < |b| :: b[i] == a[p[i]]
    ensures multiset(a) == multiset(b)
    decreases |b|
  {
    if b != [] {
      var k := p[0];
      var rest := Without(a, k);
      var q := seq(|p| - 1, i requires 0 <= i < |p| - 1 => if p[i + 1] < k then p[i + 1] else p[i + 1] - 1);
      forall i | 0 <= i < |q| ensures q[i] < |rest| && b[1..][i] == rest[q[i]] {
        assert p[0] != p[i + 1];
      }
      forall i, j | 0 <= i < j < |q| ensures q[i] != q[j] {
        assert p[0] != p[i + 1] && p[0] != p[j + 1] && p[i + 1] != p[j + 1];
      }
      PermutedHaveSameItems(rest, b[1..], q);
      WithoutItems(a, k);
      WithoutItems(b, 0);
      assert Without(b, 0) == b[1..];
    }
  }

  lemma MappedItems<A, B>(f: A -> B, a: seq<A>, b: seq<A>)
    requires multiset(a) == multiset(b)
    ensures multiset(Map(f, a)) == multiset(Map(f, b))
  {
    var p := SameItemsArePermuted(a, b);
    PermutedHaveSameItems(Map(f, a), Map(f, b), p);
  }

  ghost function ItemSet(p: seq<nat>): set<int> {
    set i | 0 <= i < |p| :: p[i] as int
  }

  lemma {:induction false} ItemSetSize(p: seq<nat>, n: nat)
    requires (forall i | 0 <= i < |p| :: p[i] < n) && forall i, j | 0 <= i < j < |p| :: p[i] != p[j]
    ensures |ItemSet(p)| == |p| && ItemSet(p) <= Range(0, n)
  {
    if p == [] {
      assert ItemSet(p) == {};
    } else {
      var init, last := p[..|p| - 1], p[|p| - 1];
      ItemSetSize(init, n);
      assert ItemSet(p) == ItemSet(init) + {last as int};
      assert last as int !in ItemSet(init);
    }
  }

  /** Every index occurs in a permutation. */
  lemma PermutationCovers(p: seq<nat>, n: nat, i: nat) returns (k: nat)
    requires IsPermutation(p, n) && i < n
    ensures k < n && p[k] == i
  {
    ItemSetSize(p, n);
    RangeSize(0, n);
    FullSubset(ItemSet(p), Range(0, n));
    assert i as int in Range(0, n);
    k :| 0 <= k < |p| && p[k] == i;
  }
}
