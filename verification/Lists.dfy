/** Lists: mapping, repetition and least coordinates. */
module Lists {

  function Map<A, B>(f: A -> B, items: seq<A>): (mapped: seq<B>)
    ensures |mapped| == |items|
    ensures forall i | 0 <= i < |items| :: mapped[i] == f(items[i])
  {
    seq(|items|, i requires 0 <= i < |items| => f(items[i]))
  }

  function Reversed<T>(items: seq<T>): (reversed: seq<T>)
    ensures |reversed| == |items|
  {
    seq(|items|, i requires 0 <= i < |items| => items[|items| - 1 - i])
  }

  // ----- repetition

  ghost predicate NoRepeats<T>(items: seq<T>) {
    forall i, j | 0 <= i < j < |items| :: items[i] != items[j]
  }

  lemma {:induction false} Once<T>(items: seq<T>, x: T)
    requires NoRepeats(items)
    ensures multiset(items)[x] <= 1
  {
    if items != [] {
      Once(items[1..], x);
      assert items == [items[0]] + items[1..];
      assert items[0] == x ==> x !in items[1..];
    }
  }

  lemma Twice<T>(items: seq<T>, i: nat, j: nat)
    requires i < j < |items| && items[i] == items[j]
    ensures multiset(items)[items[i]] >= 2
  {
    assert items == items[..j] + [items[j]] + items[j + 1..];
    assert items[i] in items[..j];
    assert multiset(items) == multiset(items[..j]) + multiset{items[j]} + multiset(items[j + 1..]);
  }

  /** A rearrangement of a list without repetitions has none. */
  lemma RearrangedHasNoRepeats<T>(a: seq<T>, b: seq<T>)
    requires NoRepeats(a) && multiset(a) == multiset(b)
    ensures NoRepeats(b)
  {
    forall i, j | 0 <= i < j < |b| ensures b[i] != b[j] {
      Once(a, b[i]);
      if b[i] == b[j] {
        Twice(b, i, j);
      }
    }
  }

  lemma SameItemsWithoutRepeats<T>(a: seq<T>, b: seq<T>)
    requires NoRepeats(a) && NoRepeats(b) && forall x :: x in a <==> x in b
    ensures multiset(a) == multiset(b)
  {
    forall x ensures multiset(a)[x] == multiset(b)[x] {
      Once(a, x);
      Once(b, x);
      assert x in a <==> x in multiset(a);
      assert x in b <==> x in multiset(b);
    }
  }

  // ----- least coordinates

  /** The least coordinate of the items; 0 without items. */
  function Lowest<T>(items: seq<T>, coordinate: T -> int): int {
    if items == [] then 0
    else if |items| == 1 then coordinate(items[0])
    else
      var rest := Lowest(items[1..], coordinate);
      if coordinate(items[0]) <= rest then coordinate(items[0]) else rest
  }

  lemma {:induction false} LowestIsLeast<T>(items: seq<T>, coordinate: T -> int)
    requires items != []
    ensures forall q | q in items :: Lowest(items, coordinate) <= coordinate(q)
    ensures exists q :: q in items && Lowest(items, coordinate) == coordinate(q)
  {
    if |items| == 1 {
      assert items[0] in items;
    } else {
      LowestIsLeast(items[1..], coordinate);
      assert items == [items[0]] + items[1..];
      assert items[0] in items;
      var q :| q in items[1..] && Lowest(items[1..], coordinate) == coordinate(q);
      assert q in items;
    }
  }

  lemma SameLowest<T>(a: seq<T>, b: seq<T>, coordinate: T -> int)
    requires (a == [] <==> b == []) && forall q :: q in a <==> q in b
    ensures Lowest(a, coordinate) == Lowest(b, coordinate)
  {
    if a != [] {
      LowestIsLeast(a, coordinate);
      LowestIsLeast(b, coordinate);
    }
  }

  lemma {:induction false} LowestShifted<T(!new)>(items: seq<T>, f: T -> T, coordinate: T -> int, shift: int)
    requires items != [] && forall p :: coordinate(f(p)) == coordinate(p) + shift
    ensures Lowest(Map(f, items), coordinate) == Lowest(items, coordinate) + shift
  {
    if |items| > 1 {
      LowestShifted(items[1..], f, coordinate, shift);
      assert Map(f, items)[1..] == Map(f, items[1..]);
    }
  }
}
