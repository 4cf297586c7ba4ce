/** A stable insertion sort, standing for the stable slice sort that the engine calls with a comparator. */
module Sorting {

  ghost predicate TotalOn<T(!new)>(items: seq<T>, le: (T, T) -> bool) {
    forall x, y | x in items && y in items :: le(x, y) || le(y, x)
  }

  ghost predicate TransitiveOn<T(!new)>(items: seq<T>, le: (T, T) -> bool) {
    forall x, y, z | x in items && y in items && z in items && le(x, y) && le(y, z) :: le(x, z)
  }

  ghost predicate SortedBy<T>(items: seq<T>, le: (T, T) -> bool) {
    forall i, j | 0 <= i < j < |items| :: le(items[i], items[j])
  }

  /** Puts `x` in front of the first item that it does not come after. */
  function Insert<T>(x: T, items: seq<T>, le: (T, T) -> bool): seq<T> {
    if items == [] || le(x, items[0]) then [x] + items
    else [items[0]] + Insert(x, items[1..], le)
  }

  function Sort<T>(items: seq<T>, le: (T, T) -> bool): seq<T> {
    if items == [] then [] else Insert(items[0], Sort(items[1..], le), le)
  }

  lemma {:induction false} InsertKeeps<T>(x: T, items: seq<T>, le: (T, T) -> bool)
    ensures multiset(Insert(x, items, le)) == multiset([x] + items)
    ensures |Insert(x, items, le)| == |items| + 1
  {
    if items != [] && !le(x, items[0]) {
      InsertKeeps(x, items[1..], le);
      assert items == [items[0]] + items[1..];
      assert multiset(Insert(x, items, le)) == multiset{items[0]} + multiset([x] + items[1..]);
    }
  }

  lemma {:induction false} SortKeeps<T>(items: seq<T>, le: (T, T) -> bool)
    ensures multiset(Sort(items, le)) == multiset(items)
    ensures |Sort(items, le)| == |items|
  {
    if items != [] {
      SortKeeps(items[1..], le);
      InsertKeeps(items[0], Sort(items[1..], le), le);
      assert items == [items[0]] + items[1..];
      assert multiset([items[0]] + Sort(items[1..], le)) == multiset{items[0]} + multiset(Sort(items[1..], le));
    }
  }

  lemma SameItems<T>(a: seq<T>, b: seq<T>)
    requires multiset(a) == multiset(b)
    ensures forall x :: x in a <==> x in b
  {
    forall x ensures x in a <==> x in b {
      assert x in a <==> x in multiset(a);
    }
  }

  lemma {:induction false} InsertSorts<T(!new)>(x: T, items: seq<T>, le: (T, T) -> bool)
    requires SortedBy(items, le)
    requires TotalOn([x] + items, le) && TransitiveOn([x] + items, le)
    ensures SortedBy(Insert(x, items, le), le)
  {
    var all := [x] + items;
    if items == [] {
    } else if le(x, items[0]) {
      forall i | 0 <= i < |items| ensures le(x, items[i]) {
        assert items[0] in all && items[i] in all && x in all;
      }
    } else {
      var rest := [x] + items[1..];
      assert forall y | y in rest :: y in all;
      InsertSorts(x, items[1..], le);
      InsertKeeps(x, items[1..], le);
      SameItems(Insert(x, items[1..], le), rest);
      assert x in all && items[0] in all;
      assert le(items[0], x);
      forall y | y in Insert(x, items[1..], le) ensures le(items[0], y) {
        assert y in rest;
      }
    }
  }

  lemma {:induction false} SortSorts<T(!new)>(items: seq<T>, le: (T, T) -> bool)
    requires TotalOn(items, le) && TransitiveOn(items, le)
    ensures SortedBy(Sort(items, le), le)
  {
    if items != [] {
      assert forall y | y in items[1..] :: y in items;
      SortSorts(items[1..], le);
      SortKeeps(items[1..], le);
      SameItems(Sort(items[1..], le), items[1..]);
      var all := [items[0]] + Sort(items[1..], le);
      assert forall y | y in all :: y in items;
      InsertSorts(items[0], Sort(items[1..], le), le);
    }
  }

  /** The items that rank like `c`, in order. */
  function Ties<T>(items: seq<T>, le: (T, T) -> bool, c: T): seq<T> {
    if items == [] then []
    else (if le(items[0], c) && le(c, items[0]) then [items[0]] else []) + Ties(items[1..], le, c)
  }

  lemma {:induction false} InsertIsStable<T(!new)>(x: T, items: seq<T>, le: (T, T) -> bool, c: T)
    requires TransitiveOn([c, x] + items, le)
    ensures Ties(Insert(x, items, le), le, c) == Ties([x] + items, le, c)
  {
    if items != [] && !le(x, items[0]) {
      var all, rest := [c, x] + items, [c, x] + items[1..];
      assert forall y | y in rest :: y in all;
      InsertIsStable(x, items[1..], le, c);
      assert c in all && x in all && items[0] in all;
      assert !(le(x, c) && le(c, items[0]));
      assert ([x] + items)[1..] == items && ([x] + items[1..])[1..] == items[1..];
      assert Insert(x, items, le)[1..] == Insert(x, items[1..], le);
    }
  }

  /** Sorting keeps the order of items that rank alike. */
  lemma {:induction false} SortIsStable<T(!new)>(items: seq<T>, le: (T, T) -> bool, c: T)
    requires TransitiveOn([c] + items, le)
    ensures Ties(Sort(items, le), le, c) == Ties(items, le, c)
  {
    if items != [] {
      var all, rest := [c] + items, Sort(items[1..], le);
      assert forall y | y in [c] + items[1..] :: y in all;
      SortIsStable(items[1..], le, c);
      SortKeeps(items[1..], le);
      SameItems(rest, items[1..]);
      assert forall y | y in [c, items[0]] + rest :: y in all;
      InsertIsStable(items[0], rest, le, c);
      assert ([items[0]] + rest)[1..] == rest;
    }
  }

  ghost predicate AntisymmetricOn<T(!new)>(items: seq<T>, le: (T, T) -> bool) {
    forall x, y | x in items && y in items && le(x, y) && le(y, x) :: x == y
  }

  /** Sorted lists of the same items are the same list. */
  lemma {:induction false} SortedIsUnique<T(!new)>(a: seq<T>, b: seq<T>, le: (T, T) -> bool)
    requires SortedBy(a, le) && SortedBy(b, le) && AntisymmetricOn(a, le)
    requires multiset(a) == multiset(b)
    ensures a == b
  {
    assert |a| == |multiset(a)| == |multiset(b)| == |b|;
    if a != [] {
      FirstOfSorted(a, b, le);
      assert a == [a[0]] + a[1..] && b == [b[0]] + b[1..];
      CancelItem(multiset(a[1..]), multiset(b[1..]), a[0]);
      assert forall x | x in a[1..] :: x in a;
      SortedIsUnique(a[1..], b[1..], le);
    }
  }

  lemma FirstOfSorted<T(!new)>(a: seq<T>, b: seq<T>, le: (T, T) -> bool)
    requires a != [] && b != [] && SortedBy(a, le) && SortedBy(b, le) && AntisymmetricOn(a, le)
    requires multiset(a) == multiset(b)
    ensures a[0] == b[0]
  {
    SameItems(a, b);
    assert b[0] in a && a[0] in b;
    var i :| 0 <= i < |a| && a[i] == b[0];
    var j :| 0 <= j < |b| && b[j] == a[0];
  }

  lemma CancelItem<T>(x: multiset<T>, y: multiset<T>, e: T)
    requires multiset{e} + x == multiset{e} + y
    ensures x == y
  {
    forall k ensures x[k] == y[k] {
      assert (multiset{e} + x)[k] == (multiset{e} + y)[k];
    }
  }

  /** With a total order on the items, sorting depends on the items only and not on their order. */
  lemma SortIsCanonical<T(!new)>(a: seq<T>, b: seq<T>, le: (T, T) -> bool)
    requires TotalOn(a, le) && TransitiveOn(a, le) && AntisymmetricOn(a, le)
    ensures multiset(a) == multiset(b) <==> Sort(a, le) == Sort(b, le)
  {
    SortKeeps(a, le);
    SortKeeps(b, le);
    if multiset(a) == multiset(b) {
      SameItems(a, b);
      SortSorts(a, le);
      SortSorts(b, le);
      SameItems(Sort(a, le), a);
      SortedIsUnique(Sort(a, le), Sort(b, le), le);
    }
  }
}
