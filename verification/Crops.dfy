/**
 Finite crops of a periodic cell: which lattice positions an attempt uses, and that skipping attempts
 whose positions repeat an earlier success leaves the enumerated candidates as they are.
 */
module Crops {
  import opened Wrappers
  import opened Grid
  import opened Lists
  import opened Permutations
  import opened Sorting

  datatype Traversal = Row | Column

  /** A lattice position: `row` counts steps along the first basis vector. */
  datatype Coordinate = Coordinate(row: int, column: int)

  // ----- the positions of an attempt

  function RowCoordinates(row: int, columns: nat): (coordinates: seq<Coordinate>)
    ensures |coordinates| == columns
  {
    seq(columns, column requires 0 <= column < columns => Coordinate(row, column))
  }

  function AllCoordinates(rows: nat, columns: nat): seq<Coordinate> {
    if rows == 0 then [] else AllCoordinates(rows - 1, columns) + RowCoordinates(rows - 1, columns)
  }

  predicate RowMajor(first: Coordinate, second: Coordinate) {
    first.row < second.row || (first.row == second.row && first.column <= second.column)
  }

  predicate ColumnMajor(first: Coordinate, second: Coordinate) {
    first.column < second.column || (first.column == second.column && first.row <= second.row)
  }

  function OrderOf(traversal: Traversal): (Coordinate, Coordinate) -> bool {
    match traversal
    case Row => RowMajor
    case Column => ColumnMajor
  }

  /** The position seen from one of the four corners. */
  function FromCorner(rows: nat, columns: nat, corner: nat): Coordinate -> Coordinate {
    (c: Coordinate) => Coordinate(if corner == 1 || corner == 2 then rows - 1 - c.row else c.row,
                    if corner == 2 || corner == 3 then columns - 1 - c.column else c.column)
  }

  function Take<T>(items: seq<T>, count: nat): seq<T> {
    if count <= |items| then items[..count] else items
  }

  method CropCoordinates(rows: nat, columns: nat, count: nat, traversal: Traversal, corner: nat)
    returns (result: seq<Coordinate>)
    ensures result == Chosen(rows, columns, count, traversal, corner)
  {
    var coordinates := [];
    for row := 0 to rows
      invariant coordinates == AllCoordinates(row, columns)
    {
      ghost var before := coordinates;
      for column := 0 to columns
        invariant coordinates == before + RowCoordinates(row, columns)[..column]
      {
        coordinates := coordinates + [Coordinate(row, column)];
        assert RowCoordinates(row, columns)[..column + 1]
          == RowCoordinates(row, columns)[..column] + [Coordinate(row, column)];
      }
      assert RowCoordinates(row, columns)[..columns] == RowCoordinates(row, columns);
    }
    result := Map(FromCorner(rows, columns, corner), Take(Sort(coordinates, OrderOf(traversal)), count));
  }

  function Chosen(rows: nat, columns: nat, count: nat, traversal: Traversal, corner: nat): seq<Coordinate> {
    Map(FromCorner(rows, columns, corner), Take(Sort(AllCoordinates(rows, columns), OrderOf(traversal)), count))
  }

  function Transposed(): Coordinate -> Coordinate {
    (c: Coordinate) => Coordinate(c.column, c.row)
  }

  lemma {:induction false} CoordinateAt(rows: nat, columns: nat, row: nat, column: nat)
    requires row < rows && column < columns
    ensures row * columns + column < |AllCoordinates(rows, columns)| == rows * columns
    ensures AllCoordinates(rows, columns)[row * columns + column] == Coordinate(row, column)
  {
    AllCoordinatesAreDistinct(rows, columns);
    AllCoordinatesAreDistinct(rows - 1, columns);
    assert (rows - 1) * columns + columns == rows * columns;
    if row < rows - 1 {
      CoordinateAt(rows - 1, columns, row, column);
    }
  }

  lemma {:induction false} RowMajorIsSorted(rows: nat, columns: nat)
    ensures SortedBy(AllCoordinates(rows, columns), RowMajor)
  {
    if rows > 0 {
      RowMajorIsSorted(rows - 1, columns);
      AllCoordinatesAreDistinct(rows - 1, columns);
      var before, last := AllCoordinates(rows - 1, columns), RowCoordinates(rows - 1, columns);
      forall i, j | 0 <= i < j < |before + last| ensures RowMajor((before + last)[i], (before + last)[j]) {
        if i < |before| <= j {
          assert before[i] in before;
        }
      }
    }
  }

  lemma OrdersAreTotal(items: seq<Coordinate>, traversal: Traversal)
    ensures TotalOn(items, OrderOf(traversal)) && TransitiveOn(items, OrderOf(traversal))
      && AntisymmetricOn(items, OrderOf(traversal))
  {
  }

  lemma AllInside(rows: nat, columns: nat, c: Coordinate)
    ensures c in AllCoordinates(rows, columns) <==> Inside(c, rows, columns)
  {
    AllCoordinatesAreDistinct(rows, columns);
    if Inside(c, rows, columns) {
      CoordinateAt(rows, columns, c.row, c.column);
    }
  }

  /** Taking the positions column by column is reading the transposed rectangle row by row. */
  lemma SortedTraversal(rows: nat, columns: nat, traversal: Traversal)
    ensures Sort(AllCoordinates(rows, columns), OrderOf(traversal)) ==
      match traversal
      case Row => AllCoordinates(rows, columns)
      case Column => Map(Transposed(), AllCoordinates(columns, rows))
  {
    var all, le := AllCoordinates(rows, columns), OrderOf(traversal);
    OrdersAreTotal(all, traversal);
    SortSorts(all, le);
    SortKeeps(all, le);
    match traversal
    case Row =>
      RowMajorIsSorted(rows, columns);
      SortedIsUnique(all, Sort(all, le), le);
    case Column =>
      var across := Map(Transposed(), AllCoordinates(columns, rows));
      TransposedItems(rows, columns);
      TransposedIsSorted(rows, columns);
      SameItems(Sort(all, le), all);
      OrdersAreTotal(Sort(all, le), traversal);
      SortedIsUnique(Sort(all, le), across, le);
  }

  lemma TransposedIsSorted(rows: nat, columns: nat)
    ensures SortedBy(Map(Transposed(), AllCoordinates(columns, rows)), ColumnMajor)
  {
    var source, across := AllCoordinates(columns, rows), Map(Transposed(), AllCoordinates(columns, rows));
    RowMajorIsSorted(columns, rows);
    forall i, j | 0 <= i < j < |across| ensures ColumnMajor(across[i], across[j]) {
      assert RowMajor(source[i], source[j]);
    }
  }

  lemma TransposedItems(rows: nat, columns: nat)
    ensures multiset(Map(Transposed(), AllCoordinates(columns, rows))) == multiset(AllCoordinates(rows, columns))
  {
    var source, all := AllCoordinates(columns, rows), AllCoordinates(rows, columns);
    var across := Map(Transposed(), source);
    AllCoordinatesAreDistinct(columns, rows);
    AllCoordinatesAreDistinct(rows, columns);
    forall c ensures c in across <==> c in all {
      AllInside(rows, columns, c);
      AllInside(columns, rows, Transposed()(c));
      if c in across {
        var i :| 0 <= i < |across| && across[i] == c;
        assert source[i] == Transposed()(c);
      }
      if Transposed()(c) in source {
        var i :| 0 <= i < |source| && source[i] == Transposed()(c);
        assert across[i] == c;
      }
    }
    forall i, j | 0 <= i < j < |across| ensures across[i] != across[j] {
      assert source[i] != source[j];
    }
    SameItemsWithoutRepeats(across, all);
  }

  /**
   Where each position of an attempt lies: along rows or along columns, seen from the corner. With
   `a` full lines before it and `b` positions before it on its line, it is the one at `a` and `b`.
   */
  lemma ChosenAt(rows: nat, columns: nat, count: nat, traversal: Traversal, corner: nat, a: nat,
    b: nat)
    requires match traversal case Row => a < rows && b < columns case Column => a < columns && b < rows
    requires match traversal case Row => a * columns + b < count case Column => a * rows + b < count
    ensures var chosen := Chosen(rows, columns, count, traversal, corner);
            match traversal
            case Row =>
              && a * columns + b < |chosen|
              && chosen[a * columns + b] == FromCorner(rows, columns, corner)(Coordinate(a, b))
            case Column =>
              && a * rows + b < |chosen|
              && chosen[a * rows + b] == FromCorner(rows, columns, corner)(Coordinate(b, a))
  {
    match traversal
    case Row => ChosenAlongRow(rows, columns, count, corner, a, b);
    case Column => ChosenAlongColumn(rows, columns, count, corner, a, b);
  }

  /** An attempt takes the positions in the order of its traversal. */
  lemma ChosenInOrder(rows: nat, columns: nat, count: nat, corner: nat)
    ensures Chosen(rows, columns, count, Row, corner)
         == Map(FromCorner(rows, columns, corner), Take(AllCoordinates(rows, columns), count))
    ensures Chosen(rows, columns, count, Column, corner)
         == Map(FromCorner(rows, columns, corner), Take(Map(Transposed(), AllCoordinates(columns, rows)), count))
  {
    SortedTraversal(rows, columns, Row);
    SortedTraversal(rows, columns, Column);
  }

  lemma {:induction false} ChosenAlongRow(rows: nat, columns: nat, count: nat, corner: nat, a: nat, b: nat)
    requires a < rows && b < columns && a * columns + b < count
    ensures IsChosen(Chosen(rows, columns, count, Row, corner), a * columns + b,
              FromCorner(rows, columns, corner)(Coordinate(a, b)))
  {
    CoordinateAt(rows, columns, a, b);
    ChosenFromRows(rows, columns, count, corner, a * columns + b, Coordinate(a, b));
  }

  lemma {:induction false} ChosenAlongColumn(rows: nat, columns: nat, count: nat, corner: nat, a: nat, b: nat)
    requires a < columns && b < rows && a * rows + b < count
    ensures IsChosen(Chosen(rows, columns, count, Column, corner), a * rows + b,
              FromCorner(rows, columns, corner)(Coordinate(b, a)))
  {
    CoordinateAt(columns, rows, a, b);
    ChosenFromColumns(rows, columns, count, corner, a * rows + b, a, b);
  }

  predicate IsChosen(chosen: seq<Coordinate>, k: nat, c: Coordinate) {
    k < |chosen| && chosen[k] == c
  }

  lemma {:induction false} ChosenFromRows(rows: nat, columns: nat, count: nat, corner: nat, k: nat, c: Coordinate)
    requires k < count && IsChosen(AllCoordinates(rows, columns), k, c)
    ensures IsChosen(Chosen(rows, columns, count, Row, corner), k, FromCorner(rows, columns, corner)(c))
  {
    ChosenInOrder(rows, columns, count, corner);
    TakenAt(FromCorner(rows, columns, corner), AllCoordinates(rows, columns), count, k, c);
  }

  lemma {:induction false} ChosenFromColumns(rows: nat, columns: nat, count: nat, corner: nat, k: nat, a: nat, b: nat)
    requires k < count && IsChosen(AllCoordinates(columns, rows), k, Coordinate(a, b))
    ensures IsChosen(Chosen(rows, columns, count, Column, corner), k,
              FromCorner(rows, columns, corner)(Coordinate(b, a)))
  {
    ChosenInOrder(rows, columns, count, corner);
    TransposedAt(FromCorner(rows, columns, corner), AllCoordinates(columns, rows), count, k, a, b);
  }

  lemma {:induction false} TransposedAt(f: Coordinate -> Coordinate, source: seq<Coordinate>, count: nat, k: nat,
    a: nat, b: nat)
    requires k < count && k < |source| && source[k] == Coordinate(a, b)
    ensures var chosen := Map(f, Take(Map(Transposed(), source), count));
            k < |chosen| && chosen[k] == f(Coordinate(b, a))
  {
    MappedAt(Transposed(), source, k, Coordinate(a, b));
    TakenAt(f, Map(Transposed(), source), count, k, Coordinate(b, a));
  }

  lemma MappedAt<A, B>(f: A -> B, items: seq<A>, i: nat, item: A)
    requires i < |items| && items[i] == item
    ensures i < |Map(f, items)| && Map(f, items)[i] == f(item)
  {
  }

  lemma TakenAt<A, B>(f: A -> B, items: seq<A>, count: nat, i: nat, item: A)
    requires i < count && i < |items| && items[i] == item
    ensures i < |Map(f, Take(items, count))| && Map(f, Take(items, count))[i] == f(item)
  {
  }

  /** The first position of an attempt is its corner: they are numbered around the rectangle. */
  lemma CornersGoAround(rows: nat, columns: nat, count: nat, traversal: Traversal)
    requires rows > 0 && columns > 0 && count > 0
    ensures forall corner: nat :: Chosen(rows, columns, count, traversal, corner) != []
    ensures Chosen(rows, columns, count, traversal, 0)[0] == Coordinate(0, 0)
    ensures Chosen(rows, columns, count, traversal, 1)[0] == Coordinate(rows - 1, 0)
    ensures Chosen(rows, columns, count, traversal, 2)[0] == Coordinate(rows - 1, columns - 1)
    ensures Chosen(rows, columns, count, traversal, 3)[0] == Coordinate(0, columns - 1)
  {
    forall corner: nat
      ensures Chosen(rows, columns, count, traversal, corner) != []
      ensures Chosen(rows, columns, count, traversal, corner)[0] == FromCorner(rows, columns, corner)(Coordinate(0, 0))
    {
      ChosenAt(rows, columns, count, traversal, corner, 0, 0);
    }
  }

  predicate Inside(c: Coordinate, rows: nat, columns: nat) {
    0 <= c.row < rows && 0 <= c.column < columns
  }

  lemma {:induction false} AllCoordinatesAreDistinct(rows: nat, columns: nat)
    ensures NoRepeats(AllCoordinates(rows, columns)) && |AllCoordinates(rows, columns)| == rows * columns
    ensures forall c | c in AllCoordinates(rows, columns) :: Inside(c, rows, columns)
  {
    if rows > 0 {
      AllCoordinatesAreDistinct(rows - 1, columns);
      var before, last := AllCoordinates(rows - 1, columns), RowCoordinates(rows - 1, columns);
      forall i, j | 0 <= i < j < |before + last| ensures (before + last)[i] != (before + last)[j] {
        if i < |before| <= j {
          assert before[i] in before;
        }
      }
      assert (rows - 1) * columns + columns == rows * columns;
    }
  }

  /** An attempt over a large enough rectangle uses exactly `count` distinct positions of it. */
  lemma ChosenAreDistinct(rows: nat, columns: nat, count: nat, traversal: Traversal, corner: nat)
    requires count <= rows * columns
    ensures var chosen := Chosen(rows, columns, count, traversal, corner);
            && |chosen| == count && NoRepeats(chosen)
            && forall i | 0 <= i < |chosen| :: Inside(chosen[i], rows, columns)
  {
    var all, le := AllCoordinates(rows, columns), OrderOf(traversal);
    AllCoordinatesAreDistinct(rows, columns);
    SortKeeps(all, le);
    var sorted := Sort(all, le);
    RearrangedHasNoRepeats(all, sorted);
    SameItems(sorted, all);
    var taken, chosen := Take(sorted, count), Chosen(rows, columns, count, traversal, corner);
    forall i | 0 <= i < count ensures Inside(taken[i], rows, columns) {
      assert taken[i] == sorted[i] && sorted[i] in sorted;
    }
    forall i, j | 0 <= i < j < count ensures chosen[i] != chosen[j] {
      assert taken[i] != taken[j];
    }
  }

  /** The number of columns that makes room for `q` positions in `rows` rows. */
  function Columns(q: nat, rows: nat): nat
    requires rows > 0
  {
    (q + rows - 1) / rows
  }

  /** The columns of a rectangle are the fewest that hold all the copies. */
  lemma RoomForAll(q: nat, rows: nat)
    requires rows > 0
    ensures q <= rows * Columns(q, rows)
    ensures q > 0 ==> Columns(q, rows) > 0 && rows * (Columns(q, rows) - 1) < q
  {
  }

  // ----- layouts

  function RowOf(): Coordinate -> int { (c: Coordinate) => c.row }

  function ColumnOf(): Coordinate -> int { (c: Coordinate) => c.column }

  function MoveBy(rows: int, columns: int): Coordinate -> Coordinate {
    (c: Coordinate) => Coordinate(c.row + rows, c.column + columns)
  }

  /** The positions moved so that the least row and the least column are 0. */
  function Normalized(coordinates: seq<Coordinate>): seq<Coordinate> {
    Map(MoveBy(-Lowest(coordinates, RowOf()), -Lowest(coordinates, ColumnOf())), coordinates)
  }

  function Layout(coordinates: seq<Coordinate>): seq<Coordinate> {
    Sort(Normalized(coordinates), RowMajor)
  }

  lemma SameLayout(a: seq<Coordinate>, b: seq<Coordinate>)
    ensures Layout(a) == Layout(b) <==> multiset(Normalized(a)) == multiset(Normalized(b))
  {
    SortIsCanonical(Normalized(a), Normalized(b), RowMajor);
  }

  ghost predicate AreMoved(a: seq<Coordinate>, b: seq<Coordinate>) {
    exists r, k :: multiset(Map(MoveBy(r, k), a)) == multiset(b)
  }

  /** The layout tells attempts apart exactly up to a common move and the order of the positions. */
  lemma {:induction false} LayoutsAreMoves(a: seq<Coordinate>, b: seq<Coordinate>)
    ensures Layout(a) == Layout(b) <==> AreMoved(a, b)
  {
    SameLayout(a, b);
    if multiset(Normalized(a)) == multiset(Normalized(b)) {
      NormalizedAreMoved(a, b);
    }
    if AreMoved(a, b) {
      var s, t :| multiset(Map(MoveBy(s, t), a)) == multiset(b);
      MovedLayout(a, b, s, t);
    }
  }

  lemma {:induction false} NormalizedAreMoved(a: seq<Coordinate>, b: seq<Coordinate>)
    requires multiset(Normalized(a)) == multiset(Normalized(b))
    ensures AreMoved(a, b)
  {
    MovedAlike(a, b, -Lowest(a, RowOf()), -Lowest(a, ColumnOf()), -Lowest(b, RowOf()), -Lowest(b, ColumnOf()));
  }

  lemma {:induction false} MovedAlike(a: seq<Coordinate>, b: seq<Coordinate>, r: int, k: int, s: int, t: int)
    requires multiset(Map(MoveBy(r, k), a)) == multiset(Map(MoveBy(s, t), b))
    ensures AreMoved(a, b)
  {
    MovedTwice(r, k, -s, -t, a);
    MovedBack(s, t, b);
    MappedAlike(MoveBy(r, k), MoveBy(s, t), MoveBy(r + -s, k + -t), MoveBy(-s, -t), a, b);
  }

  lemma {:induction false} MappedAlike<T>(f: T -> T, g: T -> T, h: T -> T, back: T -> T, a: seq<T>, b: seq<T>)
    requires multiset(Map(f, a)) == multiset(Map(g, b))
    requires Map(back, Map(f, a)) == Map(h, a) && Map(back, Map(g, b)) == b
    ensures multiset(Map(h, a)) == multiset(b)
  {
    MappedItems(back, Map(f, a), Map(g, b));
  }

  lemma MovedBack(s: int, t: int, a: seq<Coordinate>)
    ensures Map(MoveBy(-s, -t), Map(MoveBy(s, t), a)) == a
  {
  }

  lemma {:induction false} MovedTwice(r: int, k: int, s: int, t: int, a: seq<Coordinate>)
    ensures Map(MoveBy(s, t), Map(MoveBy(r, k), a)) == Map(MoveBy(r + s, k + t), a)
  {
  }

  lemma {:induction false} MovedLayout(a: seq<Coordinate>, b: seq<Coordinate>, s: int, t: int)
    requires multiset(Map(MoveBy(s, t), a)) == multiset(b)
    ensures multiset(Normalized(a)) == multiset(Normalized(b))
  {
    var moved := Map(MoveBy(s, t), a);
    assert |moved| == |multiset(moved)| == |multiset(b)| == |b|;
    if a != [] {
      SameItems(moved, b);
      SameLowest(moved, b, RowOf());
      SameLowest(moved, b, ColumnOf());
      NormalizedMoved(a, s, t);
      NormalizedRearranged(moved, b);
    }
  }

  lemma {:induction false} NormalizedRearranged(a: seq<Coordinate>, b: seq<Coordinate>)
    requires multiset(a) == multiset(b)
    requires Lowest(a, RowOf()) == Lowest(b, RowOf()) && Lowest(a, ColumnOf()) == Lowest(b, ColumnOf())
    ensures multiset(Normalized(a)) == multiset(Normalized(b))
  {
    MappedItems(MoveBy(-Lowest(b, RowOf()), -Lowest(b, ColumnOf())), a, b);
  }

  lemma {:induction false} NormalizedMoved(a: seq<Coordinate>, s: int, t: int)
    requires a != []
    ensures Normalized(Map(MoveBy(s, t), a)) == Normalized(a)
  {
    LowestShifted(a, MoveBy(s, t), RowOf(), s);
    LowestShifted(a, MoveBy(s, t), ColumnOf(), t);
    MovedTwice(s, t, -Lowest(a, RowOf()) - s, -Lowest(a, ColumnOf()) - t, a);
  }

  // ----- the pieces of an attempt

  datatype Shape<G> = Shape(geometry: G, at: Point)

  /** A member of the cell; its point is absent when it is not on the grid. */
  datatype Base<G> = Base(geometry: G, point: Option<Point>)

  datatype Placed<G> = Placed(pieceId: string, shape: Shape<G>)

  function Origin(point: Option<Point>): Point {
    if point.Some? then point.value else Point(0, 0)
  }

  function ShapeAt<G>(base: Base<G>, v1: Point, v2: Point, c: Coordinate): Shape<G> {
    Shape(base.geometry, Plus(Origin(base.point), Combine(v1, v2, c.row, c.column)))
  }

  function Block<G>(members: seq<Base<G>>, v1: Point, v2: Point, c: Coordinate): (block: seq<Shape<G>>)
    ensures |block| == |members|
  {
    seq(|members|, i requires 0 <= i < |members| => ShapeAt(members[i], v1, v2, c))
  }

  function Shapes<G>(members: seq<Base<G>>, v1: Point, v2: Point, coordinates: seq<Coordinate>): seq<Shape<G>> {
    if coordinates == [] then []
    else
      var n := |coordinates| - 1;
      Shapes(members, v1, v2, coordinates[..n]) + Block(members, v1, v2, coordinates[n])
  }

  /** The members of the family are handed out in order. */
  function Assigned<G>(shapes: seq<Shape<G>>, family: seq<string>): (placed: seq<Placed<G>>)
    ensures |placed| == if |shapes| <= |family| then |shapes| else |family|
  {
    var n := if |shapes| <= |family| then |shapes| else |family|;
    seq(n, k requires 0 <= k < n => Placed(family[k], shapes[k]))
  }

  ghost predicate AllLegal<G>(shapes: seq<Shape<G>>, legal: (Shape<G>, Shape<G>) -> bool) {
    forall i, j | 0 <= i < j < |shapes| :: legal(shapes[i], shapes[j])
  }

  ghost predicate OnGrid<G>(members: seq<Base<G>>) {
    forall i | 0 <= i < |members| :: members[i].point.Some?
  }

  predicate FitsWith<G>(placed: seq<Placed<G>>, shape: Shape<G>, legal: (Shape<G>, Shape<G>) -> bool) {
    forall k | 0 <= k < |placed| :: legal(placed[k].shape, shape)
  }

  /** The abort control of a job: its `k`-th checkpoint ends with the error `script(k)`, if there is one. */
  class Control<!E> {
    const script: nat -> Option<E>
    var passed: nat

    constructor (script: nat -> Option<E>)
      ensures this.script == script && passed == 0
    {
      this.script, passed := script, 0;
    }

    method Checkpoint() returns (error: Option<E>)
      modifies this
      ensures passed == old(passed) + 1 && error == script(old(passed))
    {
      error := script(passed);
      passed := passed + 1;
    }
  }

  /** The check of one more piece against those already placed; it can fail with an error. */
  type Check<!G, !E> = (seq<Placed<G>>, Shape<G>) -> Result<bool, E>

  /** Whenever the check gives a verdict it is that of the legality relation. */
  ghost predicate Decides<G(!new), E(!new)>(check: Check<G, E>, legal: (Shape<G>, Shape<G>) -> bool) {
    forall placed, shape | check(placed, shape).Ok? :: check(placed, shape).value == FitsWith(placed, shape, legal)
  }

  /** Some checkpoint aborts, or the check can fail, with this error. */
  ghost predicate Causes<G(!new), E(!new)>(check: Check<G, E>, script: nat -> Option<E>, error: E) {
    || (exists k :: script(k) == Some(error))
    || (exists placed, shape :: check(placed, shape) == Err(error))
  }

  /** Places the members at one more position and stops at the first that does not fit. */
  method PlaceBlock<G(!new), E(!new)>(members: seq<Base<G>>, v1: Point, v2: Point, c: Coordinate,
    before: seq<Placed<G>>, ghost shapes: seq<Shape<G>>, family: seq<string>, check: Check<G, E>,
    ghost legal: (Shape<G>, Shape<G>) -> bool, ghost script: nat -> Option<E>)
    returns (placed: Result<Option<seq<Placed<G>>>, E>)
    requires |shapes| + |members| <= |family| && before == Assigned(shapes, family) && AllLegal(shapes, legal)
    requires Decides(check, legal)
    ensures placed.Err? ==> Causes(check, script, placed.error)
    ensures placed.Ok? ==>
      (placed.value.Some? <==> OnGrid(members) && AllLegal(shapes + Block(members, v1, v2, c), legal))
    ensures placed.Ok? && placed.value.Some? ==>
      placed.value.value == Assigned(shapes + Block(members, v1, v2, c), family)
  {
    var pieces := before;
    ghost var block, now := Block(members, v1, v2, c), shapes;
    for i := 0 to |members|
      invariant now == shapes + block[..i]
      invariant pieces == Assigned(now, family)
      invariant AllLegal(now, legal) && forall k | 0 <= k < i :: members[k].point.Some?
    {
      var base := members[i];
      if base.point.None? {
        return Ok(None);
      }
      var shape := ShapeAt(base, v1, v2, c);
      assert block[..i + 1] == block[..i] + [shape];
      var verdict := check(pieces, shape);
      if verdict.Err? {
        return Err(verdict.error);
      }
      if !verdict.value {
        assert now + [shape] <= shapes + block;
        IllegalPiece(shapes + block, now, shape, pieces, legal);
        return Ok(None);
      }
      OneMorePiece(now, shape, pieces, family, legal);
      pieces := pieces + [Placed(family[|pieces|], shape)];
      now := now + [shape];
    }
    assert block[..|members|] == block;
    placed := Ok(Some(pieces));
  }

  lemma OneMorePiece<G>(shapes: seq<Shape<G>>, shape: Shape<G>, pieces: seq<Placed<G>>,
    family: seq<string>,
    legal: (Shape<G>, Shape<G>) -> bool)
    requires |shapes| < |family| && pieces == Assigned(shapes, family) && AllLegal(shapes, legal)
      && FitsWith(pieces, shape, legal)
    ensures AllLegal(shapes + [shape], legal)
    ensures pieces + [Placed(family[|shapes|], shape)] == Assigned(shapes + [shape], family)
  {
    forall i, j | 0 <= i < j < |shapes| + 1 ensures legal((shapes + [shape])[i], (shapes + [shape])[j]) {
      assert j == |shapes| ==> pieces[i].shape == shapes[i];
    }
  }

  /** Places the members at the positions one by one, with a checkpoint before each. */
  method PlaceCrop<G(!new), E(!new)>(members: seq<Base<G>>, v1: Point, v2: Point, coordinates: seq<Coordinate>,
    family: seq<string>, check: Check<G, E>, control: Control<E>, ghost legal: (Shape<G>, Shape<G>) -> bool)
    returns (placed: Result<Option<seq<Placed<G>>>, E>)
    requires members != [] && coordinates != [] && |coordinates| * |members| <= |family|
    requires Decides(check, legal)
    modifies control
    ensures |Shapes(members, v1, v2, coordinates)| == |coordinates| * |members|
    ensures placed.Err? ==> Causes(check, control.script, placed.error)
    ensures placed.Ok? ==>
      (placed.value.Some? <==> OnGrid(members) && AllLegal(Shapes(members, v1, v2, coordinates), legal))
    ensures placed.Ok? && placed.value.Some? ==>
      placed.value.value == Assigned(Shapes(members, v1, v2, coordinates), family)
  {
    ghost var m := |members|;
    ShapesLength(members, v1, v2, coordinates);
    var pieces: seq<Placed<G>> := [];
    for j := 0 to |coordinates|
      invariant |Shapes(members, v1, v2, coordinates[..j])| == j * m <= |family|
      invariant pieces == Assigned(Shapes(members, v1, v2, coordinates[..j]), family)
      invariant AllLegal(Shapes(members, v1, v2, coordinates[..j]), legal) && (j > 0 ==> OnGrid(members))
    {
      var aborted := control.Checkpoint();
      if aborted.Some? {
        return Err(aborted.value);
      }
      PrefixLengths(j, |coordinates|, m);
      ShapesLonger(members, v1, v2, coordinates, j);
      var next := PlaceBlock(members, v1, v2, coordinates[j], pieces,
        Shapes(members, v1, v2, coordinates[..j]), family, check, legal, control.script);
      if next.Err? {
        return Err(next.error);
      }
      if next.value.None? {
        LegalPrefix(Shapes(members, v1, v2, coordinates), Shapes(members, v1, v2, coordinates[..j + 1]), legal);
        return Ok(None);
      }
      pieces := next.value.value;
    }
    assert coordinates[..|coordinates|] == coordinates;
    placed := Ok(Some(pieces));
  }

  lemma LegalPrefix<G>(all: seq<Shape<G>>, prefix: seq<Shape<G>>,
    legal: (Shape<G>, Shape<G>) -> bool)
    requires prefix <= all
    ensures AllLegal(all, legal) ==> AllLegal(prefix, legal)
  {
  }

  /** With `m` members, piece `j * m + i` is member `i`, moved from its base point by the vector of position `j`. */
  lemma {:induction false} PieceOfCopy<G>(members: seq<Base<G>>, v1: Point, v2: Point, coordinates: seq<Coordinate>,
    j: nat, i: nat)
    requires j < |coordinates| && i < |members| && members[i].point.Some?
    ensures var shapes, at := Shapes(members, v1, v2, coordinates), j * |members| + i;
            && at < |shapes| && shapes[at].geometry == members[i].geometry
            && Minus(shapes[at].at, members[i].point.value)
                 == Combine(v1, v2, coordinates[j].row, coordinates[j].column)
  {
    var n := |coordinates| - 1;
    ShapesLength(members, v1, v2, coordinates[..n]);
    ShapesLength(members, v1, v2, coordinates);
    if j < n {
      PieceOfCopy(members, v1, v2, coordinates[..n], j, i);
    }
  }

  /** Of the pieces that a crop places: whose they are, what shape they have and where they lie. */
  lemma {:induction false} PlacedPiece<G>(members: seq<Base<G>>, v1: Point, v2: Point, coordinates: seq<Coordinate>,
    family: seq<string>, j: nat, i: nat)
    requires j < |coordinates| && i < |members| && members[i].point.Some?
    requires |coordinates| * |members| <= |family|
    ensures var placed, at := Assigned(Shapes(members, v1, v2, coordinates), family), j * |members| + i;
            && at < |placed| && placed[at].pieceId == family[at]
            && placed[at].shape.geometry == members[i].geometry
            && Minus(placed[at].shape.at, members[i].point.value)
                 == Combine(v1, v2, coordinates[j].row, coordinates[j].column)
  {
    ShapesLength(members, v1, v2, coordinates);
    PieceOfCopy(members, v1, v2, coordinates, j, i);
  }

  lemma PrefixLengths(j: nat, n: nat, m: nat)
    requires j < n
    ensures j * m + m == (j + 1) * m <= n * m
  {
  }

  lemma {:induction false} ShapesLength<G>(members: seq<Base<G>>, v1: Point, v2: Point, coordinates: seq<Coordinate>)
    ensures |Shapes(members, v1, v2, coordinates)| == |coordinates| * |members|
  {
    if coordinates != [] {
      var n := |coordinates| - 1;
      ShapesLength(members, v1, v2, coordinates[..n]);
      assert n * |members| + |members| == (n + 1) * |members|;
    }
  }

  lemma {:induction false} ShapesLonger<G>(members: seq<Base<G>>, v1: Point, v2: Point, coordinates: seq<Coordinate>,
    j: nat)
    requires j < |coordinates|
    ensures Shapes(members, v1, v2, coordinates[..j + 1])
         == Shapes(members, v1, v2, coordinates[..j]) + Block(members, v1, v2, coordinates[j])
    ensures Shapes(members, v1, v2, coordinates[..j + 1]) <= Shapes(members, v1, v2, coordinates)
    decreases |coordinates| - j
  {
    assert coordinates[..j + 1][..j] == coordinates[..j];
    if j + 1 < |coordinates| {
      ShapesLonger(members, v1, v2, coordinates, j + 1);
    } else {
      assert coordinates[..j + 1] == coordinates;
    }
  }

  lemma IllegalPiece<G>(all: seq<Shape<G>>, shapes: seq<Shape<G>>, shape: Shape<G>,
    pieces: seq<Placed<G>>,
    legal: (Shape<G>, Shape<G>) -> bool)
    requires shapes + [shape] <= all && |pieces| == |shapes|
    requires forall k | 0 <= k < |pieces| :: pieces[k].shape == shapes[k]
    requires !FitsWith(pieces, shape, legal)
    ensures !AllLegal(all, legal)
  {
    var k :| 0 <= k < |pieces| && !legal(pieces[k].shape, shape);
    assert all[k] == shapes[k] && all[|shapes|] == shape;
  }

  // ----- attempts with one layout place the same pieces

  function MoveShape<G>(d: Point): Shape<G> -> Shape<G> {
    (s: Shape<G>) => Shape(s.geometry, Plus(s.at, d))
  }

  /** The legality of two placed shapes does not depend on their order or common position. */
  ghost predicate LegalRelation<G(!new)>(legal: (Shape<G>, Shape<G>) -> bool) {
    && (forall a, b :: legal(a, b) == legal(b, a))
    && (forall a, b, d {:trigger legal(MoveShape(d)(a), MoveShape(d)(b))} ::
      legal(MoveShape(d)(a), MoveShape(d)(b)) == legal(a, b))
  }

  /** The lower left corner of the pieces moves with them. */
  ghost predicate MovesAlong<G(!new)>(corner: multiset<Shape<G>> -> Point) {
    forall shapes: seq<Shape<G>>, d {:trigger Map(MoveShape(d), shapes)} ::
      shapes != [] ==> corner(multiset(Map(MoveShape(d), shapes))) == Plus(corner(multiset(shapes)), d)
  }

  function Settled<G(==)>(shapes: seq<Shape<G>>, corner: multiset<Shape<G>> -> Point): seq<Shape<G>> {
    Map(MoveShape(Minus(Point(0, 0), corner(multiset(shapes)))), shapes)
  }

  lemma CombineAdds(v1: Point, v2: Point, r: int, c: int, r': int, c': int)
    ensures Combine(v1, v2, r + r', c + c') == Plus(Combine(v1, v2, r, c), Combine(v1, v2, r', c'))
  {
  }

  lemma BlockMoved<G>(members: seq<Base<G>>, v1: Point, v2: Point, c: Coordinate, r: int, k: int)
    ensures Block(members, v1, v2, MoveBy(r, k)(c)) == Map(MoveShape(Combine(v1, v2, r, k)), Block(members, v1, v2, c))
  {
    CombineAdds(v1, v2, c.row, c.column, r, k);
  }

  lemma {:induction false} ShapesMoved<G>(members: seq<Base<G>>, v1: Point, v2: Point, coordinates: seq<Coordinate>,
    r: int, k: int)
    ensures Shapes(members, v1, v2, Map(MoveBy(r, k), coordinates))
         == Map(MoveShape(Combine(v1, v2, r, k)), Shapes(members, v1, v2, coordinates))
  {
    if coordinates != [] {
      var n := |coordinates| - 1;
      ShapesMoved(members, v1, v2, coordinates[..n], r, k);
      BlockMoved(members, v1, v2, coordinates[n], r, k);
      assert Map(MoveBy(r, k), coordinates)[..n] == Map(MoveBy(r, k), coordinates[..n]);
    }
  }

  lemma {:induction false} ShapesConcat<G>(members: seq<Base<G>>, v1: Point, v2: Point, a: seq<Coordinate>,
    b: seq<Coordinate>)
    ensures Shapes(members, v1, v2, a + b) == Shapes(members, v1, v2, a) + Shapes(members, v1, v2, b)
  {
    if b == [] {
      assert a + b == a;
    } else {
      var n := |b| - 1;
      ShapesConcat(members, v1, v2, a, b[..n]);
      assert (a + b)[..|a + b| - 1] == a + b[..n];
    }
  }

  lemma ShapesWithout<G>(members: seq<Base<G>>, v1: Point, v2: Point, a: seq<Coordinate>, k: nat)
    requires k < |a|
    ensures multiset(Shapes(members, v1, v2, a))
      == multiset(Block(members, v1, v2, a[k])) + multiset(Shapes(members, v1, v2, Without(a, k)))
  {
    assert a == a[..k] + ([a[k]] + a[k + 1..]);
    ShapesConcat(members, v1, v2, a[..k], [a[k]] + a[k + 1..]);
    ShapesConcat(members, v1, v2, [a[k]], a[k + 1..]);
    ShapesConcat(members, v1, v2, a[..k], a[k + 1..]);
    assert Shapes(members, v1, v2, [a[k]]) == Shapes(members, v1, v2, []) + Block(members, v1, v2, a[k]);
  }

  lemma {:induction false} ShapesOfRearranged<G>(members: seq<Base<G>>, v1: Point, v2: Point, a: seq<Coordinate>,
    b: seq<Coordinate>)
    requires multiset(a) == multiset(b)
    ensures multiset(Shapes(members, v1, v2, a)) == multiset(Shapes(members, v1, v2, b))
    decreases |b|
  {
    assert |a| == |multiset(a)| == |multiset(b)| == |b|;
    if b != [] {
      var k := FindFirst(a, b);
      assert Without(b, 0) == b[1..];
      ShapesOfRearranged(members, v1, v2, Without(a, k), b[1..]);
      ShapesWithout(members, v1, v2, a, k);
      ShapesWithout(members, v1, v2, b, 0);
    }
  }

  lemma LegalRearranged<G(!new)>(a: seq<Shape<G>>, b: seq<Shape<G>>,
    legal: (Shape<G>, Shape<G>) -> bool)
    requires LegalRelation(legal) && multiset(a) == multiset(b) && AllLegal(a, legal)
    ensures AllLegal(b, legal)
  {
    var p := SameItemsArePermuted(a, b);
    forall i, j | 0 <= i < j < |b| ensures legal(b[i], b[j]) {
      assert p[i] != p[j];
      assert legal(a[p[i]], a[p[j]]) == legal(a[p[j]], a[p[i]]);
      assert if p[i] < p[j] then legal(a[p[i]], a[p[j]]) else legal(a[p[j]], a[p[i]]);
    }
  }

  lemma LegalMoved<G(!new)>(a: seq<Shape<G>>, d: Point, legal: (Shape<G>, Shape<G>) -> bool)
    requires LegalRelation(legal)
    ensures AllLegal(Map(MoveShape(d), a), legal) <==> AllLegal(a, legal)
  {
  }

  lemma SettledMoved<G(!new)>(shapes: seq<Shape<G>>, d: Point, corner: multiset<Shape<G>> -> Point)
    requires MovesAlong(corner)
    ensures Settled(Map(MoveShape(d), shapes), corner) == Settled(shapes, corner)
  {
  }

  lemma SettledRearranged<G(!new)>(a: seq<Shape<G>>, b: seq<Shape<G>>,
    corner: multiset<Shape<G>> -> Point)
    requires multiset(a) == multiset(b)
    ensures multiset(Settled(a, corner)) == multiset(Settled(b, corner))
  {
    MappedItems(MoveShape(Minus(Point(0, 0), corner(multiset(a)))), a, b);
  }

  /** Attempts with one layout are legal alike and settle to the same pieces. */
  lemma SameLayoutSamePieces<G(!new)>(members: seq<Base<G>>, v1: Point, v2: Point,
    a: seq<Coordinate>, b: seq<Coordinate>, legal: (Shape<G>, Shape<G>) -> bool, corner: multiset<Shape<G>> -> Point)
    requires LegalRelation(legal) && MovesAlong(corner) && Layout(a) == Layout(b)
    ensures AllLegal(Shapes(members, v1, v2, a), legal) <==> AllLegal(Shapes(members, v1, v2, b), legal)
    ensures multiset(Settled(Shapes(members, v1, v2, a), corner))
      == multiset(Settled(Shapes(members, v1, v2, b), corner))
  {
    SameLayout(a, b);
    var s, t := Shapes(members, v1, v2, Normalized(a)), Shapes(members, v1, v2, Normalized(b));
    ShapesOfRearranged(members, v1, v2, Normalized(a), Normalized(b));
    NormalizedPieces(members, v1, v2, a, legal, corner);
    NormalizedPieces(members, v1, v2, b, legal, corner);
    SettledRearranged(s, t, corner);
    if AllLegal(s, legal) {
      LegalRearranged(s, t, legal);
    }
    if AllLegal(t, legal) {
      LegalRearranged(t, s, legal);
    }
  }

  lemma NormalizedShapes<G>(members: seq<Base<G>>, v1: Point, v2: Point, a: seq<Coordinate>)
    returns (d: Point)
    ensures Shapes(members, v1, v2, Normalized(a)) == Map(MoveShape(d), Shapes(members, v1, v2, a))
  {
    var r, k := -Lowest(a, RowOf()), -Lowest(a, ColumnOf());
    ShapesMoved(members, v1, v2, a, r, k);
    d := Combine(v1, v2, r, k);
  }

  lemma NormalizedPieces<G(!new)>(members: seq<Base<G>>, v1: Point, v2: Point,
    a: seq<Coordinate>, legal: (Shape<G>, Shape<G>) -> bool, corner: multiset<Shape<G>> -> Point)
    requires LegalRelation(legal) && MovesAlong(corner)
    ensures AllLegal(Shapes(members, v1, v2, Normalized(a)), legal) <==> AllLegal(Shapes(members, v1, v2, a), legal)
    ensures Settled(Shapes(members, v1, v2, Normalized(a)), corner) == Settled(Shapes(members, v1, v2, a), corner)
  {
    var shapes := Shapes(members, v1, v2, a);
    var d := NormalizedShapes(members, v1, v2, a);
    LegalMoved(shapes, d, legal);
    SettledMoved(shapes, d, corner);
  }

  // ----- the enumeration

  /** Identity, topology and envelope of a layout; they look at its pieces only. */
  datatype Measure<T> = Measure(identity: string, details: T)

  /** A cell with the family to place and the functions of other modules that an attempt calls. */
  datatype Problem<!G(==), !T> = Problem(
    members: seq<Base<G>>,
    v1: Point,
    v2: Point,
    family: seq<string>,
    legal: (Shape<G>, Shape<G>) -> bool,
    corner: multiset<Shape<G>> -> Point,
    measure: multiset<Shape<G>> -> Option<Measure<T>>)

  datatype Seed<G, T> = Seed(
    placements: seq<Placed<G>>,
    remaining: seq<string>,
    measure: Measure<T>,
    rows: nat,
    columns: nat,
    traversal: Traversal,
    corner: nat)

  /** How many copies of the whole cell the family fills. */
  function Copies<G, T>(problem: Problem<G, T>): nat {
    if problem.members == [] then 0 else |problem.family| / |problem.members|
  }

  predicate FillsOneCopy<G, T>(problem: Problem<G, T>) {
    problem.members != [] && |problem.members| <= |problem.family|
  }

  /** The copies are as many as the family fills. */
  lemma CopiesFit<G, T>(problem: Problem<G, T>)
    ensures Copies(problem) * |problem.members| <= |problem.family|
    ensures problem.members != [] ==> (Copies(problem) + 1) * |problem.members| > |problem.family|
    ensures Copies(problem) >= 1 <==> FillsOneCopy(problem)
  {
  }

  /** Attempt `k`: the row counts in order, for each both traversals, for each the four corners. */
  function RowsOf(k: nat): (rows: nat)
    ensures rows >= 1
  {
    k / 8 + 1
  }

  function TraversalOf(k: nat): Traversal {
    if k % 8 < 4 then Row else Column
  }

  function CornerOf(k: nat): nat {
    k % 4
  }

  function Coordinates<G, T>(problem: Problem<G, T>, k: nat): seq<Coordinate> {
    Chosen(RowsOf(k), Columns(Copies(problem), RowsOf(k)), Copies(problem), TraversalOf(k), CornerOf(k))
  }

  /** Every attempt uses as many distinct positions of its rectangle as there are copies. */
  lemma AttemptPositions<G, T>(problem: Problem<G, T>, k: nat)
    ensures var q, positions := Copies(problem), Coordinates(problem, k);
            && |positions| == q && NoRepeats(positions)
            && forall i | 0 <= i < q :: Inside(positions[i], RowsOf(k), Columns(q, RowsOf(k)))
  {
    RoomForAll(Copies(problem), RowsOf(k));
    ChosenAreDistinct(RowsOf(k), Columns(Copies(problem), RowsOf(k)), Copies(problem), TraversalOf(k), CornerOf(k));
  }

  function Pieces<G, T>(problem: Problem<G, T>, k: nat): seq<Shape<G>> {
    Shapes(problem.members, problem.v1, problem.v2, Coordinates(problem, k))
  }

  function Rest<T>(items: seq<T>, count: nat): seq<T> {
    if count <= |items| then items[count..] else []
  }

  function SeedFor<G(==), T>(problem: Problem<G, T>, k: nat, settled: seq<Shape<G>>, measure: Measure<T>): Seed<G, T> {
    Seed(Assigned(settled, problem.family), Rest(problem.family, |settled|), measure,
      RowsOf(k), Columns(Copies(problem), RowsOf(k)), TraversalOf(k), CornerOf(k))
  }

  ghost predicate Succeeds<G, T>(problem: Problem<G, T>, k: nat) {
    OnGrid(problem.members) && AllLegal(Pieces(problem, k), problem.legal)
  }

  /** The seed that attempt `k` yields, if any. */
  ghost function Attempt<G, T>(problem: Problem<G, T>, k: nat): Option<Seed<G, T>> {
    var settled := Settled(Pieces(problem, k), problem.corner);
    match problem.measure(multiset(settled))
    case None => None
    case Some(measure) => if Succeeds(problem, k) then Some(SeedFor(problem, k, settled, measure)) else None
  }

  ghost function AttemptOf<G, T>(problem: Problem<G, T>): nat -> Option<Seed<G, T>> {
    (k: nat) => Attempt(problem, k)
  }

  function IdentityOf<G, T>(): Seed<G, T> -> string {
    (seed: Seed<G, T>) => seed.measure.identity
  }

  ghost predicate HasIdentity<S>(seeds: seq<S>, identity: S -> string, id: string) {
    exists i :: 0 <= i < |seeds| && identity(seeds[i]) == id
  }

  /** The first `count` attempts without any skipping: the first seed of each identity is kept. */
  ghost function Kept<S>(attempt: nat -> Option<S>, identity: S -> string, count: nat): seq<S> {
    if count == 0 then []
    else
      var before := Kept(attempt, identity, count - 1);
      match attempt(count - 1)
      case None => before
      case Some(seed) => if HasIdentity(before, identity, identity(seed)) then before else before + [seed]
  }

  lemma {:induction false} IdentityStays<S>(attempt: nat -> Option<S>, identity: S -> string, earlier: nat,
    later: nat, id: string)
    requires earlier <= later && HasIdentity(Kept(attempt, identity, earlier), identity, id)
    ensures HasIdentity(Kept(attempt, identity, later), identity, id)
    decreases later
  {
    if earlier < later {
      IdentityStays(attempt, identity, earlier, later - 1, id);
      var before := Kept(attempt, identity, later - 1);
      var i :| 0 <= i < |before| && identity(before[i]) == id;
      assert Kept(attempt, identity, later)[i] == before[i];
    }
  }

  /** An attempt that yields nothing, or the identity of an earlier attempt, adds nothing. */
  lemma RepeatAddsNothing<S>(attempt: nat -> Option<S>, identity: S -> string, earlier: nat, k: nat)
    requires earlier < k && (attempt(earlier).Some? <==> attempt(k).Some?)
    requires attempt(k).Some? ==> identity(attempt(earlier).value) == identity(attempt(k).value)
    ensures Kept(attempt, identity, k + 1) == Kept(attempt, identity, k)
  {
    if attempt(k).Some? {
      var id := identity(attempt(k).value);
      var before, after := Kept(attempt, identity, earlier), Kept(attempt, identity, earlier + 1);
      if !HasIdentity(before, identity, id) {
        assert after[|before|] == attempt(earlier).value;
      }
      IdentityStays(attempt, identity, earlier + 1, k, id);
    }
  }

  ghost predicate Lawful<G(!new), T>(problem: Problem<G, T>) {
    LegalRelation(problem.legal) && MovesAlong(problem.corner)
  }

  /** An attempt whose layout an earlier attempt has placed yields the same measure, or nothing. */
  lemma {:induction false} SameLayoutSameIdentity<G(!new), T>(problem: Problem<G, T>, earlier: nat, k: nat)
    requires Lawful(problem) && Succeeds(problem, earlier)
    requires Layout(Coordinates(problem, earlier)) == Layout(Coordinates(problem, k))
    ensures Attempt(problem, earlier).Some? <==> Attempt(problem, k).Some?
    ensures Attempt(problem, k).Some? ==> Attempt(problem, earlier).value.measure == Attempt(problem, k).value.measure
  {
    SameLayoutSamePieces(problem.members, problem.v1, problem.v2,
      Coordinates(problem, earlier), Coordinates(problem, k), problem.legal, problem.corner);
    assert Succeeds(problem, k);
    SamePiecesSameMeasure(problem, earlier, k);
  }

  lemma SamePiecesSameMeasure<G, T>(problem: Problem<G, T>, earlier: nat, k: nat)
    requires Succeeds(problem, earlier) && Succeeds(problem, k)
    requires SettledPieces(problem, earlier) == SettledPieces(problem, k)
    ensures Attempt(problem, earlier).Some? <==> Attempt(problem, k).Some?
    ensures Attempt(problem, k).Some? ==> Attempt(problem, earlier).value.measure == Attempt(problem, k).value.measure
  {
  }

  ghost function SettledPieces<G, T>(problem: Problem<G, T>, k: nat): multiset<Shape<G>> {
    multiset(Settled(Pieces(problem, k), problem.corner))
  }

  /** Every layout in the table was placed by an attempt before. */
  ghost predicate PlacedBefore<G, T>(problem: Problem<G, T>, layouts: set<seq<Coordinate>>, count: nat) {
    forall layout | layout in layouts ::
      exists k: nat :: k < count && Succeeds(problem, k) && Layout(Coordinates(problem, k)) == layout
  }

  ghost predicate Identifies<S>(identities: set<string>, seeds: seq<S>, identity: S -> string) {
    forall id :: id in identities <==> HasIdentity(seeds, identity, id)
  }

  ghost predicate Yields<G, T>(problem: Problem<G, T>, attempt: nat -> Option<Seed<G, T>>) {
    forall k: nat {:trigger Attempt(problem, k)} :: attempt(k) == Attempt(problem, k)
  }

  lemma SkippedAddsNothing<G(!new), T>(problem: Problem<G, T>, attempt: nat -> Option<Seed<G, T>>,
    earlier: nat, k: nat)
    requires Lawful(problem) && Yields(problem, attempt) && earlier < k && Succeeds(problem, earlier)
    requires Layout(Coordinates(problem, earlier)) == Layout(Coordinates(problem, k))
    ensures Kept(attempt, IdentityOf(), k + 1) == Kept(attempt, IdentityOf(), k)
  {
    SameLayoutSameIdentity(problem, earlier, k);
    RepeatAddsNothing(attempt, IdentityOf(), earlier, k);
  }

  /** The method's state after the first `count` attempts. */
  ghost predicate Progress<G, T>(problem: Problem<G, T>, attempt: nat -> Option<Seed<G, T>>,
    candidates: seq<Seed<G, T>>, identities: set<string>, layouts: set<seq<Coordinate>>, count: nat)
  {
    && candidates == Kept(attempt, IdentityOf(), count)
    && Identifies(identities, candidates, IdentityOf())
    && PlacedBefore(problem, layouts, count)
  }

  function TraversalAt(side: nat): Traversal {
    if side == 0 then Row else Column
  }

  predicate IsAttempt(k: nat, rows: nat, traversal: Traversal, corner: nat) {
    rows == RowsOf(k) && traversal == TraversalOf(k) && corner == CornerOf(k)
  }

  lemma AttemptIndex(rows: nat, side: nat, corner: nat)
    requires rows >= 1 && side < 2 && corner < 4
    ensures IsAttempt(8 * (rows - 1) + 4 * side + corner, rows, TraversalAt(side), corner)
  {
  }

  /**
   The enumeration with the table of placed layouts finds the candidates of the one without, unless a
   checkpoint or the legality check ends it with an error. A basis off the grid has no candidates; the
   basis of `problem` itself does not matter.
   */
  method EnumerateCrops<G(!new), T, E(!new)>(problem: Problem<G, T>, v1: Option<Point>, v2: Option<Point>,
    check: Check<G, E>, control: Control<E>) returns (candidates: Result<seq<Seed<G, T>>, E>)
    requires Lawful(problem) && Decides(check, problem.legal)
    modifies control
    ensures candidates.Err? ==> Causes(check, control.script, candidates.error)
    ensures candidates.Ok? && (v1.None? || v2.None?) ==> candidates.value == []
    ensures candidates.Ok? && v1.Some? && v2.Some? ==>
      var based := problem.(v1 := v1.value, v2 := v2.value);
      candidates.value == Kept(AttemptOf(based), IdentityOf(), 8 * Copies(based))
  {
    var aborted := control.Checkpoint();
    if aborted.Some? {
      return Err(aborted.value);
    }
    if v1.None? || v2.None? {
      return Ok([]);
    }
    var based := problem.(v1 := v1.value, v2 := v2.value);
    var q := Copies(based);
    if q < 1 {
      return Ok([]);
    }
    CopiesFit(based);
    candidates := TryAll(based, q, check, control, AttemptOf(based));
  }

  method TryAll<G(!new), T, E(!new)>(problem: Problem<G, T>, q: nat, check: Check<G, E>, control: Control<E>,
    ghost attempt: nat -> Option<Seed<G, T>>) returns (result: Result<seq<Seed<G, T>>, E>)
    requires Lawful(problem) && FillsOneCopy(problem) && Yields(problem, attempt) && Decides(check, problem.legal)
    modifies control
    ensures result.Err? ==> Causes(check, control.script, result.error)
    ensures result.Ok? ==> result.value == Kept(attempt, IdentityOf(), 8 * q)
  {
    var candidates: seq<Seed<G, T>> := [];
    var identities: set<string>, layouts: set<seq<Coordinate>> := {}, {};
    for rows := 1 to q + 1
      invariant Progress(problem, attempt, candidates, identities, layouts, 8 * (rows - 1))
    {
      var error := control.Checkpoint();
      if error.None? {
        candidates, identities, layouts, error :=
          TryRows(problem, rows, candidates, identities, layouts, check, control, attempt);
      }
      if error.Some? {
        return Err(error.value);
      }
    }
    result := Ok(candidates);
  }

  /** The eight attempts with one number of rows. */
  method TryRows<G(!new), T, E(!new)>(problem: Problem<G, T>, rows: nat,
    before: seq<Seed<G, T>>, identities: set<string>, layouts: set<seq<Coordinate>>,
    check: Check<G, E>, control: Control<E>, ghost attempt: nat -> Option<Seed<G, T>>)
    returns (candidates: seq<Seed<G, T>>, identities': set<string>, layouts': set<seq<Coordinate>>, error: Option<E>)
    requires Lawful(problem) && FillsOneCopy(problem) && Yields(problem, attempt) && Decides(check, problem.legal)
    requires rows >= 1 && Progress(problem, attempt, before, identities, layouts, 8 * (rows - 1))
    modifies control
    ensures error.Some? ==> Causes(check, control.script, error.value)
    ensures error.None? ==> Progress(problem, attempt, candidates, identities', layouts', 8 * rows)
  {
    candidates, identities', layouts', error := before, identities, layouts, None;
    ghost var done: nat := 8 * (rows - 1);
    for side := 0 to 2
      invariant done == 8 * (rows - 1) + 4 * side
      invariant Progress(problem, attempt, candidates, identities', layouts', done)
    {
      for corner := 0 to 4
        invariant done == 8 * (rows - 1) + 4 * side + corner
        invariant Progress(problem, attempt, candidates, identities', layouts', done)
      {
        AttemptIndex(rows, side, corner);
        candidates, identities', layouts', error := TryCrop(problem, rows, TraversalAt(side), corner,
          candidates, identities', layouts', check, control, attempt, done);
        if error.Some? {
          return;
        }
        done := done + 1;
      }
    }
    error := None;
  }

  method TryCrop<G(!new), T, E(!new)>(problem: Problem<G, T>, rows: nat, traversal: Traversal, corner: nat,
    before: seq<Seed<G, T>>, identities: set<string>, layouts: set<seq<Coordinate>>,
    check: Check<G, E>, control: Control<E>, ghost attempt: nat -> Option<Seed<G, T>>, ghost k: nat)
    returns (candidates: seq<Seed<G, T>>, identities': set<string>, layouts': set<seq<Coordinate>>, error: Option<E>)
    requires Lawful(problem) && FillsOneCopy(problem) && Yields(problem, attempt) && Decides(check, problem.legal)
    requires IsAttempt(k, rows, traversal, corner)
    requires Progress(problem, attempt, before, identities, layouts, k)
    modifies control
    ensures error.Some? ==> Causes(check, control.script, error.value)
    ensures error.None? ==> Progress(problem, attempt, candidates, identities', layouts', k + 1)
  {
    candidates, identities', layouts' := before, identities, layouts;
    error := control.Checkpoint();
    if error.Some? {
      return;
    }
    var columns := Columns(Copies(problem), rows);
    var coordinates := CropCoordinates(rows, columns, Copies(problem), traversal, corner);
    LayoutsStay(problem, layouts, k);
    var layout := Layout(coordinates);
    if layout in layouts {
      ghost var earlier: nat :|
        earlier < k && Succeeds(problem, earlier) && Layout(Coordinates(problem, earlier)) == layout;
      SkippedAddsNothing(problem, attempt, earlier, k);
      return;
    }
    var seed, legal;
    seed, legal, error := MakeSeed(problem, rows, traversal, corner, coordinates, check, control, k);
    if error.Some? {
      return;
    }
    if legal {
      layouts' := layouts + {layout};
    }
    if seed.None? || seed.value.measure.identity in identities {
      return;
    }
    identities' := identities + {seed.value.measure.identity};
    candidates := before + [seed.value];
    AddedIdentity(identities, before, seed.value, IdentityOf());
  }

  method MakeSeed<G(!new), T, E(!new)>(problem: Problem<G, T>, rows: nat, traversal: Traversal, corner: nat,
    coordinates: seq<Coordinate>, check: Check<G, E>, control: Control<E>, ghost k: nat)
    returns (seed: Option<Seed<G, T>>, legal: bool, error: Option<E>)
    requires FillsOneCopy(problem) && coordinates == Coordinates(problem, k) && Decides(check, problem.legal)
    requires IsAttempt(k, rows, traversal, corner)
    modifies control
    ensures error.Some? ==> Causes(check, control.script, error.value)
    ensures error.None? ==> seed == Attempt(problem, k) && legal == Succeeds(problem, k)
  {
    AttemptPositions(problem, k);
    CopiesFit(problem);
    var placed := PlaceCrop(problem.members, problem.v1, problem.v2, coordinates, problem.family,
      check, control, problem.legal);
    if placed.Err? {
      return None, false, Some(placed.error);
    }
    error := None;
    legal := placed.value.Some?;
    if !legal {
      return None, false, None;
    }
    var shapes := Map((p: Placed<G>) => p.shape, placed.value.value);
    assert shapes == Pieces(problem, k);
    var settled := Settled(shapes, problem.corner);
    var measure := problem.measure(multiset(settled));
    if measure.None? {
      return None, true, None;
    }
    seed := Some(Seed(Assigned(settled, problem.family), Rest(problem.family, |settled|), measure.value,
      rows, Columns(Copies(problem), rows), traversal, corner));
  }

  lemma LayoutsStay<G, T>(problem: Problem<G, T>, layouts: set<seq<Coordinate>>, k: nat)
    requires PlacedBefore(problem, layouts, k)
    ensures PlacedBefore(problem, layouts, k + 1)
    ensures Succeeds(problem, k) ==> PlacedBefore(problem, layouts + {Layout(Coordinates(problem, k))}, k + 1)
  {
  }

  lemma AddedIdentity<S>(identities: set<string>, seeds: seq<S>, seed: S, identity: S -> string)
    requires Identifies(identities, seeds, identity)
    ensures Identifies(identities + {identity(seed)}, seeds + [seed], identity)
  {
    var longer := seeds + [seed];
    forall id ensures id in identities + {identity(seed)} <==> HasIdentity(longer, identity, id) {
      if HasIdentity(seeds, identity, id) {
        var i :| 0 <= i < |seeds| && identity(seeds[i]) == id;
        assert longer[i] == seeds[i];
      }
      assert longer[|seeds|] == seed;
    }
  }

  ghost predicate FromAttempts<S>(seeds: seq<S>, attempt: nat -> Option<S>, count: nat) {
    forall i | 0 <= i < |seeds| :: exists k: nat :: k < count && attempt(k) == Some(seeds[i])
  }

  ghost predicate DistinctIdentities<S>(seeds: seq<S>, identity: S -> string) {
    forall i, j | 0 <= i < j < |seeds| :: identity(seeds[i]) != identity(seeds[j])
  }

  /** The kept seeds come from attempts, and no two share an identity. */
  lemma {:induction false} KeptAreDistinct<S>(attempt: nat -> Option<S>, identity: S -> string, count: nat)
    ensures FromAttempts(Kept(attempt, identity, count), attempt, count)
    ensures DistinctIdentities(Kept(attempt, identity, count), identity)
  {
    if count > 0 {
      KeptAreDistinct(attempt, identity, count - 1);
      var before, seeds := Kept(attempt, identity, count - 1), Kept(attempt, identity, count);
      forall i | 0 <= i < |seeds| ensures exists k: nat :: k < count && attempt(k) == Some(seeds[i]) {
        if i < |before| {
          var k: nat :| k < count - 1 && attempt(k) == Some(before[i]);
        } else {
          assert attempt(count - 1) == Some(seeds[i]);
        }
      }
    }
  }

  /** No earlier attempt has yielded this attempt's identity. */
  ghost predicate IsFirstWithIdentity<S>(attempt: nat -> Option<S>, identity: S -> string, k: nat) {
    && attempt(k).Some?
    && forall e: nat | e < k && attempt(e).Some? :: identity(attempt(e).value) != identity(attempt(k).value)
  }

  ghost predicate Yielded<S>(attempt: nat -> Option<S>, identity: S -> string, count: nat, id: string) {
    exists k: nat :: k < count && attempt(k).Some? && identity(attempt(k).value) == id
  }

  ghost predicate FirstYielded<S>(attempt: nat -> Option<S>, identity: S -> string, count: nat, seed: S) {
    exists k: nat :: k < count && IsFirstWithIdentity(attempt, identity, k) && attempt(k).value == seed
  }

  /** Every identity that an attempt yields is kept. */
  lemma {:induction false} EveryIdentityIsKept<S>(attempt: nat -> Option<S>, identity: S -> string, count: nat,
    id: string)
    ensures HasIdentity(Kept(attempt, identity, count), identity, id) <==> Yielded(attempt, identity, count, id)
  {
    if count > 0 {
      EveryIdentityIsKept(attempt, identity, count - 1, id);
      var before, after := Kept(attempt, identity, count - 1), Kept(attempt, identity, count);
      if HasIdentity(before, identity, id) {
        var i :| 0 <= i < |before| && identity(before[i]) == id;
        assert after[i] == before[i];
      } else if attempt(count - 1).Some? && identity(attempt(count - 1).value) == id {
        assert after[|before|] == attempt(count - 1).value;
      }
    }
  }

  /** The candidates are exactly the first attempts with their identities. */
  lemma {:induction false} KeptAreFirst<S>(attempt: nat -> Option<S>, identity: S -> string, count: nat, seed: S)
    ensures seed in Kept(attempt, identity, count) <==> FirstYielded(attempt, identity, count, seed)
  {
    if count > 0 {
      var before := count - 1;
      KeptAreFirst(attempt, identity, before, seed);
      NextIsFirst(attempt, identity, before, seed);
    } else {
      assert Kept(attempt, identity, 0) == [];
    }
  }

  lemma {:induction false} NextIsFirst<S>(attempt: nat -> Option<S>, identity: S -> string, count: nat, seed: S)
    requires seed in Kept(attempt, identity, count) <==> FirstYielded(attempt, identity, count, seed)
    ensures seed in Kept(attempt, identity, count + 1) <==> FirstYielded(attempt, identity, count + 1, seed)
  {
    FirstYieldedLonger(attempt, identity, count, seed);
    KeptLonger(attempt, identity, count, seed);
  }

  lemma {:induction false} KeptLonger<S>(attempt: nat -> Option<S>, identity: S -> string, count: nat, seed: S)
    ensures seed in Kept(attempt, identity, count + 1) <==>
      || seed in Kept(attempt, identity, count)
      || (IsFirstWithIdentity(attempt, identity, count) && attempt(count).value == seed)
  {
    if attempt(count).Some? {
      EveryIdentityIsKept(attempt, identity, count, identity(attempt(count).value));
      FirstIsNotYielded(attempt, identity, count);
    }
  }

  lemma FirstYieldedLonger<S>(attempt: nat -> Option<S>, identity: S -> string, count: nat, seed: S)
    ensures FirstYielded(attempt, identity, count + 1, seed) <==>
      || FirstYielded(attempt, identity, count, seed)
      || (IsFirstWithIdentity(attempt, identity, count) && attempt(count).value == seed)
  {
  }

  lemma FirstIsNotYielded<S>(attempt: nat -> Option<S>, identity: S -> string, k: nat)
    requires attempt(k).Some?
    ensures IsFirstWithIdentity(attempt, identity, k) <==> !Yielded(attempt, identity, k, identity(attempt(k).value))
  {
  }

  /** Later attempts only add to the candidates. */
  lemma {:induction false} KeptGrow<S>(attempt: nat -> Option<S>, identity: S -> string, earlier: nat, later: nat)
    requires earlier <= later
    ensures Kept(attempt, identity, earlier) <= Kept(attempt, identity, later)
    decreases later
  {
    if earlier < later {
      KeptGrow(attempt, identity, earlier, later - 1);
    }
  }

  function PieceIds<G>(placed: seq<Placed<G>>): seq<string> {
    Map((p: Placed<G>) => p.pieceId, placed)
  }

  /** Every attempt that yields a seed hands out the family in order and fills whole copies of the cell. */
  lemma SeedsUseTheFamily<G, T>(problem: Problem<G, T>, k: nat)
    requires Attempt(problem, k).Some?
    ensures var seed := Attempt(problem, k).value;
            && PieceIds(seed.placements) + seed.remaining == problem.family
            && |seed.placements| == Copies(problem) * |problem.members|
  {
    AttemptPositions(problem, k);
    ShapesLength(problem.members, problem.v1, problem.v2, Coordinates(problem, k));
    CopiesFit(problem);
    AssignedInOrder(Settled(Pieces(problem, k), problem.corner), problem.family);
  }

  /** How piece `b` of a crop lies to piece `a`. */
  lemma {:induction false} PiecesApart<G>(members: seq<Base<G>>, v1: Point, v2: Point, positions: seq<Coordinate>,
    j: nat, i: nat, j': nat, i': nat)
    requires j < |positions| && j' < |positions| && i < |members| && i' < |members|
    requires members[i].point.Some? && members[i'].point.Some?
    ensures var shapes, a, b := Shapes(members, v1, v2, positions), j * |members| + i, j' * |members| + i';
            && a < |shapes| && b < |shapes|
            && Minus(shapes[b].at, shapes[a].at) ==
                 Apart(members[i].point.value, members[i'].point.value, v1, v2, positions[j], positions[j'])
  {
    PieceOfCopy(members, v1, v2, positions, j, i);
    PieceOfCopy(members, v1, v2, positions, j', i');
    CombineAdds(v1, v2, positions[j].row, positions[j].column,
      positions[j'].row - positions[j].row, positions[j'].column - positions[j].column);
  }

  /** From the base point `p` in the copy at `c` to the base point `q` in the copy at `d`. */
  function Apart(p: Point, q: Point, v1: Point, v2: Point, c: Coordinate, d: Coordinate): Point {
    Plus(Minus(q, p), Combine(v1, v2, d.row - c.row, d.column - c.column))
  }

  /** Piece `(j', i')` lies to piece `(j, i)` as the cell and the lattice have it; a copy has `|members|` pieces. */
  ghost predicate KeepsPositions<G>(pieces: seq<Placed<G>>, members: seq<Base<G>>, v1: Point, v2: Point,
    positions: seq<Coordinate>, j: nat, i: nat, j': nat, i': nat)
  {
    var a, b := j * |members| + i, j' * |members| + i';
    && a < |pieces| && b < |pieces| && j < |positions| && j' < |positions| && i < |members| && i' < |members|
    && members[i].point.Some? && members[i'].point.Some?
    && Minus(pieces[b].shape.at, pieces[a].shape.at) ==
         Apart(members[i].point.value, members[i'].point.value, v1, v2, positions[j], positions[j'])
  }

  /** A seed keeps all members of its copies where the cell and the lattice have them, relative to each other. */
  lemma {:induction false} SeedKeepsPositions<G, T>(problem: Problem<G, T>, k: nat, j: nat, i: nat, j': nat, i': nat)
    requires Attempt(problem, k).Some? && j < Copies(problem) && j' < Copies(problem)
    requires i < |problem.members| && i' < |problem.members|
    ensures KeepsPositions(Attempt(problem, k).value.placements, problem.members, problem.v1, problem.v2,
              Coordinates(problem, k), j, i, j', i')
  {
    AttemptPositions(problem, k);
    CopiesFit(problem);
    AssignedKeepPositions(problem.members, problem.v1, problem.v2, Coordinates(problem, k), problem.family,
      problem.corner, j, i, j', i');
  }

  lemma {:induction false} AssignedKeepPositions<G>(members: seq<Base<G>>, v1: Point, v2: Point,
    positions: seq<Coordinate>, family: seq<string>, corner: multiset<Shape<G>> -> Point,
    j: nat, i: nat, j': nat, i': nat)
    requires j < |positions| && j' < |positions| && i < |members| && i' < |members|
    requires members[i].point.Some? && members[i'].point.Some? && |positions| * |members| <= |family|
    ensures KeepsPositions(Assigned(Settled(Shapes(members, v1, v2, positions), corner), family), members, v1, v2,
              positions, j, i, j', i')
  {
    ShapesLength(members, v1, v2, positions);
    PiecesApart(members, v1, v2, positions, j, i, j', i');
    SettledDifference(Shapes(members, v1, v2, positions), corner, j * |members| + i, j' * |members| + i');
  }

  lemma SettledDifference<G>(shapes: seq<Shape<G>>, corner: multiset<Shape<G>> -> Point, a: nat, b: nat)
    requires a < |shapes| && b < |shapes|
    ensures var settled := Settled(shapes, corner);
            Minus(settled[b].at, settled[a].at) == Minus(shapes[b].at, shapes[a].at)
  {
  }

  /** Settled pieces have their lower left corner at the origin. */
  lemma SettledAtOrigin<G(!new)>(shapes: seq<Shape<G>>, corner: multiset<Shape<G>> -> Point)
    requires MovesAlong(corner) && shapes != []
    ensures corner(multiset(Settled(shapes, corner))) == Point(0, 0)
  {
  }

  lemma AssignedInOrder<G>(shapes: seq<Shape<G>>, family: seq<string>)
    requires |shapes| <= |family|
    ensures PieceIds(Assigned(shapes, family)) + Rest(family, |shapes|) == family
  {
    assert PieceIds(Assigned(shapes, family)) == family[..|shapes|];
  }
}
