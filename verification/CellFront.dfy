/** The front of periodic cells: deduplicated by key, then the best few of every source kind. */
module CellFront {
  import opened Wrappers
  import opened Grid
  import opened Lists
  import opened OrderedMaps
  import opened Sorting
  import Seeds = SeedFront

  datatype Cell = Cell(
    sourceKind: Option<string>,
    latticeLegal: bool,
    centreContactComplete: bool,
    memberArea: int,
    determinant: int,
    maximumSideMm: real,
    hullWasteRatio: real,
    sharedBoundaryMm: real,
    canonicalKey: string)

  // ----- comparison

  function Priority(cell: Cell): int {
    if cell.latticeLegal && cell.centreContactComplete then 0 else if cell.latticeLegal then 1 else 2
  }

  /** Cross-multiplied densities: the denser cell comes first. */
  function CompareDensity(first: Cell, second: Cell): int {
    Seeds.SignInt(second.memberArea * first.determinant - first.memberArea * second.determinant)
  }

  function CompareShape(keys: Seeds.KeyOrder, first: Cell, second: Cell): int {
    Seeds.Then(Seeds.Sign(first.maximumSideMm - second.maximumSideMm),
      Seeds.Then(Seeds.Sign(first.hullWasteRatio - second.hullWasteRatio),
        Seeds.Then(Seeds.Sign(second.sharedBoundaryMm - first.sharedBoundaryMm),
          keys(first.canonicalKey, second.canonicalKey))))
  }

  function CompareCells(keys: Seeds.KeyOrder, first: Cell, second: Cell): int {
    Seeds.Then(Seeds.SignInt(Priority(first) - Priority(second)),
      Seeds.Then(CompareDensity(first, second), CompareShape(keys, first, second)))
  }

  function RankOrder(keys: Seeds.KeyOrder): (Cell, Cell) -> bool {
    (a: Cell, b: Cell) => CompareCells(keys, a, b) <= 0
  }

  /** Legality comes first, then, among legal cells only, complete contact of the centre. */
  lemma LegalCellsRankFirst(keys: Seeds.KeyOrder, a: Cell, b: Cell)
    ensures a.latticeLegal && !b.latticeLegal ==> CompareCells(keys, a, b) < 0 < CompareCells(keys, b, a)
    ensures a.latticeLegal && b.latticeLegal && a.centreContactComplete && !b.centreContactComplete ==>
      CompareCells(keys, a, b) < 0 < CompareCells(keys, b, a)
    ensures !a.latticeLegal && !b.latticeLegal && CompareDensity(a, b) != 0 ==>
      CompareCells(keys, a, b) == CompareDensity(a, b)
  {
  }

  ghost function Density(cell: Cell): real
    requires cell.determinant > 0
  {
    cell.memberArea as real / cell.determinant as real
  }

  /** With positive determinants the comparison is by area density, densest first. */
  lemma DensityOrder(a: Cell, b: Cell)
    requires a.determinant > 0 && b.determinant > 0
    ensures CompareDensity(a, b) == Seeds.Sign(Density(b) - Density(a))
  {
  }

  /** What cells are ranked by, all to be small. */
  ghost function RankKey(cell: Cell): (key: seq<real>)
    requires cell.determinant > 0
    ensures |key| == 5
  {
    [Priority(cell) as real, -Density(cell), cell.maximumSideMm, cell.hullWasteRatio, -cell.sharedBoundaryMm]
  }

  /** The ranking compares legality, density, size, hull waste and contact in this order, and the keys last. */
  lemma RankingIsLexicographic(keys: Seeds.KeyOrder, a: Cell, b: Cell)
    requires a.determinant > 0 && b.determinant > 0
    ensures CompareCells(keys, a, b)
         == Seeds.Then(Seeds.Lexicographic(RankKey(a), RankKey(b)), keys(a.canonicalKey, b.canonicalKey))
  {
    var x, y := RankKey(a), RankKey(b);
    DensityOrder(a, b);
    Seeds.SplitFirst(x, y);
    Seeds.SplitFirst(x[1..], y[1..]);
    Seeds.SplitFirst(x[1..][1..], y[1..][1..]);
    Seeds.SplitFirst(x[1..][1..][1..], y[1..][1..][1..]);
    Seeds.SplitFirst(x[1..][1..][1..][1..], y[1..][1..][1..][1..]);
    assert x[1..][1..][1..][1..][1..] == [];
  }

  lemma ShapeOrder(keys: Seeds.KeyOrder, a: Cell, b: Cell, c: Cell)
    requires Seeds.IsOrder(keys)
    ensures CompareShape(keys, a, b) <= 0 <==> CompareShape(keys, b, a) >= 0
    ensures CompareShape(keys, a, b) <= 0 && CompareShape(keys, b, c) <= 0 ==> CompareShape(keys, a, c) <= 0
  {
  }

  // ----- when the ranking is an order

  /** A cell with neither area nor determinant, whose density ties with every other. */
  predicate IsNull(cell: Cell) {
    cell.memberArea == 0 && cell.determinant == 0
  }

  /** Areas and determinants are absolute values. */
  ghost predicate Measured(cells: seq<Cell>) {
    forall c | c in cells :: c.memberArea >= 0 && c.determinant >= 0
  }

  /** A null cell that the shapes put between two cells of its priority, the denser one last. */
  predicate Squeezed(keys: Seeds.KeyOrder, a: Cell, z: Cell, b: Cell) {
    && IsNull(z) && Priority(a) == Priority(z) == Priority(b) && CompareDensity(a, b) > 0
    && CompareShape(keys, a, z) <= 0 && CompareShape(keys, z, b) <= 0
  }

  ghost predicate Rankable(keys: Seeds.KeyOrder, cells: seq<Cell>) {
    && Measured(cells)
    && forall a, z, b | a in cells && z in cells && b in cells :: !Squeezed(keys, a, z, b)
  }

  lemma DensityIsAntisymmetric(a: Cell, b: Cell)
    ensures CompareDensity(a, b) == -CompareDensity(b, a)
  {
  }

  lemma NullTies(z: Cell, c: Cell)
    requires IsNull(z)
    ensures CompareDensity(z, c) == 0 && CompareDensity(c, z) == 0
  {
  }

  /** A comparison of densities carries over a cell that is not null. */
  lemma DensityTransitive(a: Cell, b: Cell, c: Cell)
    requires Measured([a, b, c]) && !IsNull(b)
    requires CompareDensity(a, b) <= 0 && CompareDensity(b, c) <= 0
    ensures CompareDensity(a, c) <= 0
  {
  }

  function DensityRank(): (Cell, Cell) -> bool {
    (a: Cell, b: Cell) => CompareDensity(a, b) <= 0
  }

  /** Comparing densities is transitive exactly when no cell is null or all densities tie. */
  lemma DensityIsTransitive(cells: seq<Cell>)
    requires Measured(cells)
    ensures TransitiveOn(cells, DensityRank()) <==>
      || (forall c | c in cells :: !IsNull(c))
      || (forall a, b | a in cells && b in cells :: CompareDensity(a, b) == 0)
  {
    var le := DensityRank();
    if forall c | c in cells :: !IsNull(c) {
      forall a, b, c | a in cells && b in cells && c in cells && le(a, b) && le(b, c) ensures le(a, c) {
        DensityTransitive(a, b, c);
      }
    } else {
      var z :| z in cells && IsNull(z);
      forall a, b | a in cells && b in cells && TransitiveOn(cells, le) ensures CompareDensity(a, b) == 0 {
        NullTies(z, a);
        NullTies(z, b);
        DensityIsAntisymmetric(a, b);
        assert le(a, z) && le(z, b) && le(b, z) && le(z, a);
      }
    }
  }

  /** A squeezed cell breaks the order: it ranks behind the first, the last behind it, but the last before the first. */
  lemma DegenerateCellsBreakTheOrder(keys: Seeds.KeyOrder, a: Cell, z: Cell, b: Cell)
    requires Squeezed(keys, a, z, b)
    ensures CompareCells(keys, a, z) <= 0 && CompareCells(keys, z, b) <= 0 && CompareCells(keys, a, b) > 0
  {
  }

  /** Nothing else does. */
  lemma OnlySqueezedCellsBreakTheOrder(keys: Seeds.KeyOrder, a: Cell, b: Cell, c: Cell)
    requires Seeds.IsOrder(keys) && Measured([a, b, c])
    requires CompareCells(keys, a, b) <= 0 && CompareCells(keys, b, c) <= 0 && CompareCells(keys, a, c) > 0
    ensures Squeezed(keys, a, b, c) || Squeezed(keys, c, a, b) || Squeezed(keys, b, c, a)
  {
    ShapeOrder(keys, a, b, c);
    ShapeOrder(keys, a, c, b);
    ShapeOrder(keys, b, c, a);
    DensityIsAntisymmetric(a, b);
    DensityIsAntisymmetric(b, c);
    DensityIsAntisymmetric(a, c);
    if IsNull(b) {
      NullTies(b, a);
      NullTies(b, c);
    } else if IsNull(a) {
      NullTies(a, b);
      NullTies(a, c);
    } else if IsNull(c) {
      NullTies(c, a);
      NullTies(c, b);
    } else {
      NonNullTransitive(keys, a, b, c);
    }
  }

  lemma NonNullTransitive(keys: Seeds.KeyOrder, a: Cell, b: Cell, c: Cell)
    requires Seeds.IsOrder(keys) && Measured([a, b, c]) && !IsNull(a) && !IsNull(b) && !IsNull(c)
    requires CompareCells(keys, a, b) <= 0 && CompareCells(keys, b, c) <= 0
    ensures CompareCells(keys, a, c) <= 0
  {
    assert a in [a, b, c] && b in [a, b, c] && c in [a, b, c];
    ShapeOrder(keys, a, b, c);
    DensityIsAntisymmetric(a, b);
    DensityIsAntisymmetric(b, c);
    DensityIsAntisymmetric(a, c);
    if CompareDensity(a, b) <= 0 && CompareDensity(b, c) <= 0 {
      DensityTransitive(a, b, c);
      if CompareDensity(c, a) <= 0 {
        DensityTransitive(b, c, a);
        DensityTransitive(c, a, b);
      }
    }
  }

  /**
   The ranking is total, and it is transitive exactly when no null cell is squeezed; so it is a total
   preorder on cells of which none is null.
   */
  lemma RankingIsOrder(keys: Seeds.KeyOrder, cells: seq<Cell>)
    requires Seeds.IsOrder(keys) && Measured(cells)
    ensures TotalOn(cells, RankOrder(keys))
    ensures TransitiveOn(cells, RankOrder(keys)) <==> Rankable(keys, cells)
    ensures (forall c | c in cells :: !IsNull(c)) ==> Rankable(keys, cells)
  {
    var le := RankOrder(keys);
    forall a, b | a in cells && b in cells ensures le(a, b) || le(b, a) {
      DensityIsAntisymmetric(a, b);
      ShapeOrder(keys, a, b, a);
    }
    if Rankable(keys, cells) {
      forall a, b, c | a in cells && b in cells && c in cells && le(a, b) && le(b, c) ensures le(a, c) {
        if !le(a, c) {
          OnlySqueezedCellsBreakTheOrder(keys, a, b, c);
        }
      }
    } else {
      var a, z, b :| a in cells && z in cells && b in cells && Squeezed(keys, a, z, b);
      DegenerateCellsBreakTheOrder(keys, a, z, b);
      assert le(a, z) && le(z, b) && !le(a, b);
    }
  }

  /** Bases are oriented before they are used, so that their cells have positive determinants. */
  function CanonicalizeBasis(first: Point, second: Point): (basis: Option<(Point, Point)>)
    ensures basis.None? <==> Cross(first, second) == 0
    ensures basis.Some? ==> Cross(basis.value.0, basis.value.1) == Abs(Cross(first, second)) > 0
    ensures basis.Some? ==> {basis.value.0, basis.value.1} == {first, second}
  {
    var determinant := Cross(first, second);
    if determinant == 0 then None
    else if determinant > 0 then Some((first, second))
    else Some((second, first))
  }

  // ----- deduplication by key

  function PutAll(cells: seq<Cell>): seq<(string, Cell)> {
    if cells == [] then []
    else
      var last := cells[|cells| - 1];
      Put(PutAll(cells[..|cells| - 1]), last.canonicalKey, last)
  }

  function Values(entries: seq<(string, Cell)>): seq<Cell> {
    Map((e: (string, Cell)) => e.1, entries)
  }

  function Deduplicated(cells: seq<Cell>): seq<Cell> {
    Values(PutAll(cells))
  }

  /** The last cell with a key, by position. */
  ghost predicate IsLastWith(cells: seq<Cell>, key: string, cell: Cell) {
    exists i :: 0 <= i < |cells| && cells[i] == cell && cell.canonicalKey == key
      && forall k | i < k < |cells| :: cells[k].canonicalKey != key
  }

  ghost predicate KeyOccurs(cells: seq<Cell>, key: string) {
    exists i :: 0 <= i < |cells| && cells[i].canonicalKey == key
  }

  /** The entries of the deduplicated cells: each key that occurs, once, with the last cell that has it. */
  ghost predicate EntriesOf(entries: seq<(string, Cell)>, cells: seq<Cell>) {
    && DistinctKeys(entries)
    && (forall i | 0 <= i < |entries| :: IsLastWith(cells, entries[i].0, entries[i].1))
    && (forall key :: KeyOccurs(cells, key) ==> HasKey(entries, key))
  }

  lemma LastStays(cells: seq<Cell>, next: Cell, key: string, cell: Cell)
    requires IsLastWith(cells, key, cell) && next.canonicalKey != key
    ensures IsLastWith(cells + [next], key, cell)
  {
    var i :| 0 <= i < |cells| && cells[i] == cell && cell.canonicalKey == key
      && forall k | i < k < |cells| :: cells[k].canonicalKey != key;
    assert (cells + [next])[i] == cell;
  }

  lemma KeepsOneMore(entries: seq<(string, Cell)>, cells: seq<Cell>, next: Cell)
    requires EntriesOf(entries, cells)
    ensures EntriesOf(Put(entries, next.canonicalKey, next), cells + [next])
  {
    var key := next.canonicalKey;
    var after, longer := Put(entries, key, next), cells + [next];
    PutReplacesOrAppends(entries, key, next);
    assert longer[|cells|] == next;
    assert IsLastWith(longer, key, next);
    if HasKey(entries, key) {
      var i :| 0 <= i < |entries| && entries[i].0 == key;
      assert after == entries[i := (key, next)];
    } else {
      assert after == entries + [(key, next)];
    }
    forall i | 0 <= i < |after| ensures IsLastWith(longer, after[i].0, after[i].1) {
      if after[i].0 != key {
        assert after[i] == entries[i];
        LastStays(cells, next, after[i].0, after[i].1);
      }
    }
    forall other | KeyOccurs(longer, other) ensures HasKey(after, other) {
      var i :| 0 <= i < |longer| && longer[i].canonicalKey == other;
      if i < |cells| {
        assert KeyOccurs(cells, other);
        var k :| 0 <= k < |entries| && entries[k].0 == other;
        assert after[k].0 == other;
      } else if HasKey(entries, key) {
        var k :| 0 <= k < |entries| && entries[k].0 == key;
        assert after[k].0 == key;
      } else {
        assert after[|entries|].0 == key;
      }
    }
  }

  /** Cells that share a key are merged into the last of them. */
  lemma {:induction false} DeduplicationKeepsLast(cells: seq<Cell>)
    ensures EntriesOf(PutAll(cells), cells)
  {
    if cells != [] {
      var init, last := cells[..|cells| - 1], cells[|cells| - 1];
      DeduplicationKeepsLast(init);
      KeepsOneMore(PutAll(init), init, last);
      assert init + [last] == cells;
    }
  }

  // ----- the best of every source kind

  function KindOf(cell: Cell): string {
    match cell.sourceKind
    case Some(kind) => kind
    case None => "legacy"
  }

  /** Kinds are told apart as they are stated, and unstated is legacy. */
  lemma KindsAreStated(a: Cell, b: Cell)
    requires a.sourceKind.Some? && b.sourceKind.Some?
    ensures KindOf(a) == KindOf(b) <==> a.sourceKind == b.sourceKind
    ensures KindOf(a.(sourceKind := None)) == KindOf(b) <==> b.sourceKind == Some("legacy")
  {
  }

  /** The cells of a source kind, in order. */
  function Where(cells: seq<Cell>, kind: string): seq<Cell> {
    if cells == [] then []
    else
      var last := cells[|cells| - 1];
      Where(cells[..|cells| - 1], kind) + if KindOf(last) == kind then [last] else []
  }

  lemma {:induction false} WhereOfSum(a: seq<Cell>, b: seq<Cell>, kind: string)
    ensures Where(a + b, kind) == Where(a, kind) + Where(b, kind)
  {
    if b == [] {
      assert a + b == a;
    } else {
      WhereOfSum(a, b[..|b| - 1], kind);
      assert (a + b)[..|a + b| - 1] == a + b[..|b| - 1];
    }
  }

  lemma {:induction false} WhereOfOneKind(cells: seq<Cell>, kind: string, other: string)
    requires forall c | c in cells :: KindOf(c) == kind
    ensures Where(cells, other) == if kind == other then cells else []
  {
    if cells != [] {
      var init, last := cells[..|cells| - 1], cells[|cells| - 1];
      assert cells == init + [last] && last in cells;
      assert forall c | c in init :: c in cells;
      WhereOfOneKind(init, kind, other);
    }
  }

  lemma {:induction false} WhereCounts(cells: seq<Cell>, kind: string, c: Cell)
    ensures multiset(Where(cells, kind))[c] == if KindOf(c) == kind then multiset(cells)[c] else 0
  {
    if cells != [] {
      var init, last := cells[..|cells| - 1], cells[|cells| - 1];
      WhereCounts(init, kind, c);
      assert cells == init + [last];
    }
  }

  lemma {:induction false} WhereHasKind(cells: seq<Cell>, kind: string)
    ensures forall c | c in Where(cells, kind) :: KindOf(c) == kind
    ensures forall c | c in cells && KindOf(c) == kind :: c in Where(cells, kind)
  {
    if cells != [] {
      var init, last := cells[..|cells| - 1], cells[|cells| - 1];
      WhereHasKind(init, kind);
      assert cells == init + [last];
    }
  }

  /** `top` are the best `maximum` items of `group`, or all of them when there are fewer. */
  ghost predicate BestOf<T(!new)>(top: multiset<T>, group: multiset<T>, maximum: nat, le: (T, T) -> bool) {
    && top <= group
    && |top| == (if |group| <= maximum then |group| else maximum)
    && forall x, y | x in top && y in group - top :: le(x, y)
  }

  function Prefix<T>(ranked: seq<T>, maximum: nat): seq<T> {
    if |ranked| <= maximum then ranked else ranked[..maximum]
  }

  function Top(group: seq<Cell>, maximum: nat, le: (Cell, Cell) -> bool): seq<Cell> {
    Prefix(Sort(group, le), maximum)
  }

  lemma PrefixIsBest<T(!new)>(ranked: seq<T>, maximum: nat, le: (T, T) -> bool)
    requires SortedBy(ranked, le)
    ensures BestOf(multiset(Prefix(ranked, maximum)), multiset(ranked), maximum, le)
  {
    if |ranked| > maximum {
      var top, rest := ranked[..maximum], ranked[maximum..];
      assert ranked == top + rest;
      assert multiset(ranked) - multiset(top) == multiset(rest);
      forall x, y | x in multiset(top) && y in multiset(rest) ensures le(x, y) {
        var i :| 0 <= i < |top| && top[i] == x;
        var j :| 0 <= j < |rest| && rest[j] == y;
        assert ranked[i] == x && ranked[maximum + j] == y;
      }
    }
  }

  lemma TopIsBest(group: seq<Cell>, maximum: nat, le: (Cell, Cell) -> bool)
    requires TotalOn(group, le) && TransitiveOn(group, le)
    ensures BestOf(multiset(Top(group, maximum, le)), multiset(group), maximum, le)
  {
    SortSorts(group, le);
    SortKeeps(group, le);
    PrefixIsBest(Sort(group, le), maximum, le);
  }

  lemma TopHasKind(group: seq<Cell>, maximum: nat, le: (Cell, Cell) -> bool)
    ensures |Top(group, maximum, le)| == if |group| <= maximum then |group| else maximum
    ensures forall c | c in Top(group, maximum, le) :: c in group
    ensures |group| <= maximum ==> multiset(Top(group, maximum, le)) == multiset(group)
  {
    SortKeeps(group, le);
    SameItems(Sort(group, le), group);
  }

  type Groups = seq<(string, seq<Cell>)>

  /** The groups of the cells by source kind. */
  ghost predicate AreGroups(groups: Groups, cells: seq<Cell>) {
    && DistinctKeys(groups)
    && (forall i | 0 <= i < |groups| :: groups[i].1 == Where(cells, groups[i].0))
    && (forall c | c in cells :: HasKey(groups, KindOf(c)))
  }

  lemma {:induction false} GroupOneMore(groups: Groups, cells: seq<Cell>, next: Cell, group: seq<Cell>)
    requires AreGroups(groups, cells) && group == Where(cells, KindOf(next)) + [next]
    ensures AreGroups(Put(groups, KindOf(next), group), cells + [next])
  {
    var kind := KindOf(next);
    var after, longer := Put(groups, kind, group), cells + [next];
    PutReplacesOrAppends(groups, kind, group);
    if HasKey(groups, kind) {
      var i :| 0 <= i < |groups| && groups[i].0 == kind;
      assert after == groups[i := (kind, group)];
      assert after[i].0 == kind;
    } else {
      assert after == groups + [(kind, group)];
      assert after[|groups|].0 == kind;
    }
    assert longer[..|cells|] == cells;
    forall i | 0 <= i < |after| ensures after[i].1 == Where(longer, after[i].0) {
      if after[i].0 != kind {
        assert after[i] == groups[i];
      }
    }
    forall c | c in longer ensures HasKey(after, KindOf(c)) {
      if c in cells {
        var i :| 0 <= i < |groups| && groups[i].0 == KindOf(c);
        assert after[i].0 == KindOf(c);
      }
    }
  }

  lemma {:induction false} NoneOfKind(cells: seq<Cell>, kind: string)
    requires forall c | c in cells :: KindOf(c) != kind
    ensures Where(cells, kind) == []
  {
    if cells != [] {
      var init, last := cells[..|cells| - 1], cells[|cells| - 1];
      assert cells == init + [last] && last in cells;
      assert forall c | c in init :: c in cells;
      NoneOfKind(init, kind);
    }
  }

  lemma MissingKind(groups: Groups, cells: seq<Cell>, kind: string)
    requires AreGroups(groups, cells) && !HasKey(groups, kind)
    ensures Where(cells, kind) == []
  {
    forall c | c in cells ensures KindOf(c) != kind {
      assert HasKey(groups, KindOf(c));
    }
    NoneOfKind(cells, kind);
  }

  /** What is retained of the first `count` groups, one group after the other. */
  function Retained(groups: Groups, count: nat, pick: seq<Cell> -> seq<Cell>): seq<Cell>
    requires count <= |groups|
  {
    if count == 0 then [] else Retained(groups, count - 1, pick) + pick(groups[count - 1].1)
  }

  ghost predicate PicksItems(pick: seq<Cell> -> seq<Cell>) {
    forall group, c {:trigger c in pick(group)} :: c in pick(group) ==> c in group
  }

  ghost predicate KindAmong(groups: Groups, count: nat, kind: string)
    requires count <= |groups|
  {
    exists i :: 0 <= i < count && groups[i].0 == kind
  }

  /** Selecting is additive, and finds `result` in what is picked of one group and nothing in the others. */
  ghost predicate Selects(select: seq<Cell> -> seq<Cell>, groups: Groups, pick: seq<Cell> -> seq<Cell>, kind: string,
    result: seq<Cell>) {
    && select([]) == []
    && (forall a, b {:trigger select(a + b)} :: select(a + b) == select(a) + select(b))
    && (forall i | 0 <= i < |groups| :: select(pick(groups[i].1)) == if groups[i].0 == kind then result else [])
  }

  lemma {:induction false} RetainedOfKind(groups: Groups, count: nat, select: seq<Cell> -> seq<Cell>,
    pick: seq<Cell> -> seq<Cell>,
    kind: string, result: seq<Cell>)
    requires DistinctKeys(groups) && count <= |groups| && Selects(select, groups, pick, kind, result)
    ensures select(Retained(groups, count, pick)) == if KindAmong(groups, count, kind) then result else []
  {
    if count > 0 {
      RetainedOfKind(groups, count - 1, select, pick, kind, result);
      OneMoreKind(groups, count - 1, kind);
      assert select(pick(groups[count - 1].1)) == if groups[count - 1].0 == kind then result else [];
      SelectedOfSum(select, Retained(groups, count - 1, pick), pick(groups[count - 1].1));
    }
  }

  lemma SelectedOfSum(select: seq<Cell> -> seq<Cell>, a: seq<Cell>, b: seq<Cell>)
    requires select(a + b) == select(a) + select(b)
    ensures select(a) == [] ==> select(a + b) == select(b)
    ensures select(b) == [] ==> select(a + b) == select(a)
  {
    JoinedParts(select(a), select(b));
  }

  lemma JoinedParts<T>(a: seq<T>, b: seq<T>)
    ensures a == [] ==> a + b == b
    ensures b == [] ==> a + b == a
  {
  }

  lemma OneMoreKind(groups: Groups, count: nat, kind: string)
    requires DistinctKeys(groups) && count < |groups|
    ensures KindAmong(groups, count + 1, kind) <==> KindAmong(groups, count, kind) || groups[count].0 == kind
    ensures !(KindAmong(groups, count, kind) && groups[count].0 == kind)
  {
  }

  lemma PickedOfKind(cells: seq<Cell>, last: string, pick: seq<Cell> -> seq<Cell>, kind: string)
    requires PicksItems(pick)
    ensures Where(pick(Where(cells, last)), kind) == if last == kind then pick(Where(cells, kind)) else []
  {
    var picked := pick(Where(cells, last));
    WhereHasKind(cells, last);
    forall c | c in picked ensures KindOf(c) == last {
      assert c in Where(cells, last);
    }
    WhereOfOneKind(picked, last, kind);
  }

  function TopOf(maximum: nat, le: (Cell, Cell) -> bool): seq<Cell> -> seq<Cell> {
    (group: seq<Cell>) => Top(group, maximum, le)
  }

  function SelectKind(kind: string): seq<Cell> -> seq<Cell> {
    (cells: seq<Cell>) => Where(cells, kind)
  }

  lemma {:induction false} KindsAreSelected(groups: Groups, cells: seq<Cell>, pick: seq<Cell> -> seq<Cell>,
    kind: string)
    requires AreGroups(groups, cells) && PicksItems(pick)
    ensures Selects(SelectKind(kind), groups, pick, kind, pick(Where(cells, kind)))
  {
    var select := SelectKind(kind);
    forall a, b ensures select(a + b) == select(a) + select(b) {
      WhereOfSum(a, b, kind);
    }
    forall i | 0 <= i < |groups|
      ensures select(pick(groups[i].1)) == if groups[i].0 == kind then pick(Where(cells, kind)) else []
    {
      PickedOfKind(cells, groups[i].0, pick, kind);
    }
  }

  lemma TopsArePicked(maximum: nat, le: (Cell, Cell) -> bool)
    ensures PicksItems(TopOf(maximum, le))
  {
    forall group, c | c in TopOf(maximum, le)(group) ensures c in group {
      TopHasKind(group, maximum, le);
    }
  }

  /** Of every kind, exactly the best of that kind is retained. */
  lemma {:induction false} RetainedTops(groups: Groups, cells: seq<Cell>, maximum: nat, le: (Cell, Cell) -> bool,
    kind: string)
    requires AreGroups(groups, cells)
    ensures Where(Retained(groups, |groups|, TopOf(maximum, le)), kind) == Top(Where(cells, kind), maximum, le)
  {
    var pick := TopOf(maximum, le);
    TopsArePicked(maximum, le);
    KindsAreSelected(groups, cells, pick, kind);
    RetainedOfKind(groups, |groups|, SelectKind(kind), pick, kind, pick(Where(cells, kind)));
    if !KindAmong(groups, |groups|, kind) {
      MissingKind(groups, cells, kind);
      TopHasKind(Where(cells, kind), maximum, le);
    }
  }

  function FinalOrder(keys: Seeds.KeyOrder): (Cell, Cell) -> bool {
    (a: Cell, b: Cell) => Seeds.Then(keys(KindOf(a), KindOf(b)), CompareCells(keys, a, b)) <= 0
  }

  /** The kinds follow one another in key order, and the cells of one kind in ranking order. */
  ghost predicate KindByKind(keys: Seeds.KeyOrder, front: seq<Cell>) {
    && (forall i, j | 0 <= i < j < |front| :: keys(KindOf(front[i]), KindOf(front[j])) <= 0)
    && (forall i, j | 0 <= i < j < |front| && KindOf(front[i]) == KindOf(front[j]) ::
         CompareCells(keys, front[i], front[j]) <= 0)
  }

  lemma {:induction false} SortedIsKindByKind(keys: Seeds.KeyOrder, front: seq<Cell>)
    requires Seeds.IsOrder(keys) && SortedBy(front, FinalOrder(keys))
    ensures KindByKind(keys, front)
  {
    forall i, j | 0 <= i < j < |front|
      ensures keys(KindOf(front[i]), KindOf(front[j])) <= 0
      ensures KindOf(front[i]) == KindOf(front[j]) ==> CompareCells(keys, front[i], front[j]) <= 0
    {
      assert FinalOrder(keys)(front[i], front[j]);
      var x, y := KindOf(front[i]), KindOf(front[j]);
      assert x == y ==> keys(x, y) == 0 by {
        assert keys(x, x) < 0 <==> keys(x, x) > 0;
      }
    }
  }

  ghost predicate IsFront(front: seq<Cell>, cells: seq<Cell>, maximum: nat, le: (Cell, Cell) -> bool) {
    forall kind :: BestOf(multiset(Where(front, kind)), multiset(Where(cells, kind)), maximum, le)
  }

  method PeriodicCellFront(keys: Seeds.KeyOrder, cells: seq<Cell>, maximum: nat)
    returns (front: seq<Cell>, preFront: seq<Cell>, coverageComplete: bool)
    ensures preFront == cells
    ensures Seeds.IsOrder(keys) && Rankable(keys, cells) ==>
      IsFront(front, Deduplicated(cells), maximum, RankOrder(keys))
    ensures Seeds.IsOrder(keys) && Rankable(keys, cells) ==> SortedBy(front, FinalOrder(keys))
    ensures Seeds.IsOrder(keys) && Rankable(keys, cells) ==> KindByKind(keys, front)
    ensures coverageComplete <==> multiset(front) == multiset(Deduplicated(cells))
  {
    preFront := cells;
    var unique := Deduplicate(cells);
    var groups := GroupByKind(unique);
    var retained;
    retained, coverageComplete := RetainBest(groups, TopOf(maximum, RankOrder(keys)), maximum);
    front := SortedFront(retained, FinalOrder(keys));
    if Seeds.IsOrder(keys) && Rankable(keys, cells) {
      FrontIsBest(keys, groups, unique, cells, front, maximum);
      FrontIsSorted(keys, groups, unique, cells, retained, maximum);
      SortedIsKindByKind(keys, front);
    }
    CoverageIsExact(groups, unique, front, maximum, RankOrder(keys));
  }

  method RetainBest(groups: Groups, pick: seq<Cell> -> seq<Cell>, maximum: nat)
    returns (retained: seq<Cell>, coverageComplete: bool)
    ensures retained == Retained(groups, |groups|, pick)
    ensures coverageComplete <==> forall k | 0 <= k < |groups| :: |groups[k].1| <= maximum
  {
    retained := [];
    coverageComplete := true;
    for i := 0 to |groups|
      invariant retained == Retained(groups, i, pick)
      invariant coverageComplete <==> forall k | 0 <= k < i :: |groups[k].1| <= maximum
    {
      if |groups[i].1| > maximum {
        coverageComplete := false;
      }
      retained := retained + pick(groups[i].1);
    }
  }

  method SortedFront(retained: seq<Cell>, le: (Cell, Cell) -> bool) returns (front: seq<Cell>)
    ensures front == Sort(retained, le) && multiset(front) == multiset(retained)
  {
    SortKeeps(retained, le);
    front := Sort(retained, le);
  }

  method Deduplicate(cells: seq<Cell>) returns (unique: seq<Cell>)
    ensures unique == Deduplicated(cells)
  {
    var table := new OrderedMap<Cell>();
    for i := 0 to |cells|
      invariant table.Valid() && fresh(table) && table.Entries() == PutAll(cells[..i])
    {
      assert cells[..i + 1][..i] == cells[..i];
      table.Set(cells[i].canonicalKey, cells[i]);
    }
    assert cells[..|cells|] == cells;
    unique := table.IntoValues();
  }

  method GroupByKind(cells: seq<Cell>) returns (groups: Groups)
    ensures AreGroups(groups, cells)
  {
    var table := new OrderedMap<seq<Cell>>();
    for i := 0 to |cells|
      invariant table.Valid() && fresh(table) && AreGroups(table.Entries(), cells[..i])
    {
      AddToGroup(table, cells[i], cells[..i]);
      assert cells[..i + 1] == cells[..i] + [cells[i]];
    }
    assert cells[..|cells|] == cells;
    groups := table.IntoEntries();
  }

  method AddToGroup(table: OrderedMap<seq<Cell>>, cell: Cell, ghost before: seq<Cell>)
    requires table.Valid() && AreGroups(table.Entries(), before)
    modifies table
    ensures table.Valid() && AreGroups(table.Entries(), before + [cell])
  {
    var kind := KindOf(cell);
    var group := table.Get(kind);
    KnownGroup(table.Entries(), before, kind, group);
    var longer := (if group.Some? then group.value else []) + [cell];
    GroupOneMore(table.Entries(), before, cell, longer);
    table.Set(kind, longer);
  }

  lemma KnownGroup(groups: Groups, cells: seq<Cell>, kind: string, group: Option<seq<Cell>>)
    requires AreGroups(groups, cells) && (group.Some? <==> HasKey(groups, kind))
    requires forall i | 0 <= i < |groups| && groups[i].0 == kind :: group == Some(groups[i].1)
    ensures (if group.Some? then group.value else []) == Where(cells, kind)
  {
    if group.None? {
      MissingKind(groups, cells, kind);
    }
  }

  lemma SameKinds(a: seq<Cell>, b: seq<Cell>, kind: string)
    requires multiset(a) == multiset(b)
    ensures multiset(Where(a, kind)) == multiset(Where(b, kind))
  {
    forall c ensures multiset(Where(a, kind))[c] == multiset(Where(b, kind))[c] {
      WhereCounts(a, kind, c);
      WhereCounts(b, kind, c);
    }
  }

  ghost predicate Among(part: seq<Cell>, whole: seq<Cell>) {
    forall c | c in part :: c in whole
  }

  lemma DeduplicatedAmong(cells: seq<Cell>)
    ensures Among(Deduplicated(cells), cells)
  {
    DeduplicationKeepsLast(cells);
    var entries, unique := PutAll(cells), Deduplicated(cells);
    forall c | c in unique ensures c in cells {
      var i :| 0 <= i < |unique| && unique[i] == c;
      assert IsLastWith(cells, entries[i].0, entries[i].1);
    }
  }

  lemma FrontIsBest(keys: Seeds.KeyOrder, groups: Groups, unique: seq<Cell>, cells: seq<Cell>,
    front: seq<Cell>, maximum: nat)
    requires Seeds.IsOrder(keys) && Rankable(keys, cells) && unique == Deduplicated(cells) && AreGroups(groups, unique)
    requires multiset(front) == multiset(Retained(groups, |groups|, TopOf(maximum, RankOrder(keys))))
    ensures IsFront(front, unique, maximum, RankOrder(keys))
  {
    var le := RankOrder(keys);
    DeduplicatedAmong(cells);
    forall kind ensures BestOf(multiset(Where(front, kind)), multiset(Where(unique, kind)), maximum, le) {
      SameKinds(front, Retained(groups, |groups|, TopOf(maximum, le)), kind);
      RetainedTops(groups, unique, maximum, le, kind);
      var group := Where(unique, kind);
      forall c | c in group ensures c in unique {
        WhereCounts(unique, kind, c);
        assert c in multiset(group);
      }
      RankingIsOrder(keys, group);
      TopIsBest(group, maximum, le);
    }
  }

  lemma CoverageIsExact(groups: Groups, unique: seq<Cell>, front: seq<Cell>, maximum: nat,
    le: (Cell, Cell) -> bool)
    requires AreGroups(groups, unique)
    requires multiset(front) == multiset(Retained(groups, |groups|, TopOf(maximum, le)))
    ensures (forall k | 0 <= k < |groups| :: |groups[k].1| <= maximum) <==> multiset(front) == multiset(unique)
  {
    var retained := Retained(groups, |groups|, TopOf(maximum, le));
    if forall k | 0 <= k < |groups| :: |groups[k].1| <= maximum {
      forall c ensures multiset(front)[c] == multiset(unique)[c] {
        var kind := KindOf(c);
        RetainedTops(groups, unique, maximum, le, kind);
        SmallGroup(groups, unique, maximum, kind);
        TopHasKind(Where(unique, kind), maximum, le);
        WhereCounts(retained, kind, c);
        WhereCounts(unique, kind, c);
      }
    }
    if multiset(front) == multiset(unique) {
      forall k | 0 <= k < |groups| ensures |groups[k].1| <= maximum {
        var kind := groups[k].0;
        SameKinds(retained, unique, kind);
        RetainedTops(groups, unique, maximum, le, kind);
        TopHasKind(Where(unique, kind), maximum, le);
        assert |Where(retained, kind)| == |multiset(Where(retained, kind))| == |multiset(Where(unique, kind))|;
      }
    }
  }

  lemma SmallGroup(groups: Groups, unique: seq<Cell>, maximum: nat, kind: string)
    requires AreGroups(groups, unique) && forall k | 0 <= k < |groups| :: |groups[k].1| <= maximum
    ensures |Where(unique, kind)| <= maximum
  {
    if !HasKey(groups, kind) {
      MissingKind(groups, unique, kind);
    }
  }

  lemma {:induction false} RetainedAmong(groups: Groups, count: nat, pick: seq<Cell> -> seq<Cell>, whole: seq<Cell>)
    requires PicksItems(pick) && count <= |groups| && forall i | 0 <= i < |groups| :: Among(groups[i].1, whole)
    ensures Among(Retained(groups, count, pick), whole)
  {
    if count > 0 {
      RetainedAmong(groups, count - 1, pick, whole);
      assert Among(groups[count - 1].1, whole);
      forall c | c in pick(groups[count - 1].1) ensures c in whole {
        assert c in groups[count - 1].1;
      }
    }
  }

  lemma FinalIsOrder(keys: Seeds.KeyOrder, cells: seq<Cell>)
    requires Seeds.IsOrder(keys) && Rankable(keys, cells)
    ensures TotalOn(cells, FinalOrder(keys)) && TransitiveOn(cells, FinalOrder(keys))
  {
    var le, inner := FinalOrder(keys), RankOrder(keys);
    RankingIsOrder(keys, cells);
    forall a, b | a in cells && b in cells ensures le(a, b) || le(b, a) {
      var x, y := KindOf(a), KindOf(b);
      assert keys(x, y) <= 0 || keys(y, x) <= 0;
      assert keys(x, y) < 0 <==> keys(y, x) > 0;
      assert keys(y, x) < 0 <==> keys(x, y) > 0;
      assert inner(a, b) || inner(b, a);
    }
    forall a, b, c | a in cells && b in cells && c in cells && le(a, b) && le(b, c) ensures le(a, c) {
      var x, y, z := KindOf(a), KindOf(b), KindOf(c);
      assert inner(a, b) && inner(b, c) ==> inner(a, c);
      assert keys(x, z) <= 0;
      if keys(x, z) == 0 {
        KeyTies(keys, x, y, z);
      }
    }
  }

  lemma KeyTies(keys: Seeds.KeyOrder, x: string, y: string, z: string)
    requires Seeds.IsOrder(keys) && keys(x, y) <= 0 && keys(y, z) <= 0 && keys(x, z) == 0
    ensures keys(x, y) == 0 && keys(y, z) == 0
  {
  }

  lemma FrontIsSorted(keys: Seeds.KeyOrder, groups: Groups, unique: seq<Cell>, cells: seq<Cell>,
    retained: seq<Cell>, maximum: nat)
    requires Seeds.IsOrder(keys) && Rankable(keys, cells) && unique == Deduplicated(cells) && AreGroups(groups, unique)
    requires retained == Retained(groups, |groups|, TopOf(maximum, RankOrder(keys)))
    ensures SortedBy(Sort(retained, FinalOrder(keys)), FinalOrder(keys))
  {
    var pick := TopOf(maximum, RankOrder(keys));
    DeduplicatedAmong(cells);
    TopsArePicked(maximum, RankOrder(keys));
    forall i | 0 <= i < |groups| ensures Among(groups[i].1, unique) {
      WhereAmong(unique, groups[i].0);
    }
    RetainedAmong(groups, |groups|, pick, unique);
    FinalIsOrder(keys, retained);
    SortSorts(retained, FinalOrder(keys));
  }

  lemma {:induction false} WhereAmong(cells: seq<Cell>, kind: string)
    ensures Among(Where(cells, kind), cells)
  {
    if cells != [] {
      var init, last := cells[..|cells| - 1], cells[|cells| - 1];
      assert cells == init + [last] && last in cells;
      assert forall c | c in init :: c in cells;
      WhereAmong(init, kind);
    }
  }
}
