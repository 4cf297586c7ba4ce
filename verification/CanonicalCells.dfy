/** The canonical key of a periodic cell, and exactly which cells share a key. */
module CanonicalCells {
  import opened Grid
  import opened Cycles
  import opened CyclicKeys
  import opened Lists
  import opened Permutations
  import opened Sorting
  import opened Text

  const QUARTER_TURNS: nat := 4

  datatype Role = P1 | P2

  /** The members' world polygons and the basis vectors of a cell. */
  datatype Cell = Cell(role: Role, polygons: seq<seq<Point>>, first: Point, second: Point)

  function RoleText(role: Role): string {
    match role
    case P1 => "P1"
    case P2 => "P2"
  }

  // ----- moving polygons

  function Rotate(p: Point, turn: nat): Point {
    if turn == 1 then Point(-p.y, p.x)
    else if turn == 2 then Point(-p.x, -p.y)
    else if turn == 3 then Point(p.y, -p.x)
    else p
  }

  function RotateBy(turn: nat): Point -> Point { p => Rotate(p, turn) }

  function ShiftBy(offset: Point): Point -> Point { p => Plus(p, offset) }

  function MapAll(f: Point -> Point, polygons: seq<seq<Point>>): seq<seq<Point>> {
    Map(polygon => Map(f, polygon), polygons)
  }

  function Flatten(polygons: seq<seq<Point>>): seq<Point> {
    if polygons == [] then [] else polygons[0] + Flatten(polygons[1..])
  }

  function AcrossOf(): Point -> int { (p: Point) => p.x }

  function UpOf(): Point -> int { (p: Point) => p.y }

  /** The lower left corner of all the points; the origin without points. */
  function Corner(polygons: seq<seq<Point>>): Point {
    Point(Lowest(Flatten(polygons), AcrossOf()), Lowest(Flatten(polygons), UpOf()))
  }

  function AtOrigin(polygons: seq<seq<Point>>): seq<seq<Point>> {
    MapAll(ShiftBy(Minus(Point(0, 0), Corner(polygons))), polygons)
  }

  // ----- the key

  function RingKey(polygon: seq<Point>): string {
    CyclicKey(Map(PointText, polygon))
  }

  function MemberKeys(polygons: seq<seq<Point>>): seq<string> {
    Map(RingKey, polygons)
  }

  function JoinedKeys(polygons: seq<seq<Point>>): string {
    Join(Sort(MemberKeys(polygons), TextLe), '|')
  }

  function TurnKey(polygons: seq<seq<Point>>, turn: nat): string {
    JoinedKeys(AtOrigin(MapAll(RotateBy(turn), polygons)))
  }

  function VariantText(memberKey: string, first: Point, second: Point): string {
    memberKey + [':'] + (PointText(first) + [';'] + PointText(second))
  }

  function TurnKeyOf(polygons: seq<seq<Point>>): nat -> string {
    (turn: nat) => TurnKey(polygons, turn)
  }

  function TurnedBasis(cell: Cell, turn: nat, swapped: bool): (Point, Point) {
    var first, second := Rotate(cell.first, turn), Rotate(cell.second, turn);
    if swapped then (second, first) else (first, second)
  }

  /** The text of a variant: the member half depends on the turn only. */
  function VariantWith(memberKey: nat -> string, cell: Cell): (nat, bool) -> string {
    (turn: nat, swapped: bool) =>
      VariantText(memberKey(turn), TurnedBasis(cell, turn, swapped).0, TurnedBasis(cell, turn, swapped).1)
  }

  function VariantOf(cell: Cell): (nat, bool) -> string {
    VariantWith(TurnKeyOf(cell.polygons), cell)
  }

  function CellVariant(cell: Cell, turn: nat, swapped: bool): string {
    VariantOf(cell)(turn, swapped)
  }

  /** Two variants for each of the first `turns` quarter turns. */
  function ListVariants(variant: (nat, bool) -> string, turns: nat): (variants: seq<string>)
    ensures |variants| == 2 * turns
  {
    if turns == 0 then [] else ListVariants(variant, turns - 1) + [variant(turns - 1, false), variant(turns - 1, true)]
  }

  function CellVariants(cell: Cell): (variants: seq<string>)
    ensures |variants| == 8
  {
    ListVariants(VariantOf(cell), QUARTER_TURNS)
  }

  function FirstSorted(texts: seq<string>): string
    requires texts != []
  {
    SortKeeps(texts, TextLe);
    Sort(texts, TextLe)[0]
  }

  function CellKey(cell: Cell): string {
    RoleText(cell.role) + [':'] + FirstSorted(CellVariants(cell))
  }

  method CollectVariants(variant: (nat, bool) -> string, turns: nat) returns (variants: seq<string>)
    ensures variants == ListVariants(variant, turns)
  {
    variants := [];
    for turn := 0 to turns
      invariant variants == ListVariants(variant, turn)
    {
      variants := variants + [variant(turn, false)];
      variants := variants + [variant(turn, true)];
    }
  }

  method CanonicalCellKey(cell: Cell) returns (key: string)
    ensures key == CellKey(cell)
  {
    var variants := CollectVariants(VariantOf(cell), QUARTER_TURNS);
    key := RoleText(cell.role) + [':'] + FirstSorted(variants);
  }

  // ----- when cells are the same

  /** The ring read from another vertex or the other way round. */
  ghost predicate SameRing(a: seq<Point>, b: seq<Point>) {
    IsVariant(b, a) || (a == [] && b == [])
  }

  /** The same rings in some order. */
  ghost predicate SamePieces(a: seq<seq<Point>>, b: seq<seq<Point>>) {
    |a| == |b| && exists p :: IsPermutation(p, |a|) && Matches(a, b, p)
  }

  ghost predicate Matches(a: seq<seq<Point>>, b: seq<seq<Point>>, p: seq<nat>)
    requires |a| == |b| && IsPermutation(p, |a|)
  {
    forall i | 0 <= i < |b| :: SameRing(a[p[i]], b[i])
  }

  /** The basis of `b` is that of `a`, turned, or turned and swapped. */
  predicate BasisTurns(a: Cell, b: Cell, turn: nat, swapped: bool) {
    if swapped then b.first == Rotate(a.second, turn) && b.second == Rotate(a.first, turn)
    else b.first == Rotate(a.first, turn) && b.second == Rotate(a.second, turn)
  }

  /** `b` is `a` after a quarter turn of everything, a translation of all members and a swap of the basis, or not. */
  ghost predicate SameCellBy(a: Cell, b: Cell, turn: nat, swapped: bool, offset: Point) {
    && turn < 4
    && BasisTurns(a, b, turn, swapped)
    && SamePieces(MapAll(ShiftBy(offset), MapAll(RotateBy(turn), a.polygons)), b.polygons)
  }

  ghost predicate SameCell(a: Cell, b: Cell) {
    exists turn, swapped, offset :: SameCellBy(a, b, turn, swapped, offset)
  }

  // ----- keys of rings and of member lists

  /** Point texts contain digits, signs and a comma. */
  lemma PointTextShape(p: Point, separator: char)
    requires separator in {';', ':', '|'}
    ensures PointText(p) != "" && separator !in PointText(p)
  {
  }

  lemma MapVariant<A, B>(f: A -> B, cycle: seq<A>, start: nat, forward: bool)
    requires start < |cycle|
    ensures Variant(Map(f, cycle), start, forward) == Map(f, Variant(cycle, start, forward))
  {
  }

  lemma MapKeepsVariant<A, B>(f: A -> B, a: seq<A>, b: seq<A>)
    requires IsVariant(b, a)
    ensures IsVariant(Map(f, b), Map(f, a))
  {
    var start, forward :| 0 <= start < |a| && b == Variant(a, start, forward);
    MapVariant(f, a, start, forward);
  }

  lemma MapPointTextInjective(a: seq<Point>, b: seq<Point>)
    requires Map(PointText, a) == Map(PointText, b)
    ensures a == b
  {
    assert |a| == |Map(PointText, a)| == |b|;
    forall i | 0 <= i < |a| ensures a[i] == b[i] {
      assert Map(PointText, a)[i] == Map(PointText, b)[i];
      PointTextInjective(a[i], b[i]);
    }
  }

  /** Rings have one key exactly when they are the same ring. */
  lemma RingKeyIsComplete(a: seq<Point>, b: seq<Point>)
    ensures RingKey(a) == RingKey(b) <==> SameRing(a, b)
  {
    var s, t := Map(PointText, a), Map(PointText, b);
    forall p: Point ensures PointText(p) != "" && ';' !in PointText(p) {
      PointTextShape(p, ';');
    }
    CyclicKeyIsComplete(s, t);
    if IsVariant(t, s) {
      var start, forward :| 0 <= start < |s| && t == Variant(s, start, forward);
      MapVariant(PointText, a, start, forward);
      MapPointTextInjective(b, Variant(a, start, forward));
    }
    if IsVariant(b, a) {
      MapKeepsVariant(PointText, a, b);
    }
  }

  /** The member lists are the same pieces exactly when their keys are the same items. */
  lemma PiecesAreKeys(a: seq<seq<Point>>, b: seq<seq<Point>>)
    ensures SamePieces(a, b) <==> multiset(MemberKeys(a)) == multiset(MemberKeys(b))
  {
    var s, t := MemberKeys(a), MemberKeys(b);
    if SamePieces(a, b) {
      var p :| IsPermutation(p, |a|) && Matches(a, b, p);
      forall i | 0 <= i < |b| ensures t[i] == s[p[i]] {
        RingKeyIsComplete(a[p[i]], b[i]);
      }
      PermutedHaveSameItems(s, t, p);
    }
    if multiset(s) == multiset(t) {
      var p := SameItemsArePermuted(s, t);
      forall i | 0 <= i < |b| ensures SameRing(a[p[i]], b[i]) {
        RingKeyIsComplete(a[p[i]], b[i]);
      }
      assert Matches(a, b, p);
    }
  }

  lemma RingKeyAvoids(polygon: seq<Point>, separator: char)
    requires separator in {':', '|'}
    ensures separator !in RingKey(polygon)
  {
    if polygon != [] {
      var variant := KeyIsVariant(Map(PointText, polygon));
      VariantItems(variant, Map(PointText, polygon));
      forall i | 0 <= i < |variant| ensures separator !in variant[i] {
        var k :| 0 <= k < |polygon| && variant[i] == Map(PointText, polygon)[k];
        PointTextShape(polygon[k], separator);
      }
      JoinAvoids(variant, ';', separator);
    }
  }

  lemma TextOrder(items: seq<string>)
    ensures TotalOn(items, TextLe) && TransitiveOn(items, TextLe) && AntisymmetricOn(items, TextLe)
  {
    forall x, y ensures TextLe(x, y) || TextLe(y, x) {
      TextLeIsTotal(x, y);
    }
    forall x, y, z | TextLe(x, y) && TextLe(y, z) ensures TextLe(x, z) {
      TextLeIsTransitive(x, y, z);
    }
    forall x, y | TextLe(x, y) && TextLe(y, x) ensures x == y {
      TextLeIsAntisymmetric(x, y);
    }
  }

  lemma {:induction false} SortedKeysAvoid(polygons: seq<seq<Point>>, separator: char)
    requires separator in {':', '|'}
    ensures forall i | 0 <= i < |Sort(MemberKeys(polygons), TextLe)| ::
      separator !in Sort(MemberKeys(polygons), TextLe)[i]
  {
    var keys := MemberKeys(polygons);
    var sorted := Sort(keys, TextLe);
    SortKeeps(keys, TextLe);
    SameItems(sorted, keys);
    forall i | 0 <= i < |sorted| ensures separator !in sorted[i] {
      assert sorted[i] in keys;
      var k :| 0 <= k < |polygons| && sorted[i] == keys[k];
      RingKeyAvoids(polygons[k], separator);
    }
  }

  /** The joined member keys are equal exactly for the same pieces. */
  lemma JoinedKeysAreComplete(a: seq<seq<Point>>, b: seq<seq<Point>>)
    requires a != [] && b != []
    ensures JoinedKeys(a) == JoinedKeys(b) <==> SamePieces(a, b)
  {
    PiecesAreKeys(a, b);
    TextOrder(MemberKeys(a));
    SortIsCanonical(MemberKeys(a), MemberKeys(b), TextLe);
    SortKeeps(MemberKeys(a), TextLe);
    SortKeeps(MemberKeys(b), TextLe);
    SortedKeysAvoid(a, '|');
    SortedKeysAvoid(b, '|');
    if JoinedKeys(a) == JoinedKeys(b) {
      JoinInjective(Sort(MemberKeys(a), TextLe), Sort(MemberKeys(b), TextLe), '|');
    }
  }

  // ----- same pieces stay the same when they are moved

  lemma MovedPieces(f: Point -> Point, a: seq<seq<Point>>, b: seq<seq<Point>>)
    requires SamePieces(a, b)
    ensures SamePieces(MapAll(f, a), MapAll(f, b))
  {
    var p :| IsPermutation(p, |a|) && Matches(a, b, p);
    forall i | 0 <= i < |b| ensures SameRing(MapAll(f, a)[p[i]], MapAll(f, b)[i]) {
      assert SameRing(a[p[i]], b[i]);
      if IsVariant(b[i], a[p[i]]) {
        MapKeepsVariant(f, a[p[i]], b[i]);
      }
    }
    assert Matches(MapAll(f, a), MapAll(f, b), p);
  }

  lemma {:induction false} FlattenItems(polygons: seq<seq<Point>>, q: Point)
    ensures q in Flatten(polygons) <==> exists i :: 0 <= i < |polygons| && q in polygons[i]
  {
    if polygons != [] {
      FlattenItems(polygons[1..], q);
      assert polygons == [polygons[0]] + polygons[1..];
      assert forall i | 0 <= i < |polygons[1..]| :: polygons[1..][i] == polygons[i + 1];
      assert q in Flatten(polygons[1..]) ==> exists i :: 0 <= i < |polygons| && q in polygons[i];
    }
  }

  lemma SamePiecesSamePoints(a: seq<seq<Point>>, b: seq<seq<Point>>, q: Point)
    requires SamePieces(a, b) && q in Flatten(b)
    ensures q in Flatten(a)
  {
    var p :| IsPermutation(p, |a|) && Matches(a, b, p);
    FlattenItems(b, q);
    FlattenItems(a, q);
    var i :| 0 <= i < |b| && q in b[i];
    assert SameRing(a[p[i]], b[i]);
    VariantItems(b[i], a[p[i]]);
  }

  lemma SamePiecesSymmetric(a: seq<seq<Point>>, b: seq<seq<Point>>)
    requires SamePieces(a, b)
    ensures SamePieces(b, a)
  {
    PiecesAreKeys(a, b);
    PiecesAreKeys(b, a);
  }

  lemma SamePiecesSameCorner(a: seq<seq<Point>>, b: seq<seq<Point>>)
    requires SamePieces(a, b)
    ensures Corner(a) == Corner(b)
  {
    SamePiecesSymmetric(a, b);
    forall q ensures q in Flatten(a) <==> q in Flatten(b) {
      if q in Flatten(b) { SamePiecesSamePoints(a, b, q); }
      if q in Flatten(a) { SamePiecesSamePoints(b, a, q); }
    }
    if Flatten(b) != [] { SamePiecesSamePoints(a, b, Flatten(b)[0]); }
    if Flatten(a) != [] { SamePiecesSamePoints(b, a, Flatten(a)[0]); }
    SameLowest(Flatten(a), Flatten(b), AcrossOf());
    SameLowest(Flatten(a), Flatten(b), UpOf());
  }

  lemma SamePiecesAtOrigin(a: seq<seq<Point>>, b: seq<seq<Point>>)
    requires SamePieces(a, b)
    ensures SamePieces(AtOrigin(a), AtOrigin(b))
  {
    SamePiecesSameCorner(a, b);
    MovedPieces(ShiftBy(Minus(Point(0, 0), Corner(a))), a, b);
  }

  // ----- how the moves combine

  function AddTurns(a: nat, b: nat): (c: nat)
    requires a < 4 && b < 4
    ensures c < 4
  {
    if a + b < 4 then a + b else a + b - 4
  }

  function Inverse(turn: nat): (r: nat)
    requires turn < 4
    ensures r < 4
  {
    if turn == 0 then 0 else 4 - turn
  }

  /** Quarter turns add up. */
  lemma RotationsCompose(p: Point, a: nat, b: nat)
    requires a < 4 && b < 4
    ensures Rotate(Rotate(p, a), b) == Rotate(p, AddTurns(a, b))
  {
  }

  /** One turn is a right angle to the left, and no turn leaves a point where it is. */
  lemma TurnIsRightAngle(p: Point)
    ensures Dot(p, Rotate(p, 1)) == 0 && Cross(p, Rotate(p, 1)) == SquaredLength(p)
    ensures SquaredLength(Rotate(p, 1)) == SquaredLength(p)
    ensures Rotate(p, 0) == p
  {
  }

  lemma RotateSum(p: Point, q: Point, turn: nat)
    ensures Rotate(Plus(p, q), turn) == Plus(Rotate(p, turn), Rotate(q, turn))
  {
  }

  lemma MapAllCompose(f: Point -> Point, g: Point -> Point, h: Point -> Point,
    polygons: seq<seq<Point>>)
    requires forall p :: g(f(p)) == h(p)
    ensures MapAll(g, MapAll(f, polygons)) == MapAll(h, polygons)
  {
    forall i | 0 <= i < |polygons| ensures MapAll(g, MapAll(f, polygons))[i] == MapAll(h, polygons)[i] {
      assert MapAll(f, polygons)[i] == Map(f, polygons[i]);
      assert Map(g, Map(f, polygons[i])) == Map(h, polygons[i]);
    }
  }

  lemma MapAllIdentity(f: Point -> Point, polygons: seq<seq<Point>>)
    requires forall p :: f(p) == p
    ensures MapAll(f, polygons) == polygons
  {
    forall i | 0 <= i < |polygons| ensures MapAll(f, polygons)[i] == polygons[i] {
      assert Map(f, polygons[i]) == polygons[i];
    }
  }

  lemma {:induction false} FlattenMapped(f: Point -> Point, polygons: seq<seq<Point>>)
    ensures Flatten(MapAll(f, polygons)) == Map(f, Flatten(polygons))
  {
    if polygons != [] {
      FlattenMapped(f, polygons[1..]);
      assert MapAll(f, polygons)[1..] == MapAll(f, polygons[1..]);
    }
  }

  lemma {:induction false} WithoutPoints(f: Point -> Point, polygons: seq<seq<Point>>)
    requires Flatten(polygons) == []
    ensures MapAll(f, polygons) == polygons
  {
    forall i | 0 <= i < |polygons| ensures MapAll(f, polygons)[i] == polygons[i] {
      if polygons[i] != [] {
        FlattenItems(polygons, polygons[i][0]);
      }
      assert polygons[i] == [];
    }
  }

  /** At the origin no point has a negative coordinate, and zero is reached both ways. */
  lemma AtOriginTouchesAxes(polygons: seq<seq<Point>>)
    requires Flatten(polygons) != []
    ensures var points := Flatten(AtOrigin(polygons));
            && (forall q | q in points :: q.x >= 0 && q.y >= 0)
            && (exists q :: q in points && q.x == 0) && (exists q :: q in points && q.y == 0)
  {
    var points, back := Flatten(polygons), Minus(Point(0, 0), Corner(polygons));
    FlattenMapped(ShiftBy(back), polygons);
    LowestShifted(points, ShiftBy(back), AcrossOf(), back.x);
    LowestShifted(points, ShiftBy(back), UpOf(), back.y);
    LowestIsLeast(Map(ShiftBy(back), points), AcrossOf());
    LowestIsLeast(Map(ShiftBy(back), points), UpOf());
  }

  /** The position at the origin forgets a translation. */
  lemma ShiftedAtOrigin(polygons: seq<seq<Point>>, offset: Point)
    ensures AtOrigin(MapAll(ShiftBy(offset), polygons)) == AtOrigin(polygons)
  {
    var shifted := MapAll(ShiftBy(offset), polygons);
    FlattenMapped(ShiftBy(offset), polygons);
    if Flatten(polygons) == [] {
      WithoutPoints(ShiftBy(offset), polygons);
    } else {
      LowestShifted(Flatten(polygons), ShiftBy(offset), AcrossOf(), offset.x);
      LowestShifted(Flatten(polygons), ShiftBy(offset), UpOf(), offset.y);
      var back := Minus(Point(0, 0), Corner(polygons));
      assert Minus(Point(0, 0), Corner(shifted)) == Minus(back, offset);
      ShiftTwice(offset, Minus(back, offset), back, polygons);
    }
  }

  lemma ShiftTwice(a: Point, b: Point, c: Point, polygons: seq<seq<Point>>)
    requires Plus(a, b) == c
    ensures MapAll(ShiftBy(b), MapAll(ShiftBy(a), polygons)) == MapAll(ShiftBy(c), polygons)
  {
    forall p ensures ShiftBy(b)(ShiftBy(a)(p)) == ShiftBy(c)(p) {
    }
    MapAllCompose(ShiftBy(a), ShiftBy(b), ShiftBy(c), polygons);
  }

  lemma RotateTwice(a: nat, b: nat, polygons: seq<seq<Point>>)
    requires a < 4 && b < 4
    ensures MapAll(RotateBy(b), MapAll(RotateBy(a), polygons)) == MapAll(RotateBy(AddTurns(a, b)), polygons)
  {
    forall p ensures RotateBy(b)(RotateBy(a)(p)) == RotateBy(AddTurns(a, b))(p) {
      RotationsCompose(p, a, b);
    }
    MapAllCompose(RotateBy(a), RotateBy(b), RotateBy(AddTurns(a, b)), polygons);
  }

  lemma RotateShifted(offset: Point, turn: nat, polygons: seq<seq<Point>>)
    ensures MapAll(RotateBy(turn), MapAll(ShiftBy(offset), polygons))
         == MapAll(ShiftBy(Rotate(offset, turn)), MapAll(RotateBy(turn), polygons))
  {
    var h := (p: Point) => Rotate(Plus(p, offset), turn);
    forall p ensures RotateBy(turn)(ShiftBy(offset)(p)) == h(p) {
    }
    forall p ensures ShiftBy(Rotate(offset, turn))(RotateBy(turn)(p)) == h(p) {
      RotateSum(p, offset, turn);
    }
    MapAllCompose(ShiftBy(offset), RotateBy(turn), h, polygons);
    MapAllCompose(RotateBy(turn), ShiftBy(Rotate(offset, turn)), h, polygons);
  }

  /** Turning moved pieces is turning them once and moving them elsewhere. */
  lemma MovedThenTurned(polygons: seq<seq<Point>>, turn: nat, offset: Point, next: nat)
    requires turn < 4 && next < 4
    ensures MapAll(RotateBy(next), MapAll(ShiftBy(offset), MapAll(RotateBy(turn), polygons)))
         == MapAll(ShiftBy(Rotate(offset, next)), MapAll(RotateBy(AddTurns(turn, next)), polygons))
  {
    RotateShifted(offset, next, MapAll(RotateBy(turn), polygons));
    RotateTwice(turn, next, polygons);
  }

  // ----- the key is a complete invariant

  lemma SamePiecesSameTurnKeys(a: seq<seq<Point>>, b: seq<seq<Point>>, turn: nat, offset: Point,
    next: nat)
    requires a != [] && turn < 4 && next < 4
    requires SamePieces(MapAll(ShiftBy(offset), MapAll(RotateBy(turn), a)), b)
    ensures TurnKey(b, next) == TurnKey(a, AddTurns(turn, next))
  {
    var moved := MapAll(ShiftBy(offset), MapAll(RotateBy(turn), a));
    MovedPieces(RotateBy(next), moved, b);
    MovedThenTurned(a, turn, offset, next);
    var turned := MapAll(RotateBy(AddTurns(turn, next)), a);
    ShiftedAtOrigin(turned, Rotate(offset, next));
    SamePiecesAtOrigin(MapAll(RotateBy(next), moved), MapAll(RotateBy(next), b));
    JoinedKeysAreComplete(AtOrigin(turned), AtOrigin(MapAll(RotateBy(next), b)));
  }

  /** Pieces that agree at the origin are translations of each other. */
  lemma SameAtOrigin(p: seq<seq<Point>>, q: seq<seq<Point>>) returns (offset: Point)
    requires SamePieces(AtOrigin(p), AtOrigin(q))
    ensures SamePieces(MapAll(ShiftBy(offset), p), q)
  {
    var corner := Corner(q);
    offset := Minus(corner, Corner(p));
    MovedPieces(ShiftBy(corner), AtOrigin(p), AtOrigin(q));
    FromOrigin(p, corner);
    BackFromOrigin(q);
  }

  lemma FromOrigin(p: seq<seq<Point>>, d: Point)
    ensures MapAll(ShiftBy(d), AtOrigin(p)) == MapAll(ShiftBy(Minus(d, Corner(p))), p)
  {
    ShiftTwice(Minus(Point(0, 0), Corner(p)), d, Minus(d, Corner(p)), p);
  }

  lemma BackFromOrigin(p: seq<seq<Point>>)
    ensures MapAll(ShiftBy(Corner(p)), AtOrigin(p)) == p
  {
    FromOrigin(p, Corner(p));
    MapAllIdentity(ShiftBy(Point(0, 0)), p);
  }

  lemma TurnedBack(a: seq<seq<Point>>, b: seq<seq<Point>>, turn: nat, offset: Point, next: nat)
    requires turn < 4 && next < 4
    requires SamePieces(MapAll(ShiftBy(offset), MapAll(RotateBy(turn), a)), MapAll(RotateBy(next), b))
    ensures SamePieces(MapAll(ShiftBy(Rotate(offset, Inverse(next))),
      MapAll(RotateBy(AddTurns(turn, Inverse(next))), a)), b)
  {
    var back := Inverse(next);
    MovedPieces(RotateBy(back), MapAll(ShiftBy(offset), MapAll(RotateBy(turn), a)), MapAll(RotateBy(next), b));
    MovedThenTurned(a, turn, offset, back);
    RotatedBack(next, b);
  }

  lemma RotatedBack(turn: nat, polygons: seq<seq<Point>>)
    requires turn < 4
    ensures MapAll(RotateBy(Inverse(turn)), MapAll(RotateBy(turn), polygons)) == polygons
  {
    RotateTwice(turn, Inverse(turn), polygons);
    MapAllIdentity(RotateBy(0), polygons);
  }

  lemma SameTurnKeysSamePieces(a: seq<seq<Point>>, b: seq<seq<Point>>, turn: nat, next: nat)
    returns (offset: Point)
    requires a != [] && b != [] && turn < 4 && next < 4 && TurnKey(a, turn) == TurnKey(b, next)
    ensures SamePieces(MapAll(ShiftBy(offset), MapAll(RotateBy(AddTurns(turn, Inverse(next))), a)), b)
  {
    var p, q := MapAll(RotateBy(turn), a), MapAll(RotateBy(next), b);
    JoinedKeysAreComplete(AtOrigin(p), AtOrigin(q));
    var between := SameAtOrigin(p, q);
    TurnedBack(a, b, turn, between, next);
    offset := Rotate(between, Inverse(next));
  }

  lemma {:induction false} VariantIsListed(variant: (nat, bool) -> string, turns: nat, turn: nat, swapped: bool)
    requires turn < turns
    ensures variant(turn, swapped) in ListVariants(variant, turns)
  {
    if turn < turns - 1 {
      VariantIsListed(variant, turns - 1, turn, swapped);
    } else {
      assert ListVariants(variant, turns)[2 * turn + if swapped then 1 else 0] == variant(turn, swapped);
    }
  }

  lemma {:induction false} ListedVariant(variant: (nat, bool) -> string, turns: nat, text: string)
    returns (turn: nat, swapped: bool)
    requires text in ListVariants(variant, turns)
    ensures turn < turns && text == variant(turn, swapped)
  {
    if text in ListVariants(variant, turns - 1) {
      turn, swapped := ListedVariant(variant, turns - 1, text);
    } else {
      turn := turns - 1;
      swapped := text == variant(turn, true);
    }
  }

  lemma FirstSortedIsLeast(texts: seq<string>)
    requires texts != []
    ensures IsLeastText(FirstSorted(texts), texts)
  {
    TextOrder(texts);
    SortSorts(texts, TextLe);
    SortKeeps(texts, TextLe);
    SameItems(Sort(texts, TextLe), texts);
    TextLeIsTotal(FirstSorted(texts), FirstSorted(texts));
  }

  /** A turned and swapped cell has the same variants, in another order. */
  lemma SameCellSameVariant(a: Cell, b: Cell, turn: nat, swapped: bool, offset: Point, next: nat,
    other: bool)
    requires a.polygons != [] && SameCellBy(a, b, turn, swapped, offset) && next < 4
    ensures CellVariant(b, next, other) == CellVariant(a, AddTurns(turn, next), swapped != other)
  {
    SamePiecesSameTurnKeys(a.polygons, b.polygons, turn, offset, next);
    BasisFollows(a, b, turn, swapped, next, other);
    EqualVariants(a, b, AddTurns(turn, next), swapped != other, next, other);
  }

  lemma BasisFollows(a: Cell, b: Cell, turn: nat, swapped: bool, next: nat, other: bool)
    requires turn < 4 && next < 4 && TurnedBasis(a, turn, swapped) == (b.first, b.second)
    ensures TurnedBasis(b, next, other) == TurnedBasis(a, AddTurns(turn, next), swapped != other)
  {
    RotationsCompose(a.first, turn, next);
    RotationsCompose(a.second, turn, next);
  }

  lemma EqualVariants(a: Cell, b: Cell, turn: nat, swapped: bool, next: nat, other: bool)
    requires TurnKey(a.polygons, turn) == TurnKey(b.polygons, next)
    requires TurnedBasis(a, turn, swapped) == TurnedBasis(b, next, other)
    ensures CellVariant(a, turn, swapped) == CellVariant(b, next, other)
  {
  }

  lemma SameCellSameVariants(a: Cell, b: Cell, turn: nat, swapped: bool, offset: Point, text: string)
    requires a.polygons != [] && SameCellBy(a, b, turn, swapped, offset)
    ensures text in CellVariants(a) <==> text in CellVariants(b)
  {
    if text in CellVariants(b) {
      var next, other := ListedVariant(VariantOf(b), QUARTER_TURNS, text);
      SameCellSameVariant(a, b, turn, swapped, offset, next, other);
      VariantIsListed(VariantOf(a), QUARTER_TURNS, AddTurns(turn, next), swapped != other);
    }
    if text in CellVariants(a) {
      var target, other := ListedVariant(VariantOf(a), QUARTER_TURNS, text);
      var next := AddTurns(Inverse(turn), target);
      TurnsCancel(turn, target);
      SameCellSameVariant(a, b, turn, swapped, offset, next, swapped != other);
      VariantIsListed(VariantOf(b), QUARTER_TURNS, next, swapped != other);
    }
  }

  lemma TurnsCancel(turn: nat, target: nat)
    requires turn < 4 && target < 4
    ensures AddTurns(turn, AddTurns(Inverse(turn), target)) == target
  {
  }

  lemma TurnKeyAvoids(polygons: seq<seq<Point>>, turn: nat)
    ensures ':' !in TurnKey(polygons, turn)
  {
    var placed := AtOrigin(MapAll(RotateBy(turn), polygons));
    SortedKeysAvoid(placed, ':');
    JoinAvoids(Sort(MemberKeys(placed), TextLe), '|', ':');
  }

  lemma VariantTextParts(k: string, p: Point, q: Point, k': string, p': Point, q': Point)
    requires ':' !in k && ':' !in k' && VariantText(k, p, q) == VariantText(k', p', q')
    ensures k == k' && p == p' && q == q'
  {
    SplitIsUnique(k, PointText(p) + [';'] + PointText(q), k', PointText(p') + [';'] + PointText(q'), ':');
    PointTextShape(p, ';');
    PointTextShape(p', ';');
    SplitIsUnique(PointText(p), PointText(q), PointText(p'), PointText(q'), ';');
    PointTextInjective(p, p');
    PointTextInjective(q, q');
  }

  lemma SameVariantSameCell(a: Cell, b: Cell, turn: nat, swapped: bool, next: nat, other: bool)
    requires a.polygons != [] && b.polygons != [] && turn < 4 && next < 4
    requires CellVariant(a, turn, swapped) == CellVariant(b, next, other)
    ensures SameCell(a, b)
  {
    TurnKeyAvoids(a.polygons, turn);
    TurnKeyAvoids(b.polygons, next);
    var p, q := TurnedBasis(a, turn, swapped), TurnedBasis(b, next, other);
    VariantTextParts(TurnKey(a.polygons, turn), p.0, p.1, TurnKey(b.polygons, next), q.0, q.1);
    var offset := SameTurnKeysSamePieces(a.polygons, b.polygons, turn, next);
    SameBasis(a, b, turn, swapped, next, other);
    assert SameCellBy(a, b, AddTurns(turn, Inverse(next)), swapped != other, offset);
  }

  lemma SameBasis(a: Cell, b: Cell, turn: nat, swapped: bool, next: nat, other: bool)
    requires turn < 4 && next < 4 && TurnedBasis(a, turn, swapped) == TurnedBasis(b, next, other)
    ensures TurnedBasis(a, AddTurns(turn, Inverse(next)), swapped != other) == (b.first, b.second)
  {
    var back := Inverse(next);
    RotationsCompose(a.first, turn, back);
    RotationsCompose(a.second, turn, back);
    RotationsCompose(b.first, next, back);
    RotationsCompose(b.second, next, back);
  }

  lemma SameCellSameKey(a: Cell, b: Cell)
    requires a.role == b.role && a.polygons != [] && SameCell(a, b)
    ensures CellKey(a) == CellKey(b)
  {
    var turn, swapped, offset :| SameCellBy(a, b, turn, swapped, offset);
    forall text ensures text in CellVariants(a) <==> text in CellVariants(b) {
      SameCellSameVariants(a, b, turn, swapped, offset, text);
    }
    FirstSortedIsLeast(CellVariants(a));
    FirstSortedIsLeast(CellVariants(b));
    LeastTextIsUnique(FirstSorted(CellVariants(a)), FirstSorted(CellVariants(b)), CellVariants(a), CellVariants(b));
  }

  lemma SameKeySameCell(a: Cell, b: Cell)
    requires a.role == b.role && a.polygons != [] && b.polygons != [] && CellKey(a) == CellKey(b)
    ensures SameCell(a, b)
  {
    var u, v := FirstSorted(CellVariants(a)), FirstSorted(CellVariants(b));
    assert u == CellKey(a)[3..] && v == CellKey(b)[3..];
    FirstSortedIsLeast(CellVariants(a));
    FirstSortedIsLeast(CellVariants(b));
    var turn, swapped := ListedVariant(VariantOf(a), QUARTER_TURNS, u);
    var next, other := ListedVariant(VariantOf(b), QUARTER_TURNS, v);
    SameVariantSameCell(a, b, turn, swapped, next, other);
  }

  // ----- the one clash: no member against one member without vertices

  const ONE_EMPTY_MEMBER: seq<seq<Point>> := [[]]

  /** Without members the key is that of one empty member. */
  function Padded(cell: Cell): Cell {
    if cell.polygons == [] then cell.(polygons := ONE_EMPTY_MEMBER) else cell
  }

  ghost predicate EmptyClash(a: Cell, b: Cell) {
    && ((a.polygons == [] && b.polygons == [[]]) || (a.polygons == [[]] && b.polygons == []))
    && exists turn: nat, swapped :: turn < 4 && BasisTurns(a, b, turn, swapped)
  }

  predicate IsOneEmpty(polygons: seq<seq<Point>>) {
    |polygons| == 1 && |polygons[0]| == 0
  }

  lemma EmptyAtOrigin(polygons: seq<seq<Point>>, turn: nat)
    ensures |polygons| == 0 ==> |AtOrigin(MapAll(RotateBy(turn), polygons))| == 0
    ensures IsOneEmpty(polygons) ==> IsOneEmpty(AtOrigin(MapAll(RotateBy(turn), polygons)))
  {
  }

  lemma EmptyKeys(polygons: seq<seq<Point>>)
    requires |polygons| == 0 || IsOneEmpty(polygons)
    ensures JoinedKeys(polygons) == ""
  {
    var keys := MemberKeys(polygons);
    if |polygons| == 1 {
      assert Map(PointText, polygons[0]) == [];
      assert keys == [RingKey(polygons[0])];
      assert Sort(keys, TextLe) == keys;
    }
  }

  lemma PaddedTurnKey(a: seq<seq<Point>>, b: seq<seq<Point>>, turn: nat)
    requires |a| == 0 && IsOneEmpty(b)
    ensures TurnKey(a, turn) == TurnKey(b, turn)
  {
    EmptyAtOrigin(a, turn);
    EmptyAtOrigin(b, turn);
    EmptyKeys(AtOrigin(MapAll(RotateBy(turn), a)));
    EmptyKeys(AtOrigin(MapAll(RotateBy(turn), b)));
  }

  lemma {:induction false} SameVariantLists(v: (nat, bool) -> string, w: (nat, bool) -> string, turns: nat)
    requires forall turn: nat, swapped :: v(turn, swapped) == w(turn, swapped)
    ensures ListVariants(v, turns) == ListVariants(w, turns)
  {
    if turns > 0 {
      SameVariantLists(v, w, turns - 1);
    }
  }

  lemma PaddedVariant(a: Cell, b: Cell, turn: nat, swapped: bool)
    requires |a.polygons| == 0 && IsOneEmpty(b.polygons) && a.first == b.first && a.second == b.second
    ensures CellVariant(a, turn, swapped) == CellVariant(b, turn, swapped)
  {
    PaddedTurnKey(a.polygons, b.polygons, turn);
    EqualVariants(a, b, turn, swapped, turn, swapped);
  }

  lemma PaddedVariants(a: Cell, b: Cell)
    requires |a.polygons| == 0 && IsOneEmpty(b.polygons) && a.first == b.first && a.second == b.second
    ensures CellVariants(a) == CellVariants(b)
  {
    forall turn: nat, swapped ensures VariantOf(a)(turn, swapped) == VariantOf(b)(turn, swapped) {
      PaddedVariant(a, b, turn, swapped);
    }
    SameVariantLists(VariantOf(a), VariantOf(b), QUARTER_TURNS);
  }

  lemma PaddedKey(cell: Cell)
    ensures CellKey(Padded(cell)) == CellKey(cell)
  {
    if |cell.polygons| == 0 {
      PaddedVariants(cell, Padded(cell));
    }
  }

  lemma MovedEmpty(f: Point -> Point, g: Point -> Point)
    ensures MapAll(g, MapAll(f, [])) == [] && MapAll(g, MapAll(f, [[]])) == [[]]
  {
  }

  lemma OneEmptyPiece(a: seq<seq<Point>>)
    ensures SamePieces(a, [[]]) <==> a == [[]]
    ensures SamePieces([[]], a) <==> a == [[]]
    ensures SamePieces(a, []) <==> a == []
    ensures SamePieces([], a) <==> a == []
  {
    assert IsPermutation([0], 1) && IsPermutation([], 0);
    if a == [[]] {
      assert Matches(a, [[]], [0]);
    }
    if a == [] {
      assert Matches([], [], []);
    }
    if SamePieces(a, [[]]) {
      var p :| IsPermutation(p, 1) && Matches(a, [[]], p);
      assert SameRing(a[p[0]], [[]][0]);
      assert a == [a[0]];
    }
    if SamePieces([[]], a) {
      var p :| IsPermutation(p, 1) && Matches([[]], a, p);
      assert SameRing([[]][p[0]], a[0]);
      assert a == [a[0]];
    }
  }

  lemma MovedIsEmpty(f: Point -> Point, polygons: seq<seq<Point>>)
    ensures MapAll(f, polygons) == [] <==> polygons == []
    ensures MapAll(f, polygons) == [[]] <==> polygons == [[]]
  {
  }

  lemma PaddedSame(a: Cell, b: Cell)
    ensures SameCell(Padded(a), Padded(b)) <==> SameCell(a, b) || EmptyClash(a, b)
  {
    forall turn: nat, swapped, offset | turn < 4
      ensures SameCellBy(Padded(a), Padded(b), turn, swapped, offset) <==>
        SameCellBy(a, b, turn, swapped, offset)
        || (TurnedBasis(a, turn, swapped) == (b.first, b.second)
            && ((a.polygons == [] && b.polygons == [[]]) || (a.polygons == [[]] && b.polygons == [])))
    {
      PaddedSameBy(a, b, turn, swapped, offset);
    }
    if EmptyClash(a, b) {
      var turn: nat, swapped :| turn < 4 && BasisTurns(a, b, turn, swapped);
      assert SameCellBy(Padded(a), Padded(b), turn, swapped, Point(0, 0));
    }
    if SameCell(a, b) {
      var turn, swapped, offset :| SameCellBy(a, b, turn, swapped, offset);
      assert SameCellBy(Padded(a), Padded(b), turn, swapped, offset);
    }
    if SameCell(Padded(a), Padded(b)) {
      var turn, swapped, offset :| SameCellBy(Padded(a), Padded(b), turn, swapped, offset);
    }
  }

  lemma PaddedSameBy(a: Cell, b: Cell, turn: nat, swapped: bool, offset: Point)
    requires turn < 4
    ensures SameCellBy(Padded(a), Padded(b), turn, swapped, offset) <==>
      SameCellBy(a, b, turn, swapped, offset)
      || (TurnedBasis(a, turn, swapped) == (b.first, b.second)
          && ((a.polygons == [] && b.polygons == [[]]) || (a.polygons == [[]] && b.polygons == [])))
  {
    var f, g := RotateBy(turn), ShiftBy(offset);
    MovedIsEmpty(f, a.polygons);
    MovedIsEmpty(g, MapAll(f, a.polygons));
    MovedEmpty(f, g);
    OneEmptyPiece(b.polygons);
    OneEmptyPiece(MapAll(g, MapAll(f, a.polygons)));
    OneEmptyPiece([[]]);
  }

  /**
   The key is a complete invariant: cells of one role share it exactly when one becomes the other by
   a quarter turn, a translation of the members, a swap of the basis, a new order of the members and
   another start or direction of their rings; save that no member reads like one without vertices.
   */
  lemma KeyIsComplete(a: Cell, b: Cell)
    requires a.role == b.role
    ensures CellKey(a) == CellKey(b) <==> SameCell(a, b) || EmptyClash(a, b)
  {
    PaddedKey(a);
    PaddedKey(b);
    PaddedSame(a, b);
    if SameCell(Padded(a), Padded(b)) {
      SameCellSameKey(Padded(a), Padded(b));
    }
    if CellKey(a) == CellKey(b) {
      SameKeySameCell(Padded(a), Padded(b));
    }
  }

  /** The exception is real: these two cells differ and share a key. */
  lemma EmptyMemberClashes(first: Point, second: Point)
    ensures var a, b := Cell(P1, [], first, second), Cell(P1, [[]], first, second);
            CellKey(a) == CellKey(b) && !SameCell(a, b)
  {
    var a, b := Cell(P1, [], first, second), Cell(P1, [[]], first, second);
    PaddedKey(a);
    forall turn, swapped, offset ensures !SameCellBy(a, b, turn, swapped, offset) {
      MovedEmpty(RotateBy(turn), ShiftBy(offset));
    }
  }

  /** The key starts with the role's name. */
  lemma {:induction false} KeyShowsRole(cell: Cell)
    ensures |CellKey(cell)| >= 3 && CellKey(cell)[..3] == if cell.role == P1 then "P1:" else "P2:"
  {
    RoleIsInFront(cell.role, FirstSorted(CellVariants(cell)));
  }

  lemma RoleIsInFront(role: Role, rest: string)
    ensures var key := RoleText(role) + [':'] + rest;
            |key| >= 3 && key[..3] == if role == P1 then "P1:" else "P2:"
  {
    assert (RoleText(role) + [':'] + rest)[..3] == RoleText(role) + [':'];
  }

  lemma RolesDiffer(a: Cell, b: Cell)
    requires CellKey(a) == CellKey(b)
    ensures a.role == b.role
  {
    RoleIsRead(a.role, FirstSorted(CellVariants(a)), b.role, FirstSorted(CellVariants(b)));
  }

  lemma RoleIsRead(a: Role, x: string, b: Role, y: string)
    requires RoleText(a) + [':'] + x == RoleText(b) + [':'] + y
    ensures a == b
  {
    assert (RoleText(a) + [':'] + x)[1] == RoleText(a)[1];
    assert (RoleText(b) + [':'] + y)[1] == RoleText(b)[1];
  }
}
