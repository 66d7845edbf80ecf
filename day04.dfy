/**
 * Day 4: a warehouse map of empty floor (`.`) and paper rolls (`@`). A roll
 * can be moved when fewer than four of the (up to eight) tiles around it
 * hold rolls; the answer is the number of movable rolls.
 */
module Day04 {
  import opened Text

  datatype Tile = Empty | PaperRoll

  /** The map: rows of `width` tiles, stored one row after another. */
  datatype Warehouse = Warehouse(width: nat, tiles: seq<Tile>)

  /** `Warehouse::height`: the number of whole rows, `tiles.len() / width`.
      `RowsIn` counts them by repeated subtraction, which keeps division out
      of the proofs; `HeightIsQuotient` shows that the two agree. */
  function Height(w: Warehouse): nat
    requires w.width > 0
  {
    RowsIn(|w.tiles|, w.width)
  }

  function RowsIn(n: nat, d: nat): nat
    requires d > 0
    decreases n
  {
    if n < d then 0 else RowsIn(n - d, d) + 1
  }

  /** `y * d`, added up row by row. */
  function RowStart(y: nat, d: nat): nat {
    if y == 0 then 0 else RowStart(y - 1, d) + d
  }

  lemma {:induction false} RowStartIsProduct(y: nat, d: nat)
    ensures RowStart(y, d) == y * d
  {
    if y > 0 {
      RowStartIsProduct(y - 1, d);
      assert y * d == (y - 1) * d + d;
    }
  }

  lemma {:induction false} RowStartMonotone(y: nat, z: nat, d: nat)
    requires y <= z
    ensures RowStart(y, d) <= RowStart(z, d)
    decreases z
  {
    if y < z {
      RowStartMonotone(y, z - 1, d);
    }
  }

  /** The rows fit in the tiles, and none more does. */
  lemma {:induction false} RowsInBounds(n: nat, d: nat)
    requires d > 0
    ensures RowStart(RowsIn(n, d), d) <= n < RowStart(RowsIn(n, d), d) + d
    decreases n
  {
    if n >= d {
      RowsInBounds(n - d, d);
    }
  }

  lemma HeightIsQuotient(w: Warehouse)
    requires w.width > 0
    ensures Height(w) == |w.tiles| / w.width
  {
    RowsInBounds(|w.tiles|, w.width);
    RowStartIsProduct(Height(w), w.width);
    DivBetween(|w.tiles|, w.width, Height(w));
  }

  /** The only `h` with `h * d <= n < h * d + d` is `n / d`. */
  lemma DivBetween(n: nat, d: nat, h: nat)
    requires d > 0 && h * d <= n < h * d + d
    ensures n / d == h
  {
    var q := n / d;
    assert q * d <= n < q * d + d by {
      assert n == q * d + n % d;
    }
    if q < h {
      MulStep(q, h, d);
    } else if q > h {
      MulStep(h, q, d);
    }
  }

  lemma MulStep(a: nat, b: nat, d: nat)
    requires a < b
    ensures a * d + d <= b * d
  {
    MulMonotone(a + 1, b, d);
    assert (a + 1) * d == a * d + d;
  }

  /** A position lies on the map. */
  predicate OnMap(w: Warehouse, x: nat, y: nat) {
    w.width > 0 && x < w.width && y < Height(w)
  }

  // ---------------------------------------------------------------------
  // Indexing

  /** The slot of the tile at column `x`, row `y`, when rows are stored one
      after another: `x + y * width`. */
  function Slot(w: Warehouse, x: nat, y: nat): (i: nat)
    requires OnMap(w, x, y)
    ensures i < |w.tiles|
  {
    RowsInBounds(|w.tiles|, w.width);
    RowStartMonotone(y + 1, Height(w), w.width);
    x + RowStart(y, w.width)
  }

  /** The tile at column `x`, row `y`; off the map there is only floor. */
  function TileAt(w: Warehouse, x: nat, y: nat): Tile {
    if OnMap(w, x, y) then w.tiles[Slot(w, x, y)] else Empty
  }

  /** `Index::index`, with the slot computed as `x + y * width`: it panics
      exactly off the map and otherwise gives the tile there. */
  function Index(w: Warehouse, x: nat, y: nat): (r: Result<Tile>)
    requires w.width > 0
    ensures r.Panic? <==> !OnMap(w, x, y)
    ensures r.Ok? ==> r.value == TileAt(w, x, y)
    ensures !r.Err?
  {
    if x >= w.width || y >= Height(w) then Panic else Ok(w.tiles[Slot(w, x, y)])
  }

  /** `Index::index` as written: the slot is `x + y * height`, and a slot
      past the end of `tiles` panics as a vector index does. */
  function IndexAsWritten(w: Warehouse, x: nat, y: nat): Result<Tile>
    requires w.width > 0
  {
    if x >= w.width || y >= Height(w) then Panic
    else if x + RowStart(y, Height(w)) >= |w.tiles| then Panic
    else Ok(w.tiles[x + RowStart(y, Height(w))])
  }

  /** On a square map the two slot formulas agree. */
  lemma AsWrittenAgreesOnSquare(w: Warehouse, x: nat, y: nat)
    requires w.width > 0 && Height(w) == w.width
    ensures IndexAsWritten(w, x, y) == Index(w, x, y)
  {
  }

  /** A map of three columns and two rows, `@..` over `...`: the tile at
      column 0 of row 1 is empty, but the formula as written reads slot 2,
      the last tile of row 0. */
  lemma AsWrittenMisreads(w: Warehouse)
    requires w == Warehouse(3, [Empty, Empty, PaperRoll, Empty, Empty, Empty])
    ensures Index(w, 0, 1) == Ok(Empty)
    ensures IndexAsWritten(w, 0, 1) == Ok(PaperRoll)
  {
    assert |w.tiles| == 6 && RowsIn(6, 3) == 2;
  }

  /** A map one column wide and three rows high: row 2 is on the map, but the
      formula as written reads slot 6 of 3 and panics. */
  lemma AsWrittenPanicsOnMap(w: Warehouse)
    requires w == Warehouse(1, [PaperRoll, PaperRoll, PaperRoll])
    ensures OnMap(w, 0, 2) && Index(w, 0, 2) == Ok(PaperRoll)
    ensures IndexAsWritten(w, 0, 2) == Panic
  {
    assert |w.tiles| == 3 && RowsIn(3, 1) == 3;
  }

  // ---------------------------------------------------------------------
  // Neighbours

  /** The positions of column `a` with rows `lo <= b < hi`, skipping
      `(x, y)`, in row order. */
  function ColumnPositions(a: nat, lo: nat, hi: nat, x: nat, y: nat): seq<(nat, nat)>
    requires lo <= hi
    decreases hi
  {
    if hi == lo then []
    else ColumnPositions(a, lo, hi - 1, x, y) + (if (a, hi - 1) != (x, y) then [(a, hi - 1)] else [])
  }

  /** The positions of columns `loX <= a < hiX`, each column as
      `ColumnPositions`. */
  function BlockPositions(loX: nat, hiX: nat, loY: nat, hiY: nat, x: nat, y: nat): seq<(nat, nat)>
    requires loX <= hiX && loY <= hiY
    decreases hiX
  {
    if hiX == loX then []
    else BlockPositions(loX, hiX - 1, loY, hiY, x, y) + ColumnPositions(hiX - 1, loY, hiY, x, y)
  }

  /** The lower end of the clipped range `v - 1 ..= v + 1`. */
  function Below(v: nat): nat {
    if v == 0 then 0 else v - 1
  }

  /** The upper end of the clipped range `v - 1 ..= v + 1` below `limit`. */
  function Above(v: nat, limit: nat): nat
    requires limit > 0
  {
    if v + 1 < limit - 1 then v + 1 else limit - 1
  }

  /** The positions `neighbors` visits, in its loop order. */
  function NeighborPositions(w: Warehouse, x: nat, y: nat): seq<(nat, nat)>
    requires w.width > 0 && Height(w) > 0
  {
    if Below(x) > Above(x, w.width) || Below(y) > Above(y, Height(w)) then []
    else BlockPositions(Below(x), Above(x, w.width) + 1, Below(y), Above(y, Height(w)) + 1, x, y)
  }

  lemma {:induction false} ColumnMembers(a: nat, lo: nat, hi: nat, x: nat, y: nat)
    requires lo <= hi
    ensures forall p :: p in ColumnPositions(a, lo, hi, x, y) <==> p.0 == a && lo <= p.1 < hi && p != (x, y)
    decreases hi
  {
    if hi > lo {
      ColumnMembers(a, lo, hi - 1, x, y);
    }
  }

  lemma {:induction false} ColumnLength(a: nat, lo: nat, hi: nat, x: nat, y: nat)
    requires lo <= hi
    ensures |ColumnPositions(a, lo, hi, x, y)| == hi - lo - (if a == x && lo <= y < hi then 1 else 0)
    decreases hi
  {
    if hi > lo {
      ColumnLength(a, lo, hi - 1, x, y);
    }
  }

  lemma {:induction false} BlockMembers(loX: nat, hiX: nat, loY: nat, hiY: nat, x: nat, y: nat)
    requires loX <= hiX && loY <= hiY
    ensures forall p :: p in BlockPositions(loX, hiX, loY, hiY, x, y) <==>
                          loX <= p.0 < hiX && loY <= p.1 < hiY && p != (x, y)
    decreases hiX
  {
    if hiX > loX {
      var before, column := BlockPositions(loX, hiX - 1, loY, hiY, x, y), ColumnPositions(hiX - 1, loY, hiY, x, y);
      assert BlockPositions(loX, hiX, loY, hiY, x, y) == before + column;
      BlockMembers(loX, hiX - 1, loY, hiY, x, y);
      ColumnMembers(hiX - 1, loY, hiY, x, y);
      forall p: (nat, nat)
        ensures p in before + column <==> loX <= p.0 < hiX && loY <= p.1 < hiY && p != (x, y)
      {
        assert p in before <==> loX <= p.0 < hiX - 1 && loY <= p.1 < hiY && p != (x, y);
        assert p in column <==> p.0 == hiX - 1 && loY <= p.1 < hiY && p != (x, y);
        assert p in before + column <==> p in before || p in column;
      }
    }
  }

  /** A block of `columns` columns of `rows` positions each, less `(x, y)`
      when it lies inside. */
  lemma {:induction false} BlockLength(loX: nat, hiX: nat, loY: nat, hiY: nat, x: nat, y: nat)
    requires loX <= hiX && loY <= hiY
    ensures |BlockPositions(loX, hiX, loY, hiY, x, y)| + (if loX <= x < hiX && loY <= y < hiY then 1 else 0)
            == Area(hiX - loX, hiY - loY)
    decreases hiX
  {
    if hiX > loX {
      BlockLength(loX, hiX - 1, loY, hiY, x, y);
      ColumnLength(hiX - 1, loY, hiY, x, y);
    }
  }

  /** `columns * rows`, counted column by column. */
  function Area(columns: nat, rows: nat): nat {
    if columns == 0 then 0 else Area(columns - 1, rows) + rows
  }

  lemma {:induction false} BlockDistinct(loX: nat, hiX: nat, loY: nat, hiY: nat, x: nat, y: nat)
    requires loX <= hiX && loY <= hiY
    ensures Distinct(BlockPositions(loX, hiX, loY, hiY, x, y))
    decreases hiX
  {
    if hiX > loX {
      BlockDistinct(loX, hiX - 1, loY, hiY, x, y);
      ColumnDistinct(hiX - 1, loY, hiY, x, y);
      BlockBeforeColumn(loX, hiX - 1, loY, hiY, x, y);
      DistinctAppend(BlockPositions(loX, hiX - 1, loY, hiY, x, y), ColumnPositions(hiX - 1, loY, hiY, x, y));
    }
  }

  /** The columns before `a` share no position with column `a`. */
  lemma BlockBeforeColumn(loX: nat, a: nat, loY: nat, hiY: nat, x: nat, y: nat)
    requires loX <= a && loY <= hiY
    ensures forall v :: v in BlockPositions(loX, a, loY, hiY, x, y) ==> v !in ColumnPositions(a, loY, hiY, x, y)
  {
    BlockMembers(loX, a, loY, hiY, x, y);
    ColumnMembers(a, loY, hiY, x, y);
  }

  lemma {:induction false} ColumnDistinct(a: nat, lo: nat, hi: nat, x: nat, y: nat)
    requires lo <= hi
    ensures Distinct(ColumnPositions(a, lo, hi, x, y))
    decreases hi
  {
    if hi > lo {
      ColumnDistinct(a, lo, hi - 1, x, y);
      ColumnMembers(a, lo, hi - 1, x, y);
      DistinctAppend(ColumnPositions(a, lo, hi - 1, x, y), if (a, hi - 1) != (x, y) then [(a, hi - 1)] else []);
    }
  }

  /** No element occurs twice. */
  predicate Distinct<T(==)>(s: seq<T>) {
    forall i, j :: 0 <= i < j < |s| ==> s[i] != s[j]
  }

  lemma DistinctAppend<T>(a: seq<T>, b: seq<T>)
    requires Distinct(a) && Distinct(b)
    requires forall v :: v in a ==> v !in b
    ensures Distinct(a + b)
  {
    forall i, j | 0 <= i < j < |a + b|
      ensures (a + b)[i] != (a + b)[j]
    {
      if i < |a| && j >= |a| {
        assert (a + b)[i] in a && (a + b)[j] in b;
      }
    }
  }

  /** Two positions are next to each other: at most one step apart in each
      coordinate, and not the same. */
  predicate Adjacent(p: (nat, nat), x: nat, y: nat) {
    p.0 <= x + 1 && x <= p.0 + 1 && p.1 <= y + 1 && y <= p.1 + 1 && p != (x, y)
  }

  /** `neighbors` visits exactly the map positions next to `(x, y)`. */
  lemma NeighborPositionsExactly(w: Warehouse, x: nat, y: nat)
    requires w.width > 0 && Height(w) > 0
    ensures forall p :: p in NeighborPositions(w, x, y) <==> Adjacent(p, x, y) && OnMap(w, p.0, p.1)
  {
    var minX, maxX, minY, maxY := Below(x), Above(x, w.width), Below(y), Above(y, Height(w));
    if minX <= maxX && minY <= maxY {
      BlockMembers(minX, maxX + 1, minY, maxY + 1, x, y);
    }
  }

  /** ... each of them once ... */
  lemma NeighborPositionsDistinct(w: Warehouse, x: nat, y: nat)
    requires w.width > 0 && Height(w) > 0
    ensures Distinct(NeighborPositions(w, x, y))
  {
    var minX, maxX, minY, maxY := Below(x), Above(x, w.width), Below(y), Above(y, Height(w));
    if minX <= maxX && minY <= maxY {
      BlockDistinct(minX, maxX + 1, minY, maxY + 1, x, y);
    }
  }

  /** ... and for a position on the map at most eight of them. */
  lemma NeighborPositionsAtMostEight(w: Warehouse, x: nat, y: nat)
    requires OnMap(w, x, y)
    ensures |NeighborPositions(w, x, y)| <= 8
  {
    var minX, maxX, minY, maxY := Below(x), Above(x, w.width), Below(y), Above(y, Height(w));
    BlockLength(minX, maxX + 1, minY, maxY + 1, x, y);
    AreaAtMostNine(maxX + 1 - minX, maxY + 1 - minY);
  }

  lemma AreaAtMostNine(columns: nat, rows: nat)
    requires columns <= 3 && rows <= 3
    ensures Area(columns, rows) <= 9
  {
    assert Area(columns, rows) <= Area(3, rows) by {
      if columns < 3 {
        assert Area(3, rows) == Area(2, rows) + rows;
        assert Area(2, rows) == Area(1, rows) + rows;
        assert Area(1, rows) == Area(0, rows) + rows;
      }
    }
    assert Area(3, rows) == Area(2, rows) + rows;
    assert Area(2, rows) == Area(1, rows) + rows;
    assert Area(1, rows) == Area(0, rows) + rows;
  }

  /** The tiles at some positions of the map. */
  function TilesAt(w: Warehouse, ps: seq<(nat, nat)>): (ts: seq<Tile>)
  {
    seq(|ps|, i requires 0 <= i < |ps| => TileAt(w, ps[i].0, ps[i].1))
  }

  /** `Warehouse::neighbors`: the tiles of the clipped 3x3 block around
      `(x, y)`, column by column, without `(x, y)` itself. The source
      computes `width - 1` and `height() - 1` in `usize`, so the map must
      not be empty. */
  method Neighbors(w: Warehouse, x: nat, y: nat) returns (neighbors: seq<Tile>)
    requires w.width > 0 && Height(w) > 0
    ensures neighbors == TilesAt(w, NeighborPositions(w, x, y))
  {
    var height := Height(w);
    var minX := Below(x);
    var maxX := Above(x, w.width);
    var minY := Below(y);
    var maxY := Above(y, height);
    neighbors := [];
    if minX > maxX || minY > maxY {
      assert NeighborPositions(w, x, y) == [];
      return;
    }
    assert NeighborPositions(w, x, y) == BlockPositions(minX, maxX + 1, minY, maxY + 1, x, y);
    for a := minX to maxX + 1
      invariant neighbors == TilesAt(w, BlockPositions(minX, a, minY, maxY + 1, x, y))
    {
      var column := ColumnNeighbors(w, a, minY, maxY, x, y);
      NextColumnTiles(w, minX, a, minY, maxY + 1, x, y);
      neighbors := neighbors + column;
    }
  }

  /** The inner loop of `neighbors`: the tiles of column `a` from row `minY`
      to row `maxY`, skipping `(x, y)`. */
  method ColumnNeighbors(w: Warehouse, a: nat, minY: nat, maxY: nat, x: nat, y: nat) returns (tiles: seq<Tile>)
    requires w.width > 0 && a < w.width && minY <= maxY < Height(w)
    ensures tiles == TilesAt(w, ColumnPositions(a, minY, maxY + 1, x, y))
  {
    tiles := [];
    for b := minY to maxY + 1
      invariant tiles == TilesAt(w, ColumnPositions(a, minY, b, x, y))
    {
      ColumnStep(a, minY, b, x, y);
      if (a, b) != (x, y) {
        var tile := Index(w, a, b);
        assert tile.value == TileAt(w, a, b);
        TilesAtSnoc(w, ColumnPositions(a, minY, b, x, y), (a, b));
        tiles := tiles + [tile.value];
      }
    }
  }

  lemma ColumnStep(a: nat, lo: nat, b: nat, x: nat, y: nat)
    requires lo <= b
    ensures (a, b) != (x, y) ==> ColumnPositions(a, lo, b + 1, x, y) == ColumnPositions(a, lo, b, x, y) + [(a, b)]
    ensures (a, b) == (x, y) ==> ColumnPositions(a, lo, b + 1, x, y) == ColumnPositions(a, lo, b, x, y)
  {
    assert ColumnPositions(a, lo, b, x, y) + [] == ColumnPositions(a, lo, b, x, y);
  }

  lemma NextColumnTiles(w: Warehouse, loX: nat, a: nat, loY: nat, hiY: nat, x: nat, y: nat)
    requires loX <= a && loY <= hiY
    ensures TilesAt(w, BlockPositions(loX, a + 1, loY, hiY, x, y))
            == TilesAt(w, BlockPositions(loX, a, loY, hiY, x, y)) + TilesAt(w, ColumnPositions(a, loY, hiY, x, y))
  {
    BlockStep(loX, a, loY, hiY, x, y);
    TilesAtAppend(w, BlockPositions(loX, a, loY, hiY, x, y), ColumnPositions(a, loY, hiY, x, y));
  }

  lemma BlockStep(loX: nat, a: nat, loY: nat, hiY: nat, x: nat, y: nat)
    requires loX <= a && loY <= hiY
    ensures BlockPositions(loX, a + 1, loY, hiY, x, y)
            == BlockPositions(loX, a, loY, hiY, x, y) + ColumnPositions(a, loY, hiY, x, y)
  {
  }

  lemma {:induction false} TilesAtAppend(w: Warehouse, ps: seq<(nat, nat)>, qs: seq<(nat, nat)>)
    ensures TilesAt(w, ps + qs) == TilesAt(w, ps) + TilesAt(w, qs)
    decreases |qs|
  {
    if qs == [] {
      assert ps + qs == ps;
    } else {
      var init, last := qs[..|qs| - 1], qs[|qs| - 1];
      assert qs == init + [last];
      assert ps + qs == (ps + init) + [last];
      TilesAtAppend(w, ps, init);
      TilesAtSnoc(w, ps + init, last);
      TilesAtSnoc(w, init, last);
    }
  }

  lemma TilesAtSnoc(w: Warehouse, ps: seq<(nat, nat)>, p: (nat, nat))
    ensures TilesAt(w, ps + [p]) == TilesAt(w, ps) + [TileAt(w, p.0, p.1)]
  {
    assert (ps + [p])[..|ps|] == ps;
  }

  // ---------------------------------------------------------------------
  // Movable rolls

  /** The number of paper rolls among some tiles. */
  function RollCount(ts: seq<Tile>): (n: nat)
    ensures n <= |ts|
  {
    if ts == [] then 0
    else RollCount(ts[..|ts| - 1]) + (if ts[|ts| - 1] == PaperRoll then 1 else 0)
  }

  /** A roll with fewer than four rolls next to it. */
  predicate IsMovable(w: Warehouse, x: nat, y: nat)
    requires OnMap(w, x, y)
  {
    TileAt(w, x, y) == PaperRoll && RollCount(TilesAt(w, NeighborPositions(w, x, y))) < 4
  }

  /** The positions `(a, b)` of a `width` by `height` map that a column by
      column walk passes before `(x, y)` and that `keep` selects. */
  ghost function PositionsBefore(width: nat, height: nat, keep: (nat, nat) -> bool, x: nat, y: nat): set<(nat, nat)> {
    set a: nat, b: nat | a < width && b < height && (a < x || (a == x && b < y)) && keep(a, b) :: (a, b)
  }

  /** The number of those positions, counted one position at a time in
      the order of the walk. */
  function CountBefore(width: nat, height: nat, keep: (nat, nat) -> bool, x: nat, y: nat): nat
    decreases x, y
  {
    if y > 0 then CountBefore(width, height, keep, x, y - 1) + (if x < width && y - 1 < height && keep(x, y - 1) then 1 else 0)
    else if x == 0 then 0
    else CountBefore(width, height, keep, x - 1, height)
  }

  lemma PositionsNextRow(width: nat, height: nat, keep: (nat, nat) -> bool, x: nat, y: nat)
    ensures x < width && y < height && keep(x, y) ==>
              |PositionsBefore(width, height, keep, x, y + 1)| == |PositionsBefore(width, height, keep, x, y)| + 1
    ensures !(x < width && y < height && keep(x, y)) ==>
              PositionsBefore(width, height, keep, x, y + 1) == PositionsBefore(width, height, keep, x, y)
  {
    if x < width && y < height && keep(x, y) {
      assert PositionsBefore(width, height, keep, x, y + 1) == PositionsBefore(width, height, keep, x, y) + {(x, y)};
    }
  }

  lemma PositionsNextColumn(width: nat, height: nat, keep: (nat, nat) -> bool, x: nat)
    ensures PositionsBefore(width, height, keep, x + 1, 0) == PositionsBefore(width, height, keep, x, height)
  {
  }

  lemma NoneBefore(width: nat, height: nat, keep: (nat, nat) -> bool)
    ensures PositionsBefore(width, height, keep, 0, 0) == {}
  {
  }

  /** Counting one position at a time counts the set. */
  lemma {:induction false} CountBeforeIsCard(width: nat, height: nat, keep: (nat, nat) -> bool, x: nat, y: nat)
    ensures CountBefore(width, height, keep, x, y) == |PositionsBefore(width, height, keep, x, y)|
    decreases x, y
  {
    if y > 0 {
      CountBeforeIsCard(width, height, keep, x, y - 1);
      PositionsNextRow(width, height, keep, x, y - 1);
    } else if x == 0 {
      NoneBefore(width, height, keep);
    } else {
      CountBeforeIsCard(width, height, keep, x - 1, height);
      PositionsNextColumn(width, height, keep, x - 1);
    }
  }

  /** The test `movable_rolls` applies to each position. */
  ghost function MovableAt(w: Warehouse): (nat, nat) -> bool {
    (a: nat, b: nat) => OnMap(w, a, b) && IsMovable(w, a, b)
  }

  /** The movable rolls the loops of `movable_rolls` have passed before
      reaching `(x, y)`: all of the earlier columns, then the earlier rows
      of column `x`. */
  ghost function MovableBefore(w: Warehouse, x: nat, y: nat): set<(nat, nat)>
    requires w.width > 0
  {
    PositionsBefore(w.width, Height(w), MovableAt(w), x, y)
  }

  /** Every movable roll of the map. */
  ghost function MovableRollPositions(w: Warehouse): set<(nat, nat)> {
    if w.width == 0 then {} else MovableBefore(w, w.width, 0)
  }

  /** Every roll of the map. */
  ghost function RollPositions(w: Warehouse): set<(nat, nat)> {
    if w.width == 0 then {}
    else set a: nat, b: nat | a < w.width && b < Height(w) && TileAt(w, a, b) == PaperRoll :: (a, b)
  }

  /** `Warehouse::movable_rolls`: every map position, column by column,
      counting the movable rolls. */
  method MovableRolls(w: Warehouse) returns (movableRolls: nat)
    ensures movableRolls == |MovableRollPositions(w)|
  {
    movableRolls := 0;
    if w.width == 0 {
      return;
    }
    for x := 0 to w.width
      invariant movableRolls == CountBefore(w.width, Height(w), MovableAt(w), x, 0)
    {
      for y := 0 to Height(w)
        invariant movableRolls == CountBefore(w.width, Height(w), MovableAt(w), x, y)
      {
        var movable := TestTile(w, x, y);
        assert MovableAt(w)(x, y) == movable;
        if movable {
          movableRolls := movableRolls + 1;
        }
      }
    }
    CountBeforeIsCard(w.width, Height(w), MovableAt(w), w.width, 0);
  }

  /** The body of the inner loop of `movable_rolls`: the tile at `(x, y)` is
      a roll with fewer than four rolls among its neighbours. */
  method TestTile(w: Warehouse, x: nat, y: nat) returns (movable: bool)
    requires OnMap(w, x, y)
    ensures movable <==> IsMovable(w, x, y)
  {
    movable := false;
    var tile := Index(w, x, y);
    assert tile.value == TileAt(w, x, y);
    if tile.value == PaperRoll {
      var neighbors := Neighbors(w, x, y);
      var adjacentRolls := RollCount(neighbors);
      if adjacentRolls < 4 {
        movable := true;
      }
    }
  }

  /** The rolls next to `(x, y)`. */
  ghost function AdjacentRolls(w: Warehouse, x: nat, y: nat): set<(nat, nat)>
    requires w.width > 0
  {
    set a: nat, b: nat | a < w.width && b < Height(w) && Adjacent((a, b), x, y) && TileAt(w, a, b) == PaperRoll :: (a, b)
  }

  /** The rolls found at some positions. */
  ghost function RollsAmong(w: Warehouse, ps: seq<(nat, nat)>): set<(nat, nat)> {
    set p | p in ps && TileAt(w, p.0, p.1) == PaperRoll
  }

  /** Counting the rolls of the tiles at distinct positions counts the
      positions that hold rolls. */
  lemma {:induction false} RollCountOfDistinct(w: Warehouse, ps: seq<(nat, nat)>)
    requires Distinct(ps)
    ensures RollCount(TilesAt(w, ps)) == |RollsAmong(w, ps)|
    decreases |ps|
  {
    if ps != [] {
      var init, p := ps[..|ps| - 1], ps[|ps| - 1];
      assert TilesAt(w, ps)[..|ps| - 1] == TilesAt(w, init);
      RollCountOfDistinct(w, init);
      assert ps == init + [p];
      assert p !in init;
      if TileAt(w, p.0, p.1) == PaperRoll {
        assert RollsAmong(w, ps) == RollsAmong(w, init) + {p};
      } else {
        assert RollsAmong(w, ps) == RollsAmong(w, init);
      }
    }
  }

  /** A roll is movable exactly when fewer than four rolls lie next to it. */
  lemma MovableMeans(w: Warehouse, x: nat, y: nat)
    requires OnMap(w, x, y)
    ensures IsMovable(w, x, y) <==> TileAt(w, x, y) == PaperRoll && |AdjacentRolls(w, x, y)| < 4
  {
    NeighborPositionsExactly(w, x, y);
    NeighborPositionsDistinct(w, x, y);
    RollCountOfDistinct(w, NeighborPositions(w, x, y));
    assert RollsAmong(w, NeighborPositions(w, x, y)) == AdjacentRolls(w, x, y);
  }

  /** Only rolls are counted. */
  lemma MovableAreRolls(w: Warehouse)
    ensures MovableRollPositions(w) <= RollPositions(w)
    ensures |MovableRollPositions(w)| <= |RollPositions(w)|
  {
    SubsetCard(MovableRollPositions(w), RollPositions(w));
  }

  lemma {:induction false} SubsetCard<T>(a: set<T>, b: set<T>)
    requires a <= b
    ensures |a| <= |b|
    decreases |a|
  {
    if a != {} {
      var v :| v in a;
      SubsetCard(a - {v}, b - {v});
    }
  }

  // ---------------------------------------------------------------------
  // Parsing

  /** The number of bytes of a character in UTF-8 (`str::len` counts
      bytes). */
  function Utf8Width(c: char): nat {
    if c as int < 0x80 then 1 else if c as int < 0x800 then 2 else if c as int < 0x1_0000 then 3 else 4
  }

  function Utf8Length(s: string): (n: nat)
    ensures n >= |s|
  {
    if s == [] then 0 else Utf8Length(s[..|s| - 1]) + Utf8Width(s[|s| - 1])
  }

  /** The tile a map character stands for; other characters are skipped. */
  function TileOf(c: char): Option<Tile> {
    if c == '.' then Some(Empty) else if c == '@' then Some(PaperRoll) else None
  }

  /** The tiles of a map text: its `.` and `@` characters, in order. */
  function TilesOf(s: string): (ts: seq<Tile>)
    ensures |ts| <= |s|
  {
    if s == [] then []
    else
      var last := s[|s| - 1];
      TilesOf(s[..|s| - 1]) + (if TileOf(last).Some? then [TileOf(last).value] else [])
  }

  /** `usize::is_multiple_of`: only 0 is a multiple of 0. */
  predicate IsMultipleOf(n: nat, d: nat) {
    if d == 0 then n == 0 else n % d == 0
  }

  /** `Warehouse::from_str`. */
  function WarehouseFromStr(s: string): (r: Result<Warehouse>)
    ensures !r.Panic?
  {
    var lines := Lines(s);
    if lines == [] then Err
    else
      var width := Utf8Length(lines[0]);
      var tiles := TilesOf(s);
      if !IsMultipleOf(|tiles|, width) then Err
      else Ok(Warehouse(width, tiles))
  }

  /** Reading fails exactly for the empty text and for a tile count that is
      not a multiple of the first line's length; otherwise every tile is
      kept and the width is that length. */
  lemma WarehouseFromStrReads(s: string)
    ensures WarehouseFromStr(s).Err? <==>
              s == [] || !IsMultipleOf(|TilesOf(s)|, Utf8Length(Lines(s)[0]))
    ensures WarehouseFromStr(s).Ok? ==>
              WarehouseFromStr(s) == Ok(Warehouse(Utf8Length(Lines(s)[0]), TilesOf(s)))
  {
  }

  /** A map that was read is filled by whole rows. */
  lemma RowsFillMap(w: Warehouse)
    requires w.width > 0 && IsMultipleOf(|w.tiles|, w.width)
    ensures |w.tiles| == Height(w) * w.width
  {
    var n, d := |w.tiles|, w.width;
    HeightIsQuotient(w);
    assert n == (n / d) * d + n % d;
  }

  lemma {:induction false} TilesOfAppend(a: string, b: string)
    ensures TilesOf(a + b) == TilesOf(a) + TilesOf(b)
    decreases |b|
  {
    if b == [] {
      assert a + b == a;
    } else {
      var ab := a + b;
      assert ab[..|ab| - 1] == a + b[..|b| - 1];
      assert ab[|ab| - 1] == b[|b| - 1];
      TilesOfAppend(a, b[..|b| - 1]);
    }
  }

  // ---------------------------------------------------------------------
  // Map texts

  /** The character a tile is drawn with. */
  function TileChar(t: Tile): (c: char)
    ensures TileOf(c) == Some(t)
  {
    match t
    case Empty => '.'
    case PaperRoll => '@'
  }

  /** One row of a map, drawn. */
  function RowText(row: seq<Tile>): (s: string)
    ensures |s| == |row|
  {
    if row == [] then [] else RowText(row[..|row| - 1]) + [TileChar(row[|row| - 1])]
  }

  /** A map drawn row by row, each row ended by a newline. */
  function GridText(rows: seq<seq<Tile>>): string {
    if rows == [] then [] else RowText(rows[0]) + "\n" + GridText(rows[1..])
  }

  /** The rows of a map, one after another. */
  function Flatten(rows: seq<seq<Tile>>): seq<Tile> {
    if rows == [] then [] else rows[0] + Flatten(rows[1..])
  }

  lemma RowTextReads(row: seq<Tile>)
    ensures TilesOf(RowText(row)) == row
    ensures Utf8Length(RowText(row)) == |row|
    ensures '\n' !in RowText(row) && '\r' !in RowText(row)
  {
    RowTextTiles(row);
    RowTextWidth(row);
    RowTextAvoids(row);
  }

  lemma {:induction false} RowTextTiles(row: seq<Tile>)
    ensures TilesOf(RowText(row)) == row
    decreases |row|
  {
    if row != [] {
      var init, last := row[..|row| - 1], row[|row| - 1];
      RowTextTiles(init);
      var s := RowText(row);
      assert s == RowText(init) + [TileChar(last)];
      assert s[..|s| - 1] == RowText(init);
      assert TilesOf(s) == TilesOf(RowText(init)) + [last];
      assert row == init + [last];
    }
  }

  lemma {:induction false} RowTextWidth(row: seq<Tile>)
    ensures Utf8Length(RowText(row)) == |row|
    decreases |row|
  {
    if row != [] {
      var init := row[..|row| - 1];
      RowTextWidth(init);
      var s := RowText(row);
      assert s[..|s| - 1] == RowText(init);
    }
  }

  lemma {:induction false} RowTextAvoids(row: seq<Tile>)
    ensures '\n' !in RowText(row) && '\r' !in RowText(row)
    decreases |row|
  {
    if row != [] {
      RowTextAvoids(row[..|row| - 1]);
    }
  }

  lemma {:induction false} GridTextTiles(rows: seq<seq<Tile>>)
    ensures TilesOf(GridText(rows)) == Flatten(rows)
    decreases |rows|
  {
    if rows != [] {
      var first, rest := RowText(rows[0]), GridText(rows[1..]);
      GridTextTiles(rows[1..]);
      RowTextReads(rows[0]);
      TilesOfAppend(first + "\n", rest);
      TilesOfAppend(first, "\n");
      assert TilesOf("\n") == [] by {
        assert "\n"[..0] == [];
      }
    }
  }

  lemma {:induction false} FlattenLength(rows: seq<seq<Tile>>, n: nat)
    requires forall i :: 0 <= i < |rows| ==> |rows[i]| == n
    ensures |Flatten(rows)| == RowStart(|rows|, n)
    decreases |rows|
  {
    if rows != [] {
      FlattenLength(rows[1..], n);
      RowStartShift(|rows| - 1, n);
    }
  }

  /** `RowStart(y + 1, d)` also adds the first row before the others. */
  lemma {:induction false} RowStartShift(y: nat, d: nat)
    ensures RowStart(y + 1, d) == d + RowStart(y, d)
  {
  }

  lemma {:induction false} FlattenIndex(rows: seq<seq<Tile>>, n: nat, x: nat, y: nat)
    requires forall i :: 0 <= i < |rows| ==> |rows[i]| == n
    requires x < n && y < |rows|
    ensures x + RowStart(y, n) < |Flatten(rows)| && Flatten(rows)[x + RowStart(y, n)] == rows[y][x]
    decreases y
  {
    FlattenLength(rows, n);
    RowStartMonotone(y + 1, |rows|, n);
    if y > 0 {
      FlattenIndex(rows[1..], n, x, y - 1);
      FlattenLength(rows[1..], n);
      RowStartShift(y - 1, n);
    }
  }

  lemma {:induction false} RowsInRowStart(k: nat, d: nat)
    requires d > 0
    ensures RowsIn(RowStart(k, d), d) == k
    decreases k
  {
    if k > 0 {
      RowsInRowStart(k - 1, d);
    }
  }

  lemma MultipleOfRowStart(k: nat, d: nat)
    ensures IsMultipleOf(RowStart(k, d), d)
  {
    RowStartIsProduct(k, d);
    if d > 0 {
      RowsInRowStart(k, d);
      RowsInBounds(RowStart(k, d), d);
      DivBetween(k * d, d, k);
      assert k * d == ((k * d) / d) * d + (k * d) % d;
    }
  }

  /** A map drawn with rows of equal length, the first of them not empty,
      reads back as those rows: the width is the row length and the tiles
      are the rows one after another ... */
  lemma GridRoundTrip(rows: seq<seq<Tile>>, n: nat)
    requires |rows| >= 1 && n > 0
    requires forall i :: 0 <= i < |rows| ==> |rows[i]| == n
    ensures WarehouseFromStr(GridText(rows)) == Ok(Warehouse(n, Flatten(rows)))
  {
    RowTextReads(rows[0]);
    LinesCons(RowText(rows[0]), GridText(rows[1..]));
    GridTextTiles(rows);
    FlattenLength(rows, n);
    MultipleOfRowStart(|rows|, n);
  }

  /** ... so the height is the number of rows, and `Index` gives the tile
      drawn at column `x` of row `y`, and panics off the drawing. */
  lemma GridIndex(rows: seq<seq<Tile>>, n: nat, x: nat, y: nat)
    requires |rows| >= 1 && n > 0
    requires forall i :: 0 <= i < |rows| ==> |rows[i]| == n
    ensures Height(Warehouse(n, Flatten(rows))) == |rows|
    ensures x < n && y < |rows| ==> Index(Warehouse(n, Flatten(rows)), x, y) == Ok(rows[y][x])
    ensures x >= n || y >= |rows| ==> Index(Warehouse(n, Flatten(rows)), x, y) == Panic
  {
    FlattenLength(rows, n);
    RowsInRowStart(|rows|, n);
    if x < n && y < |rows| {
      FlattenIndex(rows, n, x, y);
    }
  }
}
