/** The dungeon grid of the browser game (scripts/game_backup.js): integer
    directions, tiles placed at multiples of the tile width, the test that a
    creature stands inside a tile, world-to-index rounding, and the loading of
    the dungeon from the integer code grid sent by the server. */
module Grid {
  import opened Wrappers

  /** TILE_WIDTH: the side of one tile in world units. */
  const TileWidth: int := 200

  /** Direction.NORTH, EAST, SOUTH and WEST. */
  const North: int := 0
  const East: int := 1
  const South: int := 2
  const West: int := 3

  /** Grid indices `{x, y}` of a tile. */
  datatype Coord = Coord(x: int, y: int)

  /** A position in world space (a creature's `x` and `y`). */
  datatype Point = Point(x: int, y: int)

  /** The two tile constructors the grid uses. */
  datatype Kind = Floor | Wall

  /** A tile: its constructor and its world-space centre. */
  datatype Tile = Tile(kind: Kind, x: int, y: int)

  /** `game.dungeon`: columns of cells indexed `[x][y]`; `None` is an undefined cell. */
  type Dungeon = seq<seq<Option<Tile>>>

  // ---------------------------------------------------------------------------
  // Directions
  // ---------------------------------------------------------------------------

  /** Direction.getAdjacentCoords: the neighbouring indices in direction `dir`;
      `None` where the source throws because `dir` is not a direction. */
  function AdjacentCoords(x: int, y: int, dir: int): (r: Option<Coord>)
    ensures r.Some? <==> 0 <= dir < 4
    ensures dir == North ==> r == Some(Coord(x, y - 1))
    ensures dir == East ==> r == Some(Coord(x + 1, y))
    ensures dir == South ==> r == Some(Coord(x, y + 1))
    ensures dir == West ==> r == Some(Coord(x - 1, y))
  {
    if dir == North then Some(Coord(x, y - 1))
    else if dir == East then Some(Coord(x + 1, y))
    else if dir == South then Some(Coord(x, y + 1))
    else if dir == West then Some(Coord(x - 1, y))
    else None
  }

  /** The neighbour of `c` in a direction known to be valid. */
  function Step(c: Coord, dir: int): Coord
    requires 0 <= dir < 4
  {
    AdjacentCoords(c.x, c.y, dir).value
  }

  /** Stepping in `dir` and then in the opposite direction `(dir + 2) % 4`
      returns to the start. */
  lemma AdjacentUndo(x: int, y: int, dir: int)
    requires 0 <= dir < 4
    ensures var c := AdjacentCoords(x, y, dir).value;
            AdjacentCoords(c.x, c.y, (dir + 2) % 4) == Some(Coord(x, y))
  {
  }

  /** The four directions lead to four different neighbours. */
  lemma AdjacentInjective(x: int, y: int, d1: int, d2: int)
    requires 0 <= d1 < 4 && 0 <= d2 < 4
    ensures AdjacentCoords(x, y, d1) == AdjacentCoords(x, y, d2) ==> d1 == d2
  {
  }

  // ---------------------------------------------------------------------------
  // Tiles and creatures
  // ---------------------------------------------------------------------------

  /** The world-space centre of the tile with indices `c` (`x*TILE_WIDTH`). */
  function WorldOf(c: Coord): Point
  {
    Point(c.x * TileWidth, c.y * TileWidth)
  }

  /** containsCreature: the creature's position lies strictly inside the
      tile's square of side TILE_WIDTH. For a tile placed on the grid, such a
      creature's tile indices are the tile's own. */
  function ContainsCreature(t: Tile, p: Point): (r: bool)
    ensures r && t.x % TileWidth == 0 && t.y % TileWidth == 0 ==>
      TileIndices(p) == Coord(t.x / TileWidth, t.y / TileWidth)
  {
    t.x - TileWidth / 2 < p.x < t.x + TileWidth / 2 &&
    t.y - TileWidth / 2 < p.y < t.y + TileWidth / 2
  }

  /** Math.round(v / TILE_WIDTH): rounding half up to the nearest index. */
  function RoundIndex(v: int): (r: int)
    ensures TileWidth * r - TileWidth / 2 <= v < TileWidth * r + TileWidth / 2
  {
    (v + TileWidth / 2) / TileWidth
  }

  /** Creature.getTileIndices (and, on a tile's centre, Tile.getIndices). */
  function TileIndices(p: Point): (c: Coord)
    ensures WorldOf(c).x - TileWidth / 2 <= p.x < WorldOf(c).x + TileWidth / 2
    ensures WorldOf(c).y - TileWidth / 2 <= p.y < WorldOf(c).y + TileWidth / 2
  {
    Coord(RoundIndex(p.x), RoundIndex(p.y))
  }

  /** Tile.getIndices: a tile placed at `WorldOf(c)` reports the indices `c`. */
  lemma TileIndicesOfPlacedTile(c: Coord)
    ensures TileIndices(WorldOf(c)) == c
  {
  }

  /** A creature strictly inside the tile placed at `WorldOf(c)` has
      `getTileIndices() == c`. */
  lemma ContainedCreatureIndices(t: Tile, c: Coord, p: Point)
    requires t.x == WorldOf(c).x && t.y == WorldOf(c).y
    requires ContainsCreature(t, p)
    ensures TileIndices(p) == c
  {
  }

  /** A point lies in at most one grid-placed tile. */
  lemma AtMostOneTile(t1: Tile, c1: Coord, t2: Tile, c2: Coord, p: Point)
    requires t1.x == WorldOf(c1).x && t1.y == WorldOf(c1).y
    requires t2.x == WorldOf(c2).x && t2.y == WorldOf(c2).y
    requires ContainsCreature(t1, p) && ContainsCreature(t2, p)
    ensures c1 == c2
  {
    ContainedCreatureIndices(t1, c1, p);
    ContainedCreatureIndices(t2, c2, p);
  }

  /** A point on the vertical edge shared by two columns of tiles lies in no
      grid-placed tile (the bounds are strict). */
  lemma SharedEdgeInNoTile(t: Tile, c: Coord, p: Point, i: int)
    requires t.x == WorldOf(c).x && t.y == WorldOf(c).y
    requires p.x == i * TileWidth + TileWidth / 2
    ensures !ContainsCreature(t, p)
  {
  }

  // ---------------------------------------------------------------------------
  // Looking cells up
  // ---------------------------------------------------------------------------

  /** `game.dungeon[x][y]`, which is undefined outside the arrays. */
  function Lookup(d: Dungeon, x: int, y: int): (r: Option<Tile>)
    ensures r.Some? ==> 0 <= x < |d| && 0 <= y < |d[x]| && r == d[x][y]
    ensures 0 <= x < |d| && 0 <= y < |d[x]| ==> r == d[x][y]
  {
    if 0 <= x < |d| && 0 <= y < |d[x]| then d[x][y] else None
  }

  /** `game.dungeon[0].length`, the bound the source uses for `y`. */
  function Height(d: Dungeon): nat
  {
    if |d| == 0 then 0 else |d[0]|
  }

  /** Every defined cell holds a tile centred at its own indices. */
  ghost predicate WellPlaced(d: Dungeon)
  {
    forall x, y | 0 <= x < |d| && 0 <= y < |d[x]| && d[x][y].Some? ::
      d[x][y].value.x == x * TileWidth && d[x][y].value.y == y * TileWidth
  }

  // ---------------------------------------------------------------------------
  // initMap
  // ---------------------------------------------------------------------------

  /** What initMap builds: the dungeon, `game.walls`, the spawn positions of
      `game.monsters` and `game.player`'s position. */
  datatype Loaded = Loaded(dungeon: Dungeon, walls: seq<Tile>, monsters: seq<Point>, player: Option<Point>)

  /** `mapData[0].length`: the number of cells read from every column. */
  function Columns(m: seq<seq<int>>): nat
  {
    if |m| == 0 then 0 else |m[0]|
  }

  /** `mapData[x][y]`, undefined past the end of a short column. */
  function CodeAt(m: seq<seq<int>>, x: nat, y: nat): Option<int>
    requires x < |m|
  {
    if y < |m[x]| then Some(m[x][y]) else None
  }

  /** The tile the switch of initMap creates for cell `(x, y)`, or `None` when
      no case matches (the code is not 0..3 or is undefined). */
  function Decode(m: seq<seq<int>>, x: nat, y: nat): Option<Tile>
    requires x < |m|
  {
    match CodeAt(m, x, y)
    case Some(code) =>
      if code == 0 || code == 2 || code == 3 then Some(Tile(Floor, x * TileWidth, y * TileWidth))
      else if code == 1 then Some(Tile(Wall, x * TileWidth, y * TileWidth))
      else None
    case None => None
  }

  /** The value of initMap's function-scoped `var tile` once cell `(x, y)` is
      processed: a cell whose code matches no case keeps the previous cell's
      tile, and is undefined when no earlier cell matched. */
  function TileAfter(m: seq<seq<int>>, x: nat, y: nat): Option<Tile>
    requires x < |m| && y < Columns(m)
    decreases x, y
  {
    match Decode(m, x, y)
    case Some(t) => Some(t)
    case None =>
      if y > 0 then TileAfter(m, x, y - 1)
      else if x > 0 then TileAfter(m, x - 1, Columns(m) - 1)
      else None
  }

  /** The value of `tile` before cell `(x, y)` is processed. */
  function TileBefore(m: seq<seq<int>>, x: nat, y: nat): Option<Tile>
    requires x <= |m| && (x < |m| ==> y <= Columns(m))
  {
    if y > 0 && x < |m| then TileAfter(m, x, y - 1)
    else if x > 0 && Columns(m) > 0 then TileAfter(m, x - 1, Columns(m) - 1)
    else None
  }

  /** The cells `(x, y')` with `y' < y` whose code is `code`, in order. */
  function RowCells(m: seq<seq<int>>, code: int, x: nat, y: nat): seq<Coord>
    requires x < |m|
  {
    if y == 0 then []
    else RowCells(m, code, x, y - 1) + (if CodeAt(m, x, y - 1) == Some(code) then [Coord(x, y - 1)] else [])
  }

  /** The cells of the columns before `x` whose code is `code`, in the order
      initMap visits them (x, then y). */
  function GridCells(m: seq<seq<int>>, code: int, x: nat): seq<Coord>
    requires x <= |m|
  {
    if x == 0 then [] else GridCells(m, code, x - 1) + RowCells(m, code, x - 1, Columns(m))
  }

  /** The Wall tiles created at the given cells. */
  function WallsAt(cs: seq<Coord>): seq<Tile>
  {
    if cs == [] then [] else WallsAt(cs[..|cs| - 1]) + [Tile(Wall, cs[|cs| - 1].x * TileWidth, cs[|cs| - 1].y * TileWidth)]
  }

  /** The world positions of the given cells. */
  function PointsAt(cs: seq<Coord>): seq<Point>
  {
    if cs == [] then [] else PointsAt(cs[..|cs| - 1]) + [WorldOf(cs[|cs| - 1])]
  }

  /** initMap: fills the dungeon column by column, collecting walls and
      monster spawns and moving the player to every code-2 cell in turn (so the
      last one wins; with none, the previous player stays). */
  method InitMap(mapData: seq<seq<int>>, player0: Option<Point>) returns (r: Loaded)
    ensures |r.dungeon| == |mapData|
    ensures forall x | 0 <= x < |mapData| :: |r.dungeon[x]| == Columns(mapData)
    ensures forall x, y | 0 <= x < |mapData| && 0 <= y < Columns(mapData) ::
      r.dungeon[x][y] == TileAfter(mapData, x, y)
    ensures r.walls == WallsAt(GridCells(mapData, 1, |mapData|))
    ensures r.monsters == PointsAt(GridCells(mapData, 3, |mapData|))
    ensures r.player == LastPlayer(GridCells(mapData, 2, |mapData|), player0)
  {
    var walls: seq<Tile> := [];
    var dungeon: Dungeon := [];
    var monsters: seq<Point> := [];
    var player := player0;
    var tile: Option<Tile> := None;
    var x := 0;
    while x < |mapData|
      invariant 0 <= x <= |mapData|
      invariant |dungeon| == x
      invariant forall i | 0 <= i < x :: |dungeon[i]| == Columns(mapData)
      invariant forall i, j {:trigger dungeon[i][j]} | 0 <= i < x && 0 <= j < Columns(mapData) :: dungeon[i][j] == TileAfter(mapData, i, j)
      invariant tile == TileBefore(mapData, x, 0)
      invariant walls == WallsAt(GridCells(mapData, 1, x))
      invariant monsters == PointsAt(GridCells(mapData, 3, x))
      invariant player == LastPlayer(GridCells(mapData, 2, x), player0)
    {
      var column;
      column, tile, walls, monsters, player := LoadColumn(mapData, x, tile, walls, monsters, player,
                                                          GridCells(mapData, 1, x), GridCells(mapData, 3, x),
                                                          GridCells(mapData, 2, x), player0);
      assert GridCells(mapData, 1, x + 1) == GridCells(mapData, 1, x) + RowCells(mapData, 1, x, Columns(mapData));
      assert GridCells(mapData, 3, x + 1) == GridCells(mapData, 3, x) + RowCells(mapData, 3, x, Columns(mapData));
      assert GridCells(mapData, 2, x + 1) == GridCells(mapData, 2, x) + RowCells(mapData, 2, x, Columns(mapData));
      dungeon := dungeon + [column];
      x := x + 1;
    }
    r := Loaded(dungeon, walls, monsters, player);
  }

  /** The player position after initMap has visited the code-2 cells `ps`,
      starting from `player0`. */
  function LastPlayer(ps: seq<Coord>, player0: Option<Point>): Option<Point>
  {
    if ps == [] then player0 else Some(WorldOf(ps[|ps| - 1]))
  }

  /** The inner loop of initMap: column `x` of the dungeon. */
  method LoadColumn(mapData: seq<seq<int>>, x: nat, tile0: Option<Tile>, walls0: seq<Tile>,
                    monsters0: seq<Point>, player0: Option<Point>,
                    ghost wallCells: seq<Coord>, ghost monsterCells: seq<Coord>,
                    ghost playerCells: seq<Coord>, ghost initialPlayer: Option<Point>)
    returns (column: seq<Option<Tile>>, tile: Option<Tile>, walls: seq<Tile>,
             monsters: seq<Point>, player: Option<Point>)
    requires x < |mapData|
    requires tile0 == TileBefore(mapData, x, 0)
    requires walls0 == WallsAt(wallCells) && monsters0 == PointsAt(monsterCells)
    requires player0 == LastPlayer(playerCells, initialPlayer)
    ensures |column| == Columns(mapData)
    ensures forall j | 0 <= j < Columns(mapData) :: column[j] == TileAfter(mapData, x, j)
    ensures tile == TileBefore(mapData, x + 1, 0)
    ensures walls == WallsAt(wallCells + RowCells(mapData, 1, x, Columns(mapData)))
    ensures monsters == PointsAt(monsterCells + RowCells(mapData, 3, x, Columns(mapData)))
    ensures player == LastPlayer(playerCells + RowCells(mapData, 2, x, Columns(mapData)), initialPlayer)
  {
    column, tile, walls, monsters, player := [], tile0, walls0, monsters0, player0;
    var y := 0;
    assert wallCells + RowCells(mapData, 1, x, 0) == wallCells;
    assert monsterCells + RowCells(mapData, 3, x, 0) == monsterCells;
    assert playerCells + RowCells(mapData, 2, x, 0) == playerCells;
    while y < Columns(mapData)
      invariant 0 <= y <= Columns(mapData)
      invariant |column| == y
      invariant forall j {:trigger column[j]} | 0 <= j < y :: column[j] == TileAfter(mapData, x, j)
      invariant tile == TileBefore(mapData, x, y)
      invariant walls == WallsAt(wallCells + RowCells(mapData, 1, x, y))
      invariant monsters == PointsAt(monsterCells + RowCells(mapData, 3, x, y))
      invariant player == LastPlayer(playerCells + RowCells(mapData, 2, x, y), initialPlayer)
    {
      tile, walls, monsters, player := LoadCell(mapData, x, y, tile, walls, monsters, player,
                                                wallCells, monsterCells, playerCells, initialPlayer);
      column := column + [tile];
      y := y + 1;
    }
  }

  /** One pass of initMap's inner loop, on cell `(x, y)`: the switch on the
      code, which replaces the running tile for a known code and adds the
      cell to the walls, moves the player there or adds a monster spawn. */
  method LoadCell(mapData: seq<seq<int>>, x: nat, y: nat, tile0: Option<Tile>, walls0: seq<Tile>,
                  monsters0: seq<Point>, player0: Option<Point>,
                  ghost wallCells: seq<Coord>, ghost monsterCells: seq<Coord>,
                  ghost playerCells: seq<Coord>, ghost initialPlayer: Option<Point>)
    returns (tile: Option<Tile>, walls: seq<Tile>, monsters: seq<Point>, player: Option<Point>)
    requires x < |mapData| && y < Columns(mapData)
    requires tile0 == TileBefore(mapData, x, y)
    requires walls0 == WallsAt(wallCells + RowCells(mapData, 1, x, y))
    requires monsters0 == PointsAt(monsterCells + RowCells(mapData, 3, x, y))
    requires player0 == LastPlayer(playerCells + RowCells(mapData, 2, x, y), initialPlayer)
    ensures tile == TileAfter(mapData, x, y) && tile == TileBefore(mapData, x, y + 1)
    ensures walls == WallsAt(wallCells + RowCells(mapData, 1, x, y + 1))
    ensures monsters == PointsAt(monsterCells + RowCells(mapData, 3, x, y + 1))
    ensures player == LastPlayer(playerCells + RowCells(mapData, 2, x, y + 1), initialPlayer)
  {
    tile, walls, monsters, player := tile0, walls0, monsters0, player0;
    var code := CodeAt(mapData, x, y);
    TileStep(mapData, x, y);
    CellStep(mapData, x, y, wallCells, monsterCells, playerCells, initialPlayer);
    if code == Some(0) {
      tile := Some(Tile(Floor, x * TileWidth, y * TileWidth));
    } else if code == Some(1) {
      tile := Some(Tile(Wall, x * TileWidth, y * TileWidth));
      walls := walls + [tile.value];
    } else if code == Some(2) {
      tile := Some(Tile(Floor, x * TileWidth, y * TileWidth));
      player := Some(WorldOf(Coord(x, y)));
    } else if code == Some(3) {
      tile := Some(Tile(Floor, x * TileWidth, y * TileWidth));
      monsters := monsters + [WorldOf(Coord(x, y))];
    }
  }

  /** What processing cell `(x, y)` does to the running tile: a cell the
      switch matches replaces it, any other keeps the previous cell's. */
  lemma TileStep(m: seq<seq<int>>, x: nat, y: nat)
    requires x < |m| && y < Columns(m)
    ensures TileAfter(m, x, y) == TileBefore(m, x, y + 1)
    ensures TileAfter(m, x, y) == if Decode(m, x, y).Some? then Decode(m, x, y) else TileBefore(m, x, y)
  {
  }

  /** What processing cell `(x, y)` does to the walls, monster spawns and
      player position. */
  lemma CellStep(m: seq<seq<int>>, x: nat, y: nat, wallCells: seq<Coord>, monsterCells: seq<Coord>,
                 playerCells: seq<Coord>, initialPlayer: Option<Point>)
    requires x < |m| && y < Columns(m)
    ensures WallsAt(wallCells + RowCells(m, 1, x, y + 1)) ==
      WallsAt(wallCells + RowCells(m, 1, x, y)) +
      (if CodeAt(m, x, y) == Some(1) then [Tile(Wall, x * TileWidth, y * TileWidth)] else [])
    ensures PointsAt(monsterCells + RowCells(m, 3, x, y + 1)) ==
      PointsAt(monsterCells + RowCells(m, 3, x, y)) +
      (if CodeAt(m, x, y) == Some(3) then [WorldOf(Coord(x, y))] else [])
    ensures LastPlayer(playerCells + RowCells(m, 2, x, y + 1), initialPlayer) ==
      if CodeAt(m, x, y) == Some(2) then Some(WorldOf(Coord(x, y)))
      else LastPlayer(playerCells + RowCells(m, 2, x, y), initialPlayer)
  {
    var here := Coord(x, y);
    var w := wallCells + RowCells(m, 1, x, y);
    var k := monsterCells + RowCells(m, 3, x, y);
    var p := playerCells + RowCells(m, 2, x, y);
    if CodeAt(m, x, y) == Some(1) {
      assert wallCells + RowCells(m, 1, x, y + 1) == w + [here];
      AppendCell(w, here);
    } else {
      assert wallCells + RowCells(m, 1, x, y + 1) == w;
    }
    if CodeAt(m, x, y) == Some(3) {
      assert monsterCells + RowCells(m, 3, x, y + 1) == k + [here];
      AppendCell(k, here);
    } else {
      assert monsterCells + RowCells(m, 3, x, y + 1) == k;
    }
    if CodeAt(m, x, y) == Some(2) {
      assert playerCells + RowCells(m, 2, x, y + 1) == p + [here];
    } else {
      assert playerCells + RowCells(m, 2, x, y + 1) == p;
    }
  }

  /** Appending a cell appends its wall tile and its position. */
  lemma AppendCell(cs: seq<Coord>, c: Coord)
    ensures WallsAt(cs + [c]) == WallsAt(cs) + [Tile(Wall, c.x * TileWidth, c.y * TileWidth)]
    ensures PointsAt(cs + [c]) == PointsAt(cs) + [WorldOf(c)]
  {
    assert (cs + [c])[..|cs|] == cs;
  }

  /** A cell lies in `RowCells` exactly when it is in that column, before `y`,
      and carries `code`. */
  lemma {:induction false} RowCellsExact(m: seq<seq<int>>, code: int, x: nat, y: nat, c: Coord)
    requires x < |m|
    ensures c in RowCells(m, code, x, y) <==> c.x == x && 0 <= c.y < y && CodeAt(m, x, c.y) == Some(code)
  {
    if y > 0 {
      RowCellsExact(m, code, x, y - 1, c);
    }
  }

  /** `GridCells(m, code, |m|)` lists exactly the cells read by initMap whose
      code is `code`: so `walls` holds exactly the code-1 cells, `monsters` one
      entry per code-3 cell. */
  lemma {:induction false} GridCellsExact(m: seq<seq<int>>, code: int, x: nat, c: Coord)
    requires x <= |m|
    ensures c in GridCells(m, code, x) <==>
      0 <= c.x < x && 0 <= c.y < Columns(m) && CodeAt(m, c.x, c.y) == Some(code)
  {
    if x > 0 {
      GridCellsExact(m, code, x - 1, c);
      RowCellsExact(m, code, x - 1, Columns(m), c);
    }
  }

  /** Scan order: x first, then y. */
  predicate Before(a: Coord, b: Coord)
  {
    a.x < b.x || (a.x == b.x && a.y < b.y)
  }

  /** `RowCells` is listed in increasing `y`, all in column `x`. */
  lemma {:induction false} RowCellsOrdered(m: seq<seq<int>>, code: int, x: nat, y: nat)
    requires x < |m|
    ensures forall i | 0 <= i < |RowCells(m, code, x, y)| ::
      RowCells(m, code, x, y)[i].x == x && 0 <= RowCells(m, code, x, y)[i].y < y
    ensures forall i, j | 0 <= i < j < |RowCells(m, code, x, y)| ::
      Before(RowCells(m, code, x, y)[i], RowCells(m, code, x, y)[j])
  {
    if y > 0 {
      RowCellsOrdered(m, code, x, y - 1);
    }
  }

  /** The cells initMap collects come in strictly increasing scan order, so
      `walls` and `monsters` follow the x-then-y order of the loops. */
  lemma {:induction false} GridCellsOrdered(m: seq<seq<int>>, code: int, x: nat)
    requires x <= |m|
    ensures forall i | 0 <= i < |GridCells(m, code, x)| :: GridCells(m, code, x)[i].x < x
    ensures forall i, j | 0 <= i < j < |GridCells(m, code, x)| ::
      Before(GridCells(m, code, x)[i], GridCells(m, code, x)[j])
  {
    if x > 0 {
      GridCellsOrdered(m, code, x - 1);
      RowCellsOrdered(m, code, x - 1, Columns(m));
    }
  }

  /** For a code grid with every code in {0, 1, 2, 3}, every cell initMap
      builds is defined, of the kind its code names, and centred at its own
      indices. */
  lemma LoadedCellOfKnownCode(m: seq<seq<int>>, x: nat, y: nat)
    requires x < |m| && y < Columns(m) && y < |m[x]|
    requires 0 <= m[x][y] <= 3
    ensures TileAfter(m, x, y) == Some(Tile(if m[x][y] == 1 then Wall else Floor, x * TileWidth, y * TileWidth))
  {
  }

  /** A code grid that is rectangular and holds only the codes 0..3 (what the
      maze encoder produces) loads into a well-placed dungeon. */
  lemma LoadedDungeonWellPlaced(m: seq<seq<int>>, d: Dungeon)
    requires forall x | 0 <= x < |m| :: |m[x]| == Columns(m)
    requires forall x, y | 0 <= x < |m| && 0 <= y < |m[x]| :: 0 <= m[x][y] <= 3
    requires |d| == |m| && forall x | 0 <= x < |m| :: |d[x]| == Columns(m)
    requires forall x, y | 0 <= x < |m| && 0 <= y < Columns(m) :: d[x][y] == TileAfter(m, x, y)
    ensures WellPlaced(d)
  {
    forall x, y | 0 <= x < |d| && 0 <= y < |d[x]| && d[x][y].Some?
      ensures d[x][y].value.x == x * TileWidth && d[x][y].value.y == y * TileWidth
    {
      LoadedCellOfKnownCode(m, x, y);
    }
  }

  /** An unknown code aliases the previous cell's tile: a one-column grid
      `[[1, 7]]` yields two cells holding the same Wall at index 0. */
  lemma UnknownCodeRepeatsPreviousTile()
    ensures TileAfter([[1, 7]], 0, 1) == Some(Tile(Wall, 0, 0))
  {
  }
}
