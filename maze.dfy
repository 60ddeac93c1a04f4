/** The maze generator and grid encoder (utils.py): tiles with four boolean
    passages, the map of tiles keyed by coordinates, the randomized
    depth-first backtracker that carves passages, the spawn setters, the
    encoding of the maze as a grid of codes and its box-drawing rendering.
    `random.randint`/`random.choice` become sequences of draws. */
module Maze {
  import opened Wrappers
  import Grid

  /** The four cardinal directions. */
  datatype Dir = North | East | South | West

  /** `_directions`: the directions in the order used to number them. */
  const Directions: seq<Dir> := [North, East, South, West]

  /** The lower-case name of a direction, the key of its passage. */
  function Name(d: Dir): (s: string)
    ensures Parse(s) == Some(d)
  {
    match d
    case North => "north"
    case East => "east"
    case South => "south"
    case West => "west"
  }

  /** The direction a string names exactly, as a key of `_opposites` or of
      a tile's passages; `None` for any other string. */
  function Parse(s: string): (r: Option<Dir>)
  {
    if s == "north" then Some(North)
    else if s == "east" then Some(East)
    else if s == "south" then Some(South)
    else if s == "west" then Some(West)
    else None
  }

  /** Every string that parses is the name of what it parses to. */
  lemma ParseName(s: string)
    ensures Parse(s).Some? ==> Name(Parse(s).value) == s
  {
  }

  /** `_opposites`, on directions. */
  function Opposite(d: Dir): (o: Dir)
    ensures o != d
  {
    match d
    case North => South
    case East => West
    case South => North
    case West => East
  }

  /** `_opposites` is an involution: the opposite of the opposite is the
      direction itself. */
  lemma OppositeInvolution(d: Dir)
    ensures Opposite(Opposite(d)) == d
  {
  }

  /** One tile from (x, y) in direction `d`; north is towards smaller y. */
  function Step(x: int, y: int, d: Dir): (r: (int, int))
    ensures (r.0 == x && (r.1 == y - 1 || r.1 == y + 1)) || (r.1 == y && (r.0 == x - 1 || r.0 == x + 1))
  {
    match d
    case North => (x, y - 1)
    case East => (x + 1, y)
    case South => (x, y + 1)
    case West => (x - 1, y)
  }

  /** Stepping in a direction and then in its opposite returns to the start. */
  lemma OppositeUndoes(x: int, y: int, d: Dir)
    ensures Step(Step(x, y, d).0, Step(x, y, d).1, Opposite(d)) == (x, y)
  {
  }

  /** Steps in different directions lead to different tiles. */
  lemma StepInjective(x: int, y: int, d: Dir, e: Dir)
    requires Step(x, y, d) == Step(x, y, e)
    ensures d == e
  {
  }

  /** The module-level getAdjCoords: a step of one tile in the direction the
      name gives exactly; any other name leaves the coordinates as they are. */
  function GetAdjCoords(x: int, y: int, dir: string): (r: (int, int))
    ensures Parse(dir).Some? ==> r == Step(x, y, Parse(dir).value)
    ensures Parse(dir).None? ==> r == (x, y)
  {
    if dir == "north" then (x, y - 1)
    else if dir == "east" then (x + 1, y)
    else if dir == "south" then (x, y + 1)
    else if dir == "west" then (x - 1, y)
    else (x, y)
  }

  /** `str.lower()` on one ASCII character. */
  function LowerChar(c: char): char
  {
    if 'A' <= c <= 'Z' then c - 'A' + 'a' else c
  }

  /** `str.lower()` on ASCII letters. The four direction names are ASCII and
      no other character lowercases to one of their letters, so membership of
      the lowered name among them is decided exactly. */
  function Lower(s: string): (r: string)
    ensures |r| == |s|
    ensures forall i | 0 <= i < |r| :: !('A' <= r[i] <= 'Z')
    ensures forall i | 0 <= i < |s| && !('A' <= s[i] <= 'Z') :: r[i] == s[i]
    ensures forall i | 0 <= i < |s| && 'A' <= s[i] <= 'Z' ::
      'a' <= r[i] <= 'z' && r[i] as int - 'a' as int == s[i] as int - 'A' as int
  {
    seq(|s|, i requires 0 <= i < |s| => LowerChar(s[i]))
  }

  /** Lowering twice changes nothing more than lowering once. */
  lemma LowerIdempotent(s: string)
    ensures Lower(Lower(s)) == Lower(s)
  {
  }

  /** The direction names are already in lower case. */
  lemma LowerName(d: Dir)
    ensures Lower(Name(d)) == Name(d)
  {
    var n := Name(d);
    forall i | 0 <= i < |n|
      ensures LowerChar(n[i]) == n[i]
    {
      assert 'a' <= n[i] <= 'z';
    }
  }

  /** What a tile may spawn: nothing (a plain floor), the player or a monster. */
  datatype Spawn = Nothing | PlayerSpawn | MonsterSpawn

  /** `_gameObjects[spawn]`: the code a tile's centre gets in `toList`. */
  function SpawnCode(s: Spawn): (code: int)
    ensures 0 <= code <= 3 && code != 1
    ensures code == 0 <==> s == Nothing
  {
    match s
    case Nothing => 0
    case PlayerSpawn => 2
    case MonsterSpawn => 3
  }

  /** The four passages of a tile, the dictionary `paths` keyed by the four
      direction names. */
  datatype Passages = Passages(north: bool, east: bool, south: bool, west: bool)
  {
    /** `paths[name]`: whether the passage in direction `d` is open. */
    function Get(d: Dir): bool
    {
      match d
      case North => north
      case East => east
      case South => south
      case West => west
    }

    /** Some passage is open. */
    predicate Any()
    {
      north || east || south || west
    }

    /** `paths[name] = True`: the passage in direction `d` opened. */
    function With(d: Dir): (p: Passages)
      ensures forall e :: p.Get(e) == (e == d || Get(e))
    {
      match d
      case North => this.(north := true)
      case East => this.(east := true)
      case South => this.(south := true)
      case West => this.(west := true)
    }
  }

  /** The passages of every tile of a maze, by coordinates. */
  type Layout = map<(int, int), Passages>

  /** Every open passage of the layout leads to a tile of the layout whose
      opposite passage is open too. */
  ghost predicate SymmetricLayout(l: Layout)
  {
    forall k, d {:trigger l[k].Get(d), Step(k.0, k.1, d)} | k in l && l[k].Get(d) ::
      Step(k.0, k.1, d) in l && l[Step(k.0, k.1, d)].Get(Opposite(d))
  }

  /** The layout after the tile at `here` has been connected to its
      neighbour in direction `d`. */
  function Carved(l: Layout, here: (int, int), d: Dir): (c: Layout)
    requires here in l && Step(here.0, here.1, d) in l
    ensures c.Keys == l.Keys
  {
    var there := Step(here.0, here.1, d);
    l[here := l[here].With(d)][there := l[there].With(Opposite(d))]
  }

  /** Connecting two neighbours keeps a layout symmetric. */
  lemma CarvedSymmetric(l: Layout, here: (int, int), d: Dir)
    requires SymmetricLayout(l)
    requires here in l && Step(here.0, here.1, d) in l
    ensures SymmetricLayout(Carved(l, here, d))
  {
    var there := Step(here.0, here.1, d);
    var c := Carved(l, here, d);
    OppositeUndoes(here.0, here.1, d);
    OppositeInvolution(d);
    forall k, e | k in c && c[k].Get(e)
      ensures Step(k.0, k.1, e) in c && c[Step(k.0, k.1, e)].Get(Opposite(e))
    {
      if (k == here && e == d) || (k == there && e == Opposite(d)) {
      } else {
        assert l[k].Get(e);
      }
    }
  }

  /** Every passage open in `l` is open in `m`. */
  ghost predicate Wider(l: Layout, m: Layout)
  {
    forall k, e | k in l && l[k].Get(e) :: k in m && m[k].Get(e)
  }

  /** Carving opens the two passages and closes none. */
  lemma CarvedOpens(l: Layout, here: (int, int), d: Dir)
    requires here in l && Step(here.0, here.1, d) in l
    ensures Wider(l, Carved(l, here, d))
    ensures Carved(l, here, d)[here].Get(d)
    ensures Carved(l, here, d)[Step(here.0, here.1, d)].Get(Opposite(d))
  {
  }

  /** The tiles of `keys` reached by the backtracker: the visited ones and
      the start, which is never marked visited. */
  function Reached(keys: set<(int, int)>, unvisited: set<(int, int)>, start: (int, int)): set<(int, int)>
  {
    (keys - unvisited) + {start}
  }

  /** `c` holds every neighbour in `keys` of each of its tiles. */
  ghost predicate Closed(c: set<(int, int)>, keys: set<(int, int)>)
  {
    forall k, e | k in c && Step(k.0, k.1, e) in keys :: Step(k.0, k.1, e) in c
  }

  /** The invariant of the backtracker over the passages `l` of the tiles
      `keys`, the unvisited tiles, the stack and the tiles popped so far: the
      reached tiles are those on the stack or popped; a popped tile has all
      its neighbours reached; a passage leads to a reached tile; and every
      visited tile has a passage. */
  ghost predicate Backtracking(keys: set<(int, int)>, l: Layout, unvisited: set<(int, int)>,
                               stack: seq<(int, int)>, popped: set<(int, int)>, start: (int, int))
  {
    var reached := Reached(keys, unvisited, start);
    l.Keys == keys && unvisited <= keys && start in keys &&
    (forall j | 0 <= j < |stack| :: stack[j] in reached) &&
    popped <= reached &&
    (forall k | k in reached :: k in popped || k in stack) &&
    (forall k, e | k in popped && Step(k.0, k.1, e) in keys :: Step(k.0, k.1, e) in reached) &&
    (forall k, e | k in l && l[k].Get(e) :: Step(k.0, k.1, e) in reached) &&
    (forall k | k in keys - unvisited :: l[k].Any())
  }

  /** The backtracker starts with the start tile on the stack, nothing
      visited and no passage. */
  lemma BacktrackingStarts(keys: set<(int, int)>, l: Layout, start: (int, int))
    requires l.Keys == keys && start in keys
    requires forall k | k in l :: !l[k].Any()
    ensures Backtracking(keys, l, keys, [start], {}, start)
  {
    forall k, e | k in l && l[k].Get(e)
      ensures false
    {
    }
  }

  /** A forward step: carving from the top of the stack to an unvisited
      neighbour, marking it visited and pushing it keeps the invariant. */
  lemma BacktrackingPush(keys: set<(int, int)>, l: Layout, unvisited: set<(int, int)>,
                         stack: seq<(int, int)>, popped: set<(int, int)>, start: (int, int), d: Dir)
    requires Backtracking(keys, l, unvisited, stack, popped, start)
    requires |stack| > 0
    requires Step(stack[|stack| - 1].0, stack[|stack| - 1].1, d) in unvisited
    ensures var here := stack[|stack| - 1];
      var there := Step(here.0, here.1, d);
      Backtracking(keys, Carved(l, here, d), unvisited - {there}, stack + [there], popped, start)
  {
    var here := stack[|stack| - 1];
    var there := Step(here.0, here.1, d);
    var c := Carved(l, here, d);
    var reached := Reached(keys, unvisited, start);
    var reached' := Reached(keys, unvisited - {there}, start);
    assert reached' == reached + {there};
    CarvedOpens(l, here, d);
    OppositeUndoes(here.0, here.1, d);
    forall k, e | k in c && c[k].Get(e)
      ensures Step(k.0, k.1, e) in reached'
    {
      if !l[k].Get(e) {
        assert (k == here && e == d) || (k == there && e == Opposite(d));
      }
    }
    forall k | k in keys - (unvisited - {there})
      ensures c[k].Any()
    {
      if k == there {
        assert c[k].Get(Opposite(d));
      } else {
        assert l[k].Any();
      }
    }
  }

  /** A backward step: popping a tile whose closed passages all lead to
      visited tiles keeps the invariant. */
  lemma BacktrackingPop(keys: set<(int, int)>, l: Layout, unvisited: set<(int, int)>,
                        stack: seq<(int, int)>, popped: set<(int, int)>, start: (int, int))
    requires Backtracking(keys, l, unvisited, stack, popped, start)
    requires |stack| > 0
    requires var here := stack[|stack| - 1];
      forall e | Step(here.0, here.1, e) in keys && !l[here].Get(e) :: Step(here.0, here.1, e) !in unvisited
    ensures Backtracking(keys, l, unvisited, stack[..|stack| - 1], popped + {stack[|stack| - 1]}, start)
  {
    var here := stack[|stack| - 1];
    var reached := Reached(keys, unvisited, start);
    forall k | k in reached
      ensures k in popped + {here} || k in stack[..|stack| - 1]
    {
      if k !in popped {
        var j :| 0 <= j < |stack| && stack[j] == k;
        if j < |stack| - 1 {
          assert stack[..|stack| - 1][j] == k;
        }
      }
    }
  }

  /** A set of tiles of a `width` by `height` grid that holds some tile and
      every neighbour of each of its tiles holds the whole grid. */
  lemma {:induction false} ClosedIsWhole(keys: set<(int, int)>, width: int, height: int, c: set<(int, int)>,
                                         from: (int, int), to: (int, int))
    requires forall k :: k in keys <==> 0 <= k.0 < width && 0 <= k.1 < height
    requires Closed(c, keys) && from in c && c <= keys && to in keys
    ensures to in c
    decreases if from.0 <= to.0 then to.0 - from.0 else from.0 - to.0,
              if from.1 <= to.1 then to.1 - from.1 else from.1 - to.1
  {
    if from != to {
      var e := if from.0 < to.0 then East else if from.0 > to.0 then West
        else if from.1 < to.1 then South else North;
      var next := Step(from.0, from.1, e);
      assert next in keys;
      ClosedIsWhole(keys, width, height, c, next, to);
    }
  }

  /** Once the stack is empty, every tile of the grid but the start has been
      visited and has a passage. */
  lemma BacktrackingEnds(keys: set<(int, int)>, width: int, height: int, l: Layout,
                         unvisited: set<(int, int)>, popped: set<(int, int)>, start: (int, int))
    requires forall k :: k in keys <==> 0 <= k.0 < width && 0 <= k.1 < height
    requires Backtracking(keys, l, unvisited, [], popped, start)
    ensures unvisited <= {start}
    ensures forall k | k in l && k != start :: l[k].Any()
  {
    var reached := Reached(keys, unvisited, start);
    assert reached == popped;
    forall k | k in keys
      ensures k in reached
    {
      ClosedIsWhole(keys, width, height, reached, start, k);
    }
  }

  /** The tiles of a spawn map on which `s` spawns. */
  function Where(m: map<(int, int), Spawn>, s: Spawn): (w: set<(int, int)>)
    ensures forall k :: k in w <==> k in m && m[k] == s
  {
    set k | k in m && m[k] == s
  }

  /** `after` is `before` with some tiles that had nothing to spawn given
      `s`, and nothing else changed. */
  ghost predicate PlacedOnFree(before: map<(int, int), Spawn>, after: map<(int, int), Spawn>, s: Spawn)
  {
    after.Keys == before.Keys &&
    forall k | k in before :: after[k] == before[k] || (before[k] == Nothing && after[k] == s)
  }

  /** Giving `s` to one tile that had nothing to spawn adds exactly that tile
      to the tiles of `s`. */
  lemma PlaceOne(m: map<(int, int), Spawn>, k: (int, int), s: Spawn)
    requires k in m && m[k] == Nothing && s != Nothing
    ensures Where(m[k := s], s) == Where(m, s) + {k}
    ensures |Where(m[k := s], s)| == |Where(m, s)| + 1
    ensures PlacedOnFree(m, m[k := s], s)
  {
    assert k !in Where(m, s);
  }

  /** Placements on free tiles compose. */
  lemma PlacedOnFreeTransitive(a: map<(int, int), Spawn>, b: map<(int, int), Spawn>, c: map<(int, int), Spawn>, s: Spawn)
    requires PlacedOnFree(a, b, s) && PlacedOnFree(b, c, s)
    ensures PlacedOnFree(a, c, s)
  {
  }

  /** Placing `s` on free tiles never overwrites another spawn: the tiles
      of every other spawn but "nothing" stay as they were. */
  lemma PlacedKeepsOthers(before: map<(int, int), Spawn>, after: map<(int, int), Spawn>, s: Spawn, t: Spawn)
    requires PlacedOnFree(before, after, s)
    requires t != s && t != Nothing
    ensures Where(after, t) == Where(before, t)
  {
  }

  /** The code `toList` leaves at offset (kx, ky) of the 3x3 block of a tile
      with passages `p` and spawn `s`: the spawn's code at the centre, 0 at
      the middle of each side with an open passage, 1 everywhere else. */
  function BlockCode(p: Passages, s: Spawn, kx: int, ky: int): (code: int)
    ensures 0 <= code <= 3
  {
    if kx == 1 && ky == 1 then SpawnCode(s)
    else if kx == 1 && ky == 0 && p.north then 0
    else if kx == 2 && ky == 1 && p.east then 0
    else if kx == 1 && ky == 2 && p.south then 0
    else if kx == 0 && ky == 1 && p.west then 0
    else 1
  }

  /** The code at cell (i, j) of the encoding of a maze: cell (i, j) is
      offset (i % 3, j % 3) of the block of tile (i / 3, j / 3). */
  function CellCode(l: Layout, sp: map<(int, int), Spawn>, i: nat, j: nat): int
    requires (i / 3, j / 3) in l && (i / 3, j / 3) in sp
  {
    BlockCode(l[(i / 3, j / 3)], sp[(i / 3, j / 3)], i % 3, j % 3)
  }

  /** Cells 3c to 3c + 2 belong to the block of tile c. */
  lemma DivThree(i: int, c: int)
    requires 3 * c <= i < 3 * c + 3
    ensures i / 3 == c && i % 3 == i - 3 * c
  {
  }

  /** What the encoding of a tile's block says: its corners are walls, its
      centre holds the code of its spawn, and the middle of a side is floor
      exactly when the tile has a passage that way. */
  lemma EncodedBlock(l: Layout, sp: map<(int, int), Spawn>, x: nat, y: nat)
    requires (x, y) in l && (x, y) in sp
    ensures CellCode(l, sp, 3 * x, 3 * y) == 1 && CellCode(l, sp, 3 * x + 2, 3 * y) == 1
    ensures CellCode(l, sp, 3 * x, 3 * y + 2) == 1 && CellCode(l, sp, 3 * x + 2, 3 * y + 2) == 1
    ensures CellCode(l, sp, 3 * x + 1, 3 * y + 1) == SpawnCode(sp[(x, y)])
    ensures CellCode(l, sp, 3 * x + 1, 3 * y) == 0 <==> l[(x, y)].Get(North)
    ensures CellCode(l, sp, 3 * x + 2, 3 * y + 1) == 0 <==> l[(x, y)].Get(East)
    ensures CellCode(l, sp, 3 * x + 1, 3 * y + 2) == 0 <==> l[(x, y)].Get(South)
    ensures CellCode(l, sp, 3 * x, 3 * y + 1) == 0 <==> l[(x, y)].Get(West)
  {
    DivThree(3 * x, x);
    DivThree(3 * x + 1, x);
    DivThree(3 * x + 2, x);
    DivThree(3 * y, y);
    DivThree(3 * y + 1, y);
    DivThree(3 * y + 2, y);
  }

  /** The grid toList returns, as a sequence of `3 * width` columns of
      `3 * height` codes: a rectangle, as the game's initMap expects, of
      codes 0 (floor), 1 (wall), 2 (player) and 3 (monster). */
  function Encoding(l: Layout, sp: map<(int, int), Spawn>, width: nat, height: nat): (m: seq<seq<int>>)
    requires forall x, y | 0 <= x < width && 0 <= y < height :: (x, y) in l && (x, y) in sp
    ensures |m| == 3 * width
    ensures forall i | 0 <= i < |m| :: |m[i]| == 3 * height
    ensures |m| > 0 ==> Grid.Columns(m) == 3 * height
    ensures forall i, j | 0 <= i < |m| && 0 <= j < |m[i]| :: 0 <= m[i][j] <= 3
  {
    seq(3 * width, i requires 0 <= i < 3 * width =>
      seq(3 * height, j requires 0 <= j < 3 * height => CellCode(l, sp, i, j)))
  }

  /** The cell of the encoding in the middle of side `d` of tile (x, y). */
  function Midpoint(x: nat, y: nat, d: Dir): (nat, nat)
  {
    match d
    case North => (3 * x + 1, 3 * y)
    case East => (3 * x + 2, 3 * y + 1)
    case South => (3 * x + 1, 3 * y + 2)
    case West => (3 * x, 3 * y + 1)
  }

  /** Loaded by initMap, the middle of a side of a tile's block becomes a
      floor tile when the tile has a passage that way and a wall otherwise,
      centred at the cell's own place. */
  lemma PassageLoadsAsFloor(l: Layout, sp: map<(int, int), Spawn>, width: nat, height: nat, x: nat, y: nat, d: Dir)
    requires forall x, y | 0 <= x < width && 0 <= y < height :: (x, y) in l && (x, y) in sp
    requires x < width && y < height
    ensures var m := Encoding(l, sp, width, height);
      var c := Midpoint(x, y, d);
      c.0 < |m| && c.1 < Grid.Columns(m) &&
      Grid.TileAfter(m, c.0, c.1) ==
        Some(Grid.Tile(if l[(x, y)].Get(d) then Grid.Floor else Grid.Wall, c.0 * Grid.TileWidth, c.1 * Grid.TileWidth))
  {
    var m := Encoding(l, sp, width, height);
    var c := Midpoint(x, y, d);
    EncodedBlock(l, sp, x, y);
    Grid.LoadedCellOfKnownCode(m, c.0, c.1);
  }

  /** The glyph `__str__` draws for a tile with passages `p`: a box-drawing
      piece with a line towards each open passage, "□" for none, and "╳"
      for a combination matching none of the cases. */
  function Glyph(p: Passages): (g: char)
    ensures g != '╳' && g != '\n'
    ensures g == '□' <==> !p.Any()
  {
    var t := (p.north, p.east, p.south, p.west);
    if t == (true, true, true, true) then '╬'
    else if t == (true, true, true, false) then '╠'
    else if t == (true, true, false, true) then '╩'
    else if t == (true, false, true, true) then '╣'
    else if t == (false, true, true, true) then '╦'
    else if t == (true, true, false, false) then '╚'
    else if t == (true, false, true, false) then '║'
    else if t == (false, true, true, false) then '╔'
    else if t == (true, false, false, true) then '╝'
    else if t == (false, true, false, true) then '═'
    else if t == (false, false, true, true) then '╗'
    else if t == (true, false, false, false) then '╨'
    else if t == (false, true, false, false) then '╞'
    else if t == (false, false, true, false) then '╥'
    else if t == (false, false, false, true) then '╡'
    else if t == (false, false, false, false) then '□'
    else '╳'
  }

  /** The sixteen combinations of passages get sixteen different glyphs, so
      the picture determines every tile's passages. */
  lemma GlyphInjective(p: Passages, q: Passages)
    requires Glyph(p) == Glyph(q)
    ensures p == q
  {
  }

  /** The glyphs of the first `n` tiles of row `y`. */
  function RowText(l: Layout, y: int, n: nat): (r: string)
    requires forall x | 0 <= x < n :: (x, y) in l
    ensures |r| == n
  {
    if n == 0 then [] else RowText(l, y, n - 1) + [Glyph(l[(n - 1, y)])]
  }

  /** The first `m` rows of the picture of a maze `width` tiles wide, each
      followed by a line break. */
  function Picture(l: Layout, width: nat, m: nat): string
    requires forall x, y | 0 <= x < width && 0 <= y < m :: (x, y) in l
  {
    if m == 0 then [] else Picture(l, width, m - 1) + RowText(l, m - 1, width) + "\n"
  }

  /** Glyph `x` of a row is the glyph of tile (x, y). */
  lemma {:induction false} RowTextAt(l: Layout, y: int, n: nat, x: nat)
    requires forall x | 0 <= x < n :: (x, y) in l
    requires x < n
    ensures RowText(l, y, n)[x] == Glyph(l[(x, y)])
  {
    if x < n - 1 {
      RowTextAt(l, y, n - 1, x);
    }
  }

  /** The picture has `m` lines of `width` glyphs and a line break each. */
  lemma {:induction false} PictureLength(l: Layout, width: nat, m: nat)
    requires forall x, y | 0 <= x < width && 0 <= y < m :: (x, y) in l
    ensures |Picture(l, width, m)| == m * (width + 1)
  {
    if m > 0 {
      PictureLength(l, width, m - 1);
      assert (m - 1) * (width + 1) + (width + 1) == m * (width + 1);
    }
  }

  /** Character x of line y of the picture is the glyph of tile (x, y), and
      the character after the last tile of a line is a line break. */
  lemma {:induction false} PictureAt(l: Layout, width: nat, m: nat, y: nat, x: nat)
    requires forall x, y | 0 <= x < width && 0 <= y < m :: (x, y) in l
    requires y < m && x <= width
    ensures y * (width + 1) + x < |Picture(l, width, m)|
    ensures Picture(l, width, m)[y * (width + 1) + x] == if x < width then Glyph(l[(x, y)]) else '\n'
  {
    var prefix := Picture(l, width, m - 1);
    PictureLength(l, width, m - 1);
    PictureLength(l, width, m);
    if y < m - 1 {
      PictureAt(l, width, m - 1, y, x);
    } else {
      assert y * (width + 1) == |prefix|;
      if x < width {
        RowTextAt(l, m - 1, width, x);
      }
    }
  }

  /** The picture never holds the fallback glyph. */
  lemma {:induction false} PictureNoFallback(l: Layout, width: nat, m: nat)
    requires forall x, y | 0 <= x < width && 0 <= y < m :: (x, y) in l
    ensures '╳' !in Picture(l, width, m)
  {
    if m > 0 {
      PictureNoFallback(l, width, m - 1);
      RowNoFallback(l, m - 1, width);
    }
  }

  /** No row holds the fallback glyph. */
  lemma {:induction false} RowNoFallback(l: Layout, y: int, n: nat)
    requires forall x | 0 <= x < n :: (x, y) in l
    ensures '╳' !in RowText(l, y, n)
  {
    if n > 0 {
      RowNoFallback(l, y, n - 1);
    }
  }

  /** How `connectTo` ends: normally; rejected before any write when the
      lowered name is not a direction; or with the KeyError that the lookup in
      `_opposites` raises for a name that is a direction only once lowered,
      after the passage under the name as given has been written. */
  datatype Outcome = Connected | InvalidDirection | KeyError

  /** A tile of the maze: its four passages, whether the generator has
      visited it, what spawns on it, and its coordinates. `strayPaths` holds
      the other keys `paths` gains: names of a direction in another case,
      written by connectTo before it fails. */
  class Tile {
    var paths: Passages
    var strayPaths: set<string>
    var visited: bool
    var spawn: Spawn
    const x: int
    const y: int

    /** The passage in direction `d` is open. */
    predicate Open(d: Dir)
      reads this`paths
    {
      paths.Get(d)
    }

    /** Tile(x, y): all four passages closed, unvisited, nothing to spawn. */
    constructor (x: int, y: int)
      ensures this.x == x && this.y == y
      ensures paths == Passages(false, false, false, false)
      ensures strayPaths == {}
      ensures forall d: Dir :: !Open(d)
      ensures !visited && spawn == Nothing
    {
      this.x, this.y := x, y;
      paths := Passages(false, false, false, false);
      strayPaths := {};
      visited := false;
      spawn := Nothing;
    }

    /** Tile.getAdjCoords: the neighbour's coordinates for a direction name in
        any case; `None` stands for the ValueError raised for anything else. */
    function AdjCoords(direction: string): (r: Option<(int, int)>)
      ensures r.Some? <==> Parse(Lower(direction)).Some?
      ensures r.Some? ==> r.value == Step(x, y, Parse(Lower(direction)).value)
    {
      var d := Lower(direction);
      if d == "north" then Some((x, y - 1))
      else if d == "east" then Some((x + 1, y))
      else if d == "south" then Some((x, y + 1))
      else if d == "west" then Some((x - 1, y))
      else None
    }

    /** connectTo: opens passage `direction` of this tile and the opposite
        passage of `other`, which may be this tile itself. The name is checked
        in lower case but used as given, so a direction written in another
        case adds a stray key and then fails looking up its opposite. */
    method ConnectTo(other: Tile, direction: string) returns (r: Outcome)
      modifies this, other
      ensures r == InvalidDirection <==> Parse(Lower(direction)).None?
      ensures r == Connected <==> Parse(direction).Some?
      ensures visited == old(visited) && spawn == old(spawn)
      ensures other.visited == old(other.visited) && other.spawn == old(other.spawn)
      ensures r != Connected ==> paths == old(paths) && other.paths == old(other.paths)
      ensures r == InvalidDirection ==> strayPaths == old(strayPaths) && other.strayPaths == old(other.strayPaths)
      ensures r == KeyError ==> strayPaths == old(strayPaths) + {direction}
      ensures r == KeyError && other != this ==> other.strayPaths == old(other.strayPaths)
      ensures r == Connected ==> strayPaths == old(strayPaths) && other.strayPaths == old(other.strayPaths)
      ensures r == Connected && other != this ==>
        paths == old(paths).With(Parse(direction).value) &&
        other.paths == old(other.paths).With(Opposite(Parse(direction).value))
      ensures r == Connected && other == this ==>
        paths == old(paths).With(Parse(direction).value).With(Opposite(Parse(direction).value))
    {
      var d := Lower(direction);
      if Parse(d).None? {
        if Parse(direction).Some? {
          ParseName(direction);
          LowerName(Parse(direction).value);
        }
        return InvalidDirection;
      }
      var known := Parse(direction);
      if known.None? {
        strayPaths := strayPaths + {direction};
        return KeyError;
      }
      paths := paths.With(known.value);
      other.paths := other.paths.With(Opposite(known.value));
      r := Connected;
    }
  }

  /** A draw, with the draws past the end of the sequence read as 0. */
  function Draw(draws: seq<nat>, i: nat): nat
  {
    if i < |draws| then draws[i] else 0
  }

  /** The maze: `width` by `height` tiles keyed by their coordinates. */
  class Map {
    const width: int
    const height: int
    const maze: map<(int, int), Tile>

    /** The keys are exactly the grid and each tile sits at its key. */
    ghost predicate Valid()
    {
      0 < width && 0 < height &&
      (forall k :: k in maze <==> 0 <= k.0 < width && 0 <= k.1 < height) &&
      (forall k | k in maze :: maze[k].x == k.0 && maze[k].y == k.1)
    }


    /** The passages of the tiles of the maze. */
    ghost function Layout(): (l: Layout)
      reads maze.Values`paths
      ensures l.Keys == maze.Keys
    {
      map k | k in maze :: maze[k].paths
    }

    /** Every open passage leads to a tile of the map whose opposite passage
        is open too. */
    ghost predicate Symmetric()
      reads maze.Values`paths
    {
      SymmetricLayout(Layout())
    }

    /** What spawns on the tiles of the maze. */
    ghost function SpawnMap(): (m: map<(int, int), Spawn>)
      reads maze.Values`spawn
      ensures m.Keys == maze.Keys
    {
      map k | k in maze :: maze[k].spawn
    }

    /** The keys of the tiles the generator has not visited. */
    ghost function Unvisited(): set<(int, int)>
      reads maze.Values`visited
    {
      set k | k in maze && !maze[k].visited
    }

    /** The tiles of Map(width, height) before any passage is carved: one
        fresh closed tile per coordinate pair of the grid. */
    constructor (width: int, height: int)
      requires width > 0 && height > 0
      ensures this.width == width && this.height == height
      ensures Valid() && fresh(maze.Values)
      ensures forall k | k in maze :: !maze[k].visited && maze[k].spawn == Nothing && maze[k].strayPaths == {}
      ensures forall k | k in maze :: maze[k].paths == Passages(false, false, false, false)
    {
      this.width, this.height := width, height;
      var m: map<(int, int), Tile> := map[];
      for x := 0 to width
        invariant forall k :: k in m <==> 0 <= k.0 < x && 0 <= k.1 < height
        invariant forall k | k in m :: fresh(m[k]) && m[k].x == k.0 && m[k].y == k.1
        invariant forall k | k in m :: !m[k].visited && m[k].spawn == Nothing && m[k].strayPaths == {}
        invariant forall k | k in m :: m[k].paths == Passages(false, false, false, false)
      {
        for y := 0 to height
          invariant forall k :: k in m <==> (0 <= k.0 < x && 0 <= k.1 < height) || (k.0 == x && 0 <= k.1 < y)
          invariant forall k | k in m :: fresh(m[k]) && m[k].x == k.0 && m[k].y == k.1
          invariant forall k | k in m :: !m[k].visited && m[k].spawn == Nothing && m[k].strayPaths == {}
          invariant forall k | k in m :: m[k].paths == Passages(false, false, false, false)
        {
          var t := new Tile(x, y);
          m := m[(x, y) := t];
        }
      }
      maze := m;
    }

    /** Map(width, height): the tiles, the passages carved from `pathDraws`,
        the player's spawn drawn from `playerDraws` and the monsters of
        setMonsterSpawns(4) drawn from `monsterDraws`. `None` stands for the
        ValueError raised when a dimension is not positive. */
    static method Create(width: int, height: int, pathDraws: seq<nat>, playerDraws: seq<nat>, monsterDraws: seq<nat>)
      returns (r: Option<Map>)
      ensures r.None? <==> width <= 0 || height <= 0
      ensures r.Some? ==> fresh(r.value) && r.value.width == width && r.value.height == height
      ensures r.Some? ==> r.value.Valid() && r.value.Symmetric()
      ensures r.Some? ==> forall k | k in r.value.Layout() && k != r.value.RandomCoord(pathDraws, 0) ::
        r.value.Layout()[k].Any()
      ensures r.Some? ==> |Where(r.value.SpawnMap(), PlayerSpawn)| == if |playerDraws| > 0 then 1 else 0
      ensures r.Some? ==> |Where(r.value.SpawnMap(), MonsterSpawn)| <= 5
      ensures r.Some? ==>
        |Where(r.value.SpawnMap(), MonsterSpawn)| == 5 ||
        forall n: nat | 2 * n < |monsterDraws| :: r.value.SpawnMap()[r.value.Attempt(monsterDraws, 0, n)] != Nothing
    {
      if width <= 0 || height <= 0 {
        return None;
      }
      var m := new Map(width, height);
      assert forall k | k in m.Layout() :: m.Layout()[k] == Passages(false, false, false, false);
      m.MakePaths(pathDraws);
      var monsters := m.PlaceSpawns(playerDraws, monsterDraws);
      r := Some(m);
    }

    /** The spawn part of Map(width, height) on a maze where nothing spawns
        yet: setPlayerSpawn, then setMonsterSpawns(4). */
    method PlaceSpawns(playerDraws: seq<nat>, monsterDraws: seq<nat>) returns (monsters: nat)
      requires Valid()
      requires forall k | k in maze :: maze[k].spawn == Nothing
      modifies maze.Values`spawn
      ensures |Where(SpawnMap(), PlayerSpawn)| == if |playerDraws| > 0 then 1 else 0
      ensures |Where(SpawnMap(), MonsterSpawn)| == monsters <= 5
      ensures monsters == 5 || forall n: nat | 2 * n < |monsterDraws| :: SpawnMap()[Attempt(monsterDraws, 0, n)] != Nothing
    {
      ghost var empty := SpawnMap();
      assert Where(empty, PlayerSpawn) == {} && Where(empty, MonsterSpawn) == {};
      var at := SetPlayerSpawn(playerDraws);
      if |playerDraws| > 0 {
        assert Attempt(playerDraws, 0, 0) in empty;
      }
      ghost var withPlayer := SpawnMap();
      PlacedKeepsOthers(empty, withPlayer, PlayerSpawn, MonsterSpawn);
      monsters := SetMonsterSpawns(4, monsterDraws);
      PlacedKeepsOthers(withPlayer, SpawnMap(), MonsterSpawn, PlayerSpawn);
    }

    /** isOutOfBounds: outside the grid, which is exactly outside the maze. */
    predicate IsOutOfBounds(x: int, y: int)
      reads maze.Values
      requires Valid()
      ensures IsOutOfBounds(x, y) <==> (x, y) !in maze
    {
      x < 0 || x >= width || y < 0 || y >= height
    }

    /** `__contains__`: a coordinate pair is in the map when it keys a tile. */
    predicate Contains(coordinate: (int, int))
      reads maze.Values
      requires Valid()
      ensures Contains(coordinate) <==> 0 <= coordinate.0 < width && 0 <= coordinate.1 < height
    {
      coordinate in maze
    }

    /** getRandomCoord with the two draws at `i` and `i + 1`. */
    function RandomCoord(draws: seq<nat>, i: nat): (k: (int, int))
      requires 0 < width && 0 < height
      ensures 0 <= k.0 < width && 0 <= k.1 < height
    {
      (Draw(draws, i) % width, Draw(draws, i + 1) % height)
    }

    /** makePaths: a depth-first backtracker from a random tile, run on the
        closed, unvisited tiles of a new map. The top of the stack looks in
        random directions, without a passage yet, for an unvisited tile of the
        map; it connects to the first one found, marks it visited and pushes
        it, or else is popped. The passages come out symmetric, and every tile
        but the start is visited and has a passage. The start tile is not
        marked visited, so it may be entered again. */
    method MakePaths(draws: seq<nat>)
      requires Valid()
      requires Unvisited() == maze.Keys
      requires forall k | k in Layout() :: !Layout()[k].Any()
      modifies maze.Values
      ensures Symmetric()
      ensures Unvisited() <= {RandomCoord(draws, 0)}
      ensures forall k | k in Layout() && k != RandomCoord(draws, 0) :: Layout()[k].Any()
      ensures forall k | k in maze :: maze[k].spawn == old(maze[k].spawn) && maze[k].strayPaths == old(maze[k].strayPaths)
    {
      var start := RandomCoord(draws, 0);
      var i := 2;
      // The stack holds the tiles' coordinates, under which `maze` keeps
      // them for good.
      var stack := [start];
      ghost var popped: set<(int, int)> := {};
      BacktrackingStarts(maze.Keys, Layout(), start);
      assert Symmetric() by {
        forall k, e | k in Layout()
          ensures !Layout()[k].Get(e)
        {
          assert !Layout()[k].Any();
        }
      }
      while |stack| > 0
        invariant Symmetric()
        invariant Backtracking(maze.Keys, Layout(), Unvisited(), stack, popped, start)
        invariant forall k | k in maze :: maze[k].spawn == old(maze[k].spawn) && maze[k].strayPaths == old(maze[k].strayPaths)
        decreases Unvisited(), |stack|
      {
        ghost var l, u := Layout(), Unvisited();
        var next, d;
        next, d, i := Visit(stack[|stack| - 1], draws, i);
        if next.None? {
          BacktrackingPop(maze.Keys, l, u, stack, popped, start);
          popped := popped + {stack[|stack| - 1]};
          stack := stack[..|stack| - 1];
        } else {
          BacktrackingPush(maze.Keys, l, u, stack, popped, start, d);
          stack := stack + [next.value];
        }
      }
      BacktrackingEnds(maze.Keys, width, height, Layout(), Unvisited(), popped, start);
    }

    /** One round of makePaths' loop on the tile at the top of the stack:
        a step forward in direction `d` to a neighbour not yet visited, or,
        when every closed passage leads to a visited tile, no change at all
        (the caller then pops the tile). */
    method Visit(here: (int, int), draws: seq<nat>, i: nat) returns (next: Option<(int, int)>, d: Dir, j: nat)
      requires Valid() && Symmetric() && here in maze
      modifies maze.Values
      ensures Symmetric()
      ensures next.Some? ==>
        next.value == Step(here.0, here.1, d) && next.value in old(Unvisited()) &&
        Unvisited() == old(Unvisited()) - {next.value} && Layout() == Carved(old(Layout()), here, d)
      ensures next.None? ==>
        Unvisited() == old(Unvisited()) && Layout() == old(Layout()) &&
        forall e | Step(here.0, here.1, e) in maze && !Layout()[here].Get(e) :: Step(here.0, here.1, e) !in Unvisited()
      ensures forall k | k in maze :: maze[k].spawn == old(maze[k].spawn) && maze[k].strayPaths == old(maze[k].strayPaths)
    {
      var tile := maze[here];
      next, d, j := LookAround(tile, draws, i);
      if next.Some? {
        Advance(here, d);
      }
    }

    /** A forward step of makePaths: connects the tile at `here` to its
        unvisited neighbour in direction `d` and marks the neighbour visited. */
    method Advance(here: (int, int), d: Dir)
      requires Valid() && Symmetric()
      requires here in maze && Step(here.0, here.1, d) in maze && !maze[Step(here.0, here.1, d)].visited
      modifies maze.Values
      ensures Symmetric()
      ensures Layout() == Carved(old(Layout()), here, d)
      ensures Unvisited() == old(Unvisited()) - {Step(here.0, here.1, d)}
      ensures forall k | k in maze :: maze[k].spawn == old(maze[k].spawn) && maze[k].strayPaths == old(maze[k].strayPaths)
    {
      var there := Step(here.0, here.1, d);
      Carve(here, d);
      maze[there].visited := true;
    }

    /** The coordinates of retry `n` of a search for a free tile that starts
        at draw `i`. */
    function Attempt(draws: seq<nat>, i: nat, n: nat): (k: (int, int))
      requires 0 < width && 0 < height
      ensures 0 <= k.0 < width && 0 <= k.1 < height
    {
      RandomCoord(draws, i + 2 * n)
    }

    /** The retry loop of setPlayerSpawn and setMonsterSpawns: random tiles
        are drawn until one has nothing to spawn. The result is the first
        drawn tile that is free, after `tries` occupied ones; `None` when the
        draws run out first. */
    method FindFree(draws: seq<nat>, i: nat) returns (k: Option<(int, int)>, tries: nat)
      requires Valid()
      ensures forall n: nat | n < tries :: maze[Attempt(draws, i, n)].spawn != Nothing
      ensures k.Some? ==> k.value == Attempt(draws, i, tries) && maze[k.value].spawn == Nothing
      ensures k.Some? ==> i + 2 * tries < |draws|
      ensures k.None? ==> i + 2 * tries >= |draws|
    {
      tries := 0;
      while i + 2 * tries < |draws|
        invariant forall n: nat | n < tries :: maze[Attempt(draws, i, n)].spawn != Nothing
        decreases |draws| - 2 * tries
      {
        var c := RandomCoord(draws, i + 2 * tries);
        if maze[c].spawn == Nothing {
          return Some(c), tries;
        }
        tries := tries + 1;
      }
      k := None;
    }

    /** setPlayerSpawn: the first free tile drawn gets the player. */
    method SetPlayerSpawn(draws: seq<nat>) returns (at: Option<(int, int)>)
      requires Valid()
      modifies maze.Values`spawn
      ensures at.Some? ==> at.value in maze && old(maze[at.value].spawn) == Nothing
      ensures at.Some? ==>
        exists t: nat ::
          2 * t < |draws| && at.value == Attempt(draws, 0, t) &&
          forall n: nat | n < t :: old(SpawnMap())[Attempt(draws, 0, n)] != Nothing
      ensures at.None? ==> forall n: nat | 2 * n < |draws| :: old(SpawnMap())[Attempt(draws, 0, n)] != Nothing
      ensures SpawnMap() == if at.Some? then old(SpawnMap())[at.value := PlayerSpawn] else old(SpawnMap())
      ensures PlacedOnFree(old(SpawnMap()), SpawnMap(), PlayerSpawn)
      ensures |Where(SpawnMap(), PlayerSpawn)| == |Where(old(SpawnMap()), PlayerSpawn)| + (if at.Some? then 1 else 0)
    {
      var tries;
      at, tries := FindFree(draws, 0);
      assert forall n: nat | n < tries :: old(SpawnMap())[Attempt(draws, 0, n)] != Nothing;
      if at.Some? {
        maze[at.value].spawn := PlayerSpawn;
        assert SpawnMap() == old(SpawnMap())[at.value := PlayerSpawn];
        PlaceOne(old(SpawnMap()), at.value, PlayerSpawn);
      }
    }

    /** setMonsterSpawns: `numMonsters + 1` monsters (none when that is not
        positive), each on the first free tile drawn from the draws left by
        the previous one; `placed` says how many were placed before the
        draws ran out. */
    method SetMonsterSpawns(numMonsters: int, draws: seq<nat>) returns (placed: nat)
      requires Valid()
      modifies maze.Values`spawn
      ensures placed <= (if numMonsters + 1 > 0 then numMonsters + 1 else 0)
      ensures PlacedOnFree(old(SpawnMap()), SpawnMap(), MonsterSpawn)
      ensures |Where(SpawnMap(), MonsterSpawn)| == |Where(old(SpawnMap()), MonsterSpawn)| + placed
      ensures placed < (if numMonsters + 1 > 0 then numMonsters + 1 else 0) ==>
        forall n: nat | 2 * n < |draws| :: SpawnMap()[Attempt(draws, 0, n)] != Nothing
    {
      var count := if numMonsters + 1 > 0 then numMonsters + 1 else 0;
      var j: nat := 0;
      placed := 0;
      for n := 0 to count
        invariant placed == n
        invariant j % 2 == 0
        invariant PlacedOnFree(old(SpawnMap()), SpawnMap(), MonsterSpawn)
        invariant |Where(SpawnMap(), MonsterSpawn)| == |Where(old(SpawnMap()), MonsterSpawn)| + placed
        invariant forall m: nat | 2 * m < j :: SpawnMap()[Attempt(draws, 0, m)] != Nothing
      {
        ghost var before := SpawnMap();
        var at;
        at, j := PlaceMonster(draws, j);
        if at.None? {
          return;
        }
        PlaceOne(before, at.value, MonsterSpawn);
        PlacedOnFreeTransitive(old(SpawnMap()), before, SpawnMap(), MonsterSpawn);
        placed := placed + 1;
      }
    }

    /** One round of setMonsterSpawns' loop, on the draws from `j` on: the
        first free tile drawn gets a monster, and `next` is where the draws
        of the following round start. Every draw pair in between names an
        occupied tile; when the draws run out, so do all the rest. */
    method PlaceMonster(draws: seq<nat>, j: nat) returns (at: Option<(int, int)>, next: nat)
      requires Valid() && j % 2 == 0
      modifies maze.Values`spawn
      ensures at.None? ==> SpawnMap() == old(SpawnMap()) && next == j
      ensures at.None? ==>
        forall m: nat | j <= 2 * m < |draws| :: SpawnMap()[Attempt(draws, 0, m)] != Nothing
      ensures at.Some? ==>
        at.value in maze && old(maze[at.value].spawn) == Nothing &&
        SpawnMap() == old(SpawnMap())[at.value := MonsterSpawn] &&
        j < next && next % 2 == 0
      ensures forall m: nat | 2 * m < j :: old(SpawnMap())[Attempt(draws, 0, m)] != Nothing ==>
        SpawnMap()[Attempt(draws, 0, m)] != Nothing
      ensures forall m: nat | j <= 2 * m < next :: SpawnMap()[Attempt(draws, 0, m)] != Nothing
    {
      var tries;
      at, tries := FindFree(draws, j);
      // Retry `m` of this search is draw pair `j / 2 + m` of the whole sequence.
      forall m: nat | j <= 2 * m < j + 2 * tries
        ensures old(SpawnMap())[Attempt(draws, 0, m)] != Nothing
      {
        assert Attempt(draws, j, m - j / 2) == Attempt(draws, 0, m);
      }
      if at.None? {
        next := j;
        return;
      }
      next := j + 2 * tries + 2;
      maze[at.value].spawn := MonsterSpawn;
      assert SpawnMap() == old(SpawnMap())[at.value := MonsterSpawn];
      assert Attempt(draws, 0, j / 2 + tries) == at.value;
    }

    /** toList: the maze as a `3 * width` by `3 * height` grid of codes,
        indexed by x first, with one 3x3 block per tile. */
    method ToList() returns (result: array2<int>)
      requires Valid()
      ensures fresh(result)
      ensures result.Length0 == 3 * width && result.Length1 == 3 * height
      ensures forall i: nat, j: nat | i < 3 * width && j < 3 * height ::
        result[i, j] == CellCode(Layout(), SpawnMap(), i, j)
    {
      ghost var l, sp := Layout(), SpawnMap();
      result := new int[3 * width, 3 * height]((i, j) => 1);
      for x := 0 to width
        invariant forall i: nat, j: nat | i < 3 * width && j < 3 * height ::
          result[i, j] == if i < 3 * x then CellCode(l, sp, i, j) else 1
      {
        for y := 0 to height
          invariant forall i: nat, j: nat | i < 3 * width && j < 3 * height ::
            result[i, j] == if i < 3 * x || (i < 3 * x + 3 && j < 3 * y) then CellCode(l, sp, i, j) else 1
        {
          EncodeTile(result, x, y);
          forall i: nat, j: nat | 3 * x <= i < 3 * x + 3 && 3 * y <= j < 3 * y + 3
            ensures CellCode(l, sp, i, j) == BlockCode(l[(x, y)], sp[(x, y)], i - 3 * x, j - 3 * y)
          {
            DivThree(i, x);
            DivThree(j, y);
          }
        }
      }
    }

    /** The body of toList's loops for tile (x, y): writes the centre of its
        block and the middle of each side with an open passage. */
    method EncodeTile(result: array2<int>, x: int, y: int)
      requires Valid() && 0 <= x < width && 0 <= y < height
      requires result.Length0 == 3 * width && result.Length1 == 3 * height
      requires forall i, j | 3 * x <= i < 3 * x + 3 && 3 * y <= j < 3 * y + 3 :: result[i, j] == 1
      modifies result
      ensures forall i, j | 0 <= i < 3 * width && 0 <= j < 3 * height ::
        result[i, j] ==
          if 3 * x <= i < 3 * x + 3 && 3 * y <= j < 3 * y + 3
          then BlockCode(maze[(x, y)].paths, maze[(x, y)].spawn, i - 3 * x, j - 3 * y)
          else old(result[i, j])
    {
      var tile := maze[(x, y)];
      var x1 := 3 * x;
      var x2 := x1 + 1;
      var x3 := x1 + 2;
      var y1 := 3 * y;
      var y2 := y1 + 1;
      var y3 := y1 + 2;
      result[x2, y2] := SpawnCode(tile.spawn);
      if tile.paths.north { result[x2, y1] := 0; }
      if tile.paths.east { result[x3, y2] := 0; }
      if tile.paths.south { result[x2, y3] := 0; }
      if tile.paths.west { result[x1, y2] := 0; }
    }

    /** `__str__`: a line break, then one line per row of tiles, north
        first, with one glyph per tile from west to east. */
    method ToString() returns (result: string)
      requires Valid()
      ensures result == "\n" + Picture(Layout(), width, height)
    {
      ghost var l := Layout();
      result := "\n";
      for y := 0 to height
        invariant result == "\n" + Picture(l, width, y)
      {
        for x := 0 to width
          invariant result == "\n" + Picture(l, width, y) + RowText(l, y, x)
        {
          var t := maze[(x, y)];
          result := result + [Glyph(t.paths)];
        }
        result := result + "\n";
      }
    }

    /** The direction search of makePaths for the tile on top of the stack,
        drawing from `draws` at `i` on: directions are drawn without
        replacement until one without a passage leads to an unvisited tile of
        the map. `None` means every direction was tried in vain; `j` is the
        index of the first draw left. */
    method LookAround(tile: Tile, draws: seq<nat>, i: nat) returns (next: Option<(int, int)>, d: Dir, j: nat)
      ensures i <= j <= i + 4
      ensures next.Some? ==>
        !tile.Open(d) && next.value == Step(tile.x, tile.y, d) && next.value in maze && !maze[next.value].visited
      ensures next.None? ==>
        forall e | !tile.Open(e) && Step(tile.x, tile.y, e) in maze :: maze[Step(tile.x, tile.y, e)].visited
    {
      var directions := Directions;
      var adjTile: Option<(int, int)> := None;
      d := North;
      j := i;
      while |directions| > 0 && (adjTile.None? || maze[adjTile.value].visited)
        invariant j - i + |directions| == 4
        invariant forall a, b | 0 <= a < b < |directions| :: directions[a] != directions[b]
        invariant adjTile.Some? ==> adjTile.value in maze
        invariant adjTile.Some? && !maze[adjTile.value].visited ==>
          !tile.Open(d) && adjTile.value == Step(tile.x, tile.y, d)
        invariant adjTile.None? || maze[adjTile.value].visited ==>
          forall e | e !in directions && !tile.Open(e) && Step(tile.x, tile.y, e) in maze ::
            maze[Step(tile.x, tile.y, e)].visited
        decreases |directions|
      {
        var choice := Draw(draws, j) % |directions|;
        j := j + 1;
        d := directions[choice];
        directions := directions[..choice] + directions[choice + 1..];
        if !tile.paths.Get(d) {
          var c := Neighbour(tile, d);
          if c in maze {
            adjTile := Some(c);
          }
        }
      }
      next := if adjTile.Some? && !maze[adjTile.value].visited then adjTile else None;
    }

    /** The connectTo call of makePaths: opens passage `d` of the tile at
        `here` and the opposite passage of its neighbour, which keeps the
        passages symmetric. */
    method Carve(here: (int, int), d: Dir)
      requires Valid() && Symmetric()
      requires here in maze && Step(here.0, here.1, d) in maze
      modifies maze[here], maze[Step(here.0, here.1, d)]
      ensures Symmetric()
      ensures Layout() == Carved(old(Layout()), here, d)
      ensures forall k | k in maze :: maze[k].visited == old(maze[k].visited) && maze[k].spawn == old(maze[k].spawn) && maze[k].strayPaths == old(maze[k].strayPaths)
    {
      var there := Step(here.0, here.1, d);
      var tile, adjTile := maze[here], maze[there];
      ghost var before := Layout();
      Join(tile, adjTile, d);
      forall k | k in maze
        ensures Layout()[k] == Carved(before, here, d)[k]
      {
        if maze[k] == tile {
          assert k == here;
        } else if maze[k] == adjTile {
          assert k == there;
        }
      }
      CarvedSymmetric(before, here, d);
    }
  }

  /** `tile.getAdjCoords(d)` for a direction drawn by makePaths. */
  method Neighbour(tile: Tile, d: Dir) returns (c: (int, int))
    ensures c == Step(tile.x, tile.y, d)
  {
    LowerName(d);
    c := tile.AdjCoords(Name(d)).value;
  }

  /** `tile.connectTo(adjTile, d)` for a direction drawn by makePaths, with
      two different tiles. */
  method Join(tile: Tile, adjTile: Tile, d: Dir)
    requires tile != adjTile
    modifies tile, adjTile
    ensures tile.paths == old(tile.paths).With(d)
    ensures adjTile.paths == old(adjTile.paths).With(Opposite(d))
    ensures tile.visited == old(tile.visited) && tile.spawn == old(tile.spawn)
    ensures adjTile.visited == old(adjTile.visited) && adjTile.spawn == old(adjTile.spawn)
    ensures tile.strayPaths == old(tile.strayPaths) && adjTile.strayPaths == old(adjTile.strayPaths)
  {
    LowerName(d);
    var r := tile.ConnectTo(adjTile, Name(d));
  }
}
