# Dungeon crawler and strategy map: a Dafny model

This project models the game logic of a small browser game and of the maze
generator that feeds it.

- **Maze generator** (`utils.py`, `maze.dfy`): a map of `width` by `height`
  tiles keyed by their coordinates, each tile with four passages (north,
  east, south, west).
  - `makePaths` carves the passages with a randomized depth-first
    backtracker.
  - `setPlayerSpawn` and `setMonsterSpawns` put the player and the monsters
    on free tiles.
  - `toList` encodes the maze as a grid of codes, with a 3x3 block per tile:
    0 floor, 1 wall, 2 player, 3 monster.
  - `__str__` draws the maze with box-drawing glyphs.
- **Dungeon client** (`scripts/game_backup.js`):
  - `grid.dfy`: `initMap` turns that grid of codes into the dungeon of Wall
    and Floor tiles, the wall list, the monster spawns and the player.
  - `monster.dfy`: each monster decides where to go. It scans the four rays
    for the player, runs a breadth-first pursuit search bounded by
    `maxPursuitRange`, and wanders in random directions (`getNextTile`).
    `doMove` turns the chosen destination into a movement vector.
  - `controls.dfy`: the W/A/S/D key flags and the direction `update`
    derives from them.
- **Strategy map client** (`scripts/game.js`, `armies.dfy`): a territory
  keeps an army count and an owner, and a player keeps a reserve of
  reinforcements. `removeArmies` and `giveReinforcments` throw on a bad
  amount; `addArmies`, as written, never throws (see Findings).

Classes are used where the source updates objects in place: `Maze.Tile`,
`Maze.Map`, `MonsterAI.Monster`, `Controls.Keys`, `Armies.Territory` and
`Armies.Player`. Each of their methods is proved against value-level
functions (`Layout`, `Carved`, `Picture`, `Sight`, `Follow`, `AfterRemove`,
and so on). The properties are proved about those functions.

Randomness (`Math.random`, `random.randint`, `random.choice`) is a parameter:
a sequence of draws `draws: seq<nat>`. A draw `v` chooses `v % n` among `n`
options. The game's globals (`game.dungeon`, `game.player`) are parameters
too.

Behaviours of the source that the model keeps as written:

- **The start tile of `makePaths` is never marked visited** (utils.py:118-120),
  so another tile can connect back into it. The model proves every tile
  except the start is visited and has a passage.
- **`setMonsterSpawns(n)` places `n + 1` monsters** (utils.py:170), so the
  map gets 5 of them.
- **`connectTo` checks the lower-cased name but writes the name as given**
  (utils.py:80-84). A direction in another case adds a stray key to `paths`,
  then fails with a KeyError when it looks up `_opposites`.
  - The error message for an invalid name is built with `%(direction) i`,
    which formats the direction string with the integer conversion `i`, so
    Python raises a TypeError rather than the ValueError. Both are modelled
    as the one outcome `InvalidDirection`.
- **The pursuit search steps from `node.tile.x, node.tile.y`**
  (scripts/game_backup.js:336). For every node but the root, those are a
  tile's world coordinates, not grid indices. Its `visited.indexOf(adjTile)`
  test compares a tile with search nodes and never matches.
- **`getNextTile` checks bounds with `>`** (scripts/game_backup.js:396-397).
  An index equal to the dungeon's length gets through, and the lookup
  throws (`MonsterAI.EastEdgeCrash`). It also uses a random index into the
  shrinking candidate array as a direction.
- **`initMap` declares `var tile` in function scope**
  (scripts/game_backup.js:154). A code outside 0..3 re-stores the previous
  cell's tile (`Grid.UnknownCodeRepeatsPreviousTile`).
- **`addArmies` adds only amounts below 1** (scripts/game.js:99-100): the
  guard has no `throw`. See Findings.

## Model

| member | source | states |
|---|---|---|
| Grid.AdjacentCoords | scripts/game_backup.js:10-36 | defined exactly for the four direction numbers, one tile away along the named axis (north is smaller y); undefined where the source throws |
| Grid.AdjacentUndo | scripts/game_backup.js:5-36 | stepping in a direction and then in `(dir + 2) % 4` returns to the start |
| Grid.AdjacentInjective | scripts/game_backup.js:10-36 | different directions lead to different neighbours |
| Grid.RoundIndex | scripts/game_backup.js:509-510 | `Math.round(v / TILE_WIDTH)` is the index whose tile square holds `v`, halves rounding up |
| Grid.TileIndices | scripts/game_backup.js:508-513 | a creature's tile indices name the tile whose square contains its position |
| Grid.ContainsCreature | scripts/game_backup.js:107-116 | a creature strictly inside a tile placed on the grid has that tile's indices |
| Grid.TileIndicesOfPlacedTile | scripts/game_backup.js:265-270 | a tile placed at `c * TILE_WIDTH` reports the indices `c` |
| Grid.ContainedCreatureIndices | scripts/game_backup.js:107-116 | a creature that `containsCreature` places in a grid tile reports that tile's indices |
| Grid.AtMostOneTile | scripts/game_backup.js:107-116 | no point is contained in two different grid tiles |
| Grid.SharedEdgeInNoTile | scripts/game_backup.js:107-116 | the bounds are strict: a point on an edge between two columns is in neither tile |
| Grid.InitMap | scripts/game_backup.js:145-175 | the dungeon has one column per code column, each `mapData[0].length` long, with the tile of each cell; the walls are exactly the code-1 cells and the monsters exactly the code-3 cells, in scan order; the player ends at the last code-2 cell |
| Grid.LoadColumn | scripts/game_backup.js:153-173 | one column: each cell gets its tile and the wall, monster and player lists grow by that column's cells |
| Grid.LoadCell | scripts/game_backup.js:154-172 | one pass of the inner loop leaves the running tile, walls, monsters and player as the cell-by-cell definitions give them one cell further |
| Grid.CellStep | scripts/game_backup.js:154-172 | one cell: a code 1, 3 or 2 cell adds a wall, adds a monster or moves the player, and other codes change none of them |
| Grid.TileStep | scripts/game_backup.js:154-172 | one cell: a code the switch matches replaces the running tile and any other keeps the previous cell's |
| Grid.RowCellsExact | scripts/game_backup.js:155-171 | a cell is collected from a column exactly when it is before the current row and holds the code |
| Grid.GridCellsExact | scripts/game_backup.js:151-174 | the collected cells are exactly the cells read by initMap that hold the code |
| Grid.RowCellsOrdered | scripts/game_backup.js:153-173 | the cells collected from a column come in increasing y |
| Grid.GridCellsOrdered | scripts/game_backup.js:151-174 | the collected cells come in strictly increasing x-then-y scan order |
| Grid.LoadedCellOfKnownCode | scripts/game_backup.js:155-172 | a cell with code 0..3 loads as a Wall (code 1) or a Floor, centred at its own indices |
| Grid.LoadedDungeonWellPlaced | scripts/game_backup.js:145-175 | a rectangular grid of codes 0..3 loads into a dungeon whose every cell holds a tile centred at its indices |
| Grid.UnknownCodeRepeatsPreviousTile | scripts/game_backup.js:154-172 | an unknown code stores the previous cell's tile again |
| MonsterAI.RayFindsExact | scripts/game_backup.js:297-314 | a ray succeeds exactly when a Floor tile strictly beyond the monster, reached through Floor tiles only, contains the player |
| MonsterAI.BlockedRay | scripts/game_backup.js:301-314 | a cell off the map or not Floor hides everything behind it |
| MonsterAI.Sight | scripts/game_backup.js:294-317 | the player is in sight exactly when, along one of the four directions, a Floor tile reached through Floor tiles only and strictly beyond the monster contains the player |
| MonsterAI.OwnTileNotScanned | scripts/game_backup.js:298-302 | the monster's own tile is never examined |
| MonsterAI.ChainShape | scripts/game_backup.js:350-355 | following parent links from a node gives a walk of its distance plus one steps back to the start |
| MonsterAI.FoundPathIsPursuitPath | scripts/game_backup.js:342-357 | a Floor tile holding the player one step from a walk within range yields a pursuit path |
| MonsterAI.TracePath | scripts/game_backup.js:350-357 | the returned path is the found tile followed by the parent chain, and it is a pursuit path |
| MonsterAI.NodesAppend | scripts/game_backup.js:343-362 | queueing a Floor neighbour one step further and within range keeps the search nodes well formed |
| MonsterAI.WalkReached | scripts/game_backup.js:332-367 | once every node closer than the range has queued its Floor neighbours, every walk of at most the range steps ends at a search node as far away as the walk is long |
| MonsterAI.PursuitPathFromNode | scripts/game_backup.js:319-367 | a pursuit path leaves from a search node closer than the range that has a Floor neighbour holding the player |
| MonsterAI.ExpandNode | scripts/game_backup.js:335-364 | a returned path is a pursuit path; otherwise no neighbour holds the player, every Floor neighbour is queued one step further, and at most four nodes, each linked to an earlier one, are added |
| MonsterAI.ExpandDir | scripts/game_backup.js:336-362 | one direction: a Floor neighbour holding the player gives a pursuit path; otherwise that neighbour does not hold the player and, when it is Floor, is queued one step further |
| MonsterAI.WeightDrops | scripts/game_backup.js:332-367 | expanding a node lowers the queue's weight, so the search terminates |
| MonsterAI.Wander | scripts/game_backup.js:386-404 | a returned tile is the Floor tile next to the monster in the new direction; going back is taken only when one candidate is left; without a tile the direction is kept; a crash needs the monster at the east edge |
| MonsterAI.EastEdgeCrash | scripts/game_backup.js:396-399 | the `>` bound lets an index equal to the dungeon length through and the lookup throws |
| MonsterAI.EmptyDungeonNorthSkipped | scripts/game_backup.js:396-397 | `y < 0` is tested before `dungeon[0]` is read, so on an empty dungeon a cell north of the map is skipped rather than thrown on |
| MonsterAI.Follow | scripts/game_backup.js:370-405 | a pending path gives its first entry and loses exactly that entry; without one, a returned tile is a Floor neighbour in the new direction, backwards only as a last resort, and without a tile the direction is kept |
| MonsterAI.IntentOf | scripts/game_backup.js:428-435 | there is a vector exactly when there is a destination, and it leads from the monster to the destination |
| MonsterAI.Monster.constructor | scripts/game_backup.js:278-292 | no target, no path, not pursuing, range 5 and starting direction `draw % 4` |
| MonsterAI.Monster.PlayerInSight | scripts/game_backup.js:294-317 | the scan returns exactly `Sight`: some ray finds the player |
| MonsterAI.Monster.GetPathToPlayer | scripts/game_backup.js:319-368 | a returned path is a pursuit path within `maxPursuitRange`; no path is returned only when no pursuit path within `maxPursuitRange` exists |
| MonsterAI.Monster.GetNextTile | scripts/game_backup.js:370-405 | the result, remaining path and new direction are `Follow`; position, target, range and pursuit flag are unchanged |
| MonsterAI.Monster.DoMove | scripts/game_backup.js:407-436 | with the player in sight the monster targets and heads for the player; otherwise the target is kept; when targeting the player and a pursuit path exists, the pending path is replaced by one and the vector points at its first entry; in every other case the vector is the one `Follow` gives; position, range and pursuit flag are unchanged |
| Controls.Keys.constructor | scripts/game_backup.js:46-50 | all four key flags start up |
| Controls.Keys.KeyDown | scripts/game_backup.js:62-77 | exactly the flag of the pressed W/S/A/D key is raised; other codes change nothing |
| Controls.Keys.KeyUp | scripts/game_backup.js:79-94 | exactly the flag of the released key is lowered; other codes change nothing |
| Controls.Keys.Direction | scripts/game_backup.js:215-222 | each axis is -1, +1 or 0 as exactly one or neither/both of its keys are down |
| Controls.PressRelease | scripts/game_backup.js:62-94 | releasing a key after pressing it leaves it up and every other flag as it was |
| Maze.Name | utils.py:6-11 | each direction's name parses back to it |
| Maze.ParseName | utils.py:6-19 | every string naming a direction is that direction's name |
| Maze.Opposite | utils.py:14-19 | no direction is its own opposite |
| Maze.OppositeInvolution | utils.py:14-19 | the opposite of the opposite is the direction itself |
| Maze.Step | utils.py:32-43 | a step changes one coordinate by one |
| Maze.OppositeUndoes | utils.py:32-43 | stepping in a direction and then in its opposite returns to the start |
| Maze.StepInjective | utils.py:32-43 | different directions lead to different tiles |
| Maze.GetAdjCoords | utils.py:32-43 | a direction name moves one tile that way; any other string leaves the coordinates as they are |
| Maze.Lower | utils.py:64 | lowering keeps the length, leaves no upper-case letter, keeps every other character and turns each upper-case letter into the same lower-case one |
| Maze.LowerIdempotent | utils.py:64 | lowering a lowered string changes nothing |
| Maze.LowerName | utils.py:80-81 | the direction names are already lower case |
| Maze.SpawnCode | utils.py:21-30 | the code of a spawn is 0, 2 or 3, never the wall code, and 0 exactly for no spawn |
| Maze.Passages.With | utils.py:83-84 | setting a passage opens exactly that passage and keeps the others |
| Maze.Carved | utils.py:83-84 | connecting two tiles keeps the set of tiles |
| Maze.CarvedSymmetric | utils.py:79-84 | connecting a tile to its neighbour keeps every passage matched by the opposite passage of the tile it leads to |
| Maze.CarvedOpens | utils.py:79-84 | connecting opens the two facing passages and closes none |
| Maze.BacktrackingStarts | utils.py:118-120 | the invariant of the backtracker holds with the start alone on the stack |
| Maze.BacktrackingPush | utils.py:151-154 | carving to an unvisited neighbour, marking it visited and pushing it keeps the invariant |
| Maze.BacktrackingPop | utils.py:145-146 | popping a tile whose closed passages all lead to visited tiles keeps the invariant |
| Maze.ClosedIsWhole | utils.py:96-100 | a set of grid tiles that holds one tile and every neighbour of its tiles is the whole grid |
| Maze.BacktrackingEnds | utils.py:122-154 | with the stack empty, every tile but the start is visited and has a passage |
| Maze.PlaceOne | utils.py:164 | giving a free tile a spawn adds exactly that tile to that spawn's tiles |
| Maze.PlacedOnFreeTransitive | utils.py:170-176 | placements on free tiles compose |
| Maze.PlacedKeepsOthers | utils.py:156-176 | placing one kind of spawn never moves or overwrites another kind |
| Maze.BlockCode | utils.py:206-226 | every code of a tile's block is in 0..3 |
| Maze.EncodedBlock | utils.py:182-228 | a block has wall corners and the spawn's code at the centre; the middle of a side is floor exactly when that passage is open |
| Maze.Encoding | utils.py:206-228 | the encoding is a `3 * width` by `3 * height` rectangle of codes 0..3, which is what initMap reads |
| Maze.PassageLoadsAsFloor | utils.py:223-226 | loaded by initMap, the middle of a side of a tile's block becomes a Floor tile when that passage is open and a Wall otherwise |
| Maze.Glyph | utils.py:236-271 | a tile's glyph is never the fallback or a line break, and it is "□" exactly for a tile without passages |
| Maze.GlyphInjective | utils.py:236-271 | the sixteen passage combinations get sixteen different glyphs |
| Maze.RowText | utils.py:234-272 | a row of the picture has one glyph per tile |
| Maze.RowTextAt | utils.py:234-272 | glyph x of a row is the glyph of tile (x, y) |
| Maze.PictureLength | utils.py:232-275 | the picture has one line per row, each one glyph per tile plus a line break |
| Maze.PictureAt | utils.py:232-275 | character x of line y is the glyph of tile (x, y), and a line break after the last tile |
| Maze.PictureNoFallback | utils.py:270-271 | the picture never holds the fallback glyph |
| Maze.RowNoFallback | utils.py:234-272 | no row holds the fallback glyph |
| Maze.Tile.constructor | utils.py:47-58 | a new tile has all passages closed, is unvisited and spawns nothing |
| Maze.Tile.AdjCoords | utils.py:60-77 | a direction name in any case gives the neighbour that way; anything else raises |
| Maze.Tile.ConnectTo | utils.py:79-84 | an invalid name changes nothing; a lower-case name opens this passage and the other tile's opposite one; a name in another case adds a stray key and then fails |
| Maze.Map.constructor | utils.py:88-100 | one fresh closed, unvisited tile with no spawn per coordinate pair of the grid, at its own coordinates |
| Maze.Map.Create | utils.py:88-104 | non-positive dimensions raise; otherwise the passages are symmetric, every tile but the start has a passage, the player is placed whenever there is a draw for it, and five monsters spawn unless every monster draw names an occupied tile |
| Maze.Map.PlaceSpawns | utils.py:103-104 | on a map where nothing spawns, the player is placed whenever there is a draw for it, and the number of monster tiles is the number placed: five, or fewer only when every monster draw names an occupied tile |
| Maze.Map.IsOutOfBounds | utils.py:178-180 | out of bounds exactly when the coordinates key no tile |
| Maze.Map.Contains | utils.py:277-278 | a coordinate pair is in the map exactly when it lies in the grid |
| Maze.Map.RandomCoord | utils.py:106-111 | a random coordinate pair lies in the grid |
| Maze.Map.MakePaths | utils.py:113-154 | on the new map the passages come out symmetric, every tile but the start is visited and has a passage, and spawns and stray keys are untouched |
| Maze.Map.Visit | utils.py:123-154 | one round either carves to an unvisited neighbour and marks it visited, or changes nothing when every closed passage leads to a visited tile |
| Maze.Map.Advance | utils.py:151-154 | the forward step carves the two passages and marks exactly the neighbour visited |
| Maze.Map.Attempt | utils.py:159-162 | every retry draws a pair in the grid |
| Maze.Map.FindFree | utils.py:159-162 | every tile drawn before the result is occupied and the result is free and drawn; without a result the draws are spent |
| Maze.Map.SetPlayerSpawn | utils.py:156-164 | the player goes to the drawn tile that is the first free one in draw order, and only it changes; without one every drawn tile was occupied |
| Maze.Map.SetMonsterSpawns | utils.py:166-176 | `numMonsters + 1` monsters go to free tiles unless every drawn tile ends up occupied; nothing else changes, and the monster count grows by exactly the number placed |
| Maze.Map.PlaceMonster | utils.py:170-175 | one round places a monster on the first free drawn tile and every draw pair it skipped names an occupied tile; when the draws run out, every remaining pair names an occupied tile |
| Maze.Map.ToList | utils.py:182-228 | a fresh `3 * width` by `3 * height` grid whose every cell holds the encoding of its tile's block |
| Maze.Map.EncodeTile | utils.py:210-226 | a tile's block gets its spawn code at the centre and floor at the middle of each open side; nothing else changes |
| Maze.Map.ToString | utils.py:230-275 | a line break followed by the picture of the maze |
| Maze.Map.LookAround | utils.py:129-140 | a found neighbour has no passage yet, is on the map and is unvisited; with none, every closed passage leads off the map or to a visited tile |
| Maze.Map.Carve | utils.py:152 | connecting keeps the passages symmetric and changes them as `Carved` says; visits and spawns are untouched |
| Maze.Neighbour | utils.py:138 | `getAdjCoords` with a drawn direction is one step that way |
| Maze.Join | utils.py:152 | `connectTo` with a drawn direction opens the two facing passages |
| Armies.AfterAdd | scripts/game.js:98-101 | as written, an amount of 1 or more is ignored and the count never grows |
| Armies.AfterRemove | scripts/game.js:103-106 | removal throws exactly for an amount below 1 or above the count; otherwise the count drops but stays at least 0 |
| Armies.CheckedAdd | scripts/game.js:136-139 | a checked addition throws exactly for an amount below 1 and otherwise raises the total; it is `giveReinforcments`, and `addArmies` as intended |
| Armies.RemoveUndoesAdd | scripts/game.js:98-106 | removing what was just added restores the count |
| Armies.AddIgnoresPositive | scripts/game.js:98-101 | as written, an amount of 1 or more changes nothing |
| Armies.AddMakesCountNegative | scripts/game.js:98-101 | as written, `addArmies(-1)` takes a new territory to -1 and `addArmies(5)` leaves it at 0 |
| Armies.ReplayNonNegative | scripts/game.js:98-106 | with the intended `addArmies`, no series of calls takes the army count below zero |
| Armies.ReplayAsWrittenGoesNegative | scripts/game.js:98-101 | as written, one call takes a new territory to -3, where the intended version keeps it at 0 |
| Armies.GiveAllAddsAccepted | scripts/game.js:136-139 | a series of gifts adds exactly the amounts not refused, so reinforcements never decrease |
| Armies.Player.constructor | scripts/game.js:114-122 | no territories, no reinforcements, and the id recorded exactly when it is truthy |
| Armies.Player.GetColor | scripts/game.js:124-126 | the faction's colour |
| Armies.Player.GetTerritories | scripts/game.js:128-130 | returns the territories and changes nothing |
| Armies.Player.NumReinforcements | scripts/game.js:132-134 | returns the reserve and changes nothing |
| Armies.Player.GiveReinforcements | scripts/game.js:136-139 | throws, changing nothing, exactly for an amount below 1; otherwise adds exactly that amount |
| Armies.Territory.constructor | scripts/game.js:61-66 | a new territory has no armies and no owner |
| Armies.Territory.Owner | scripts/game.js:84-92 | with a player, stores it; without one, returns the stored owner and changes nothing |
| Armies.Territory.NumArmies | scripts/game.js:94-96 | returns the count and changes nothing |
| Armies.Territory.AddArmies | scripts/game.js:98-101 | as written: adds the amount only when it is below 1 |
| Armies.Territory.AddArmiesIntended | scripts/game.js:98-101 | as intended: throws, changing nothing, exactly for an amount below 1, otherwise adds it; a count that is not negative stays so |
| Armies.Territory.RemoveArmies | scripts/game.js:103-106 | throws, changing nothing, exactly for an amount below 1 or above the count; otherwise takes exactly that many away and stays at least 0 |

## Left out

- `Creature.move` (scripts/game_backup.js:459-506) is left out. It uses `Math.sqrt` and backs off walls through fabric.js collision tests (`collides`). `MonsterAI.Monster.DoMove` stops at the vector it would pass to `move`, and `Controls.Keys.Direction` at the direction `update` passes.
- Rendering is left out: fabric.js objects, `initGraphics`, `draw`, the Territory graphics group, `canvas.add` and `icon.color`.
- The DOM, network and timers are left out: jQuery handlers, `$.get("/join")`, `joinGame`, `initGame`, `gameLoop`, `setInterval` and `console.log`.
- `main.py` (the web request handlers) is not part of this model.
- The script at the end of `utils.py` that builds and prints a map on import is I/O and is not part of this model.
- Randomness is a sequence of draws.
  - `makePaths` reads draws past the end as 0.
  - The spawn setters' retry loops stop once no x draw is left. When the number of draws is odd, the last retry reads its y draw past the end as 0.
  - The retry loops of `getNextTile` and the spawn setters stop with an out-of-draws outcome when the draws are spent. In the source they would keep drawing, forever if every tile is occupied.
- Maze.Map.Create: takes separate draw sequences for the passages, the player and the monsters. The source draws all three from one generator. The default dimensions 10 by 15 are not modelled; the caller passes both.
- Maze.Map.MakePaths: modelled for the state `__init__`, its only caller, runs it in: every tile closed and unvisited.
- Maze.Map.ToString: counts one character per glyph. In Python 2 each box-drawing glyph is a 3-byte UTF-8 sequence.
- Maze.Lower: lowers ASCII letters only.
- Maze.Tile.ConnectTo: the TypeError raised when the message for an invalid name formats that name with `%i`, and the ValueError intended there, are one outcome. The extra `paths` keys written for a direction in another case are kept as the set `strayPaths`.
- JavaScript numbers are modelled as unbounded integers: no fractional amounts, no precision loss.
- Armies.Player.constructor: an id is either absent or an integer, truthy unless 0. Other JavaScript values (strings, `NaN`) are not modelled.
- Armies.Player.GetTerritories: callers that mutate the returned array are not modelled. The core itself never changes a player's territories.
- Armies.Territory.Owner: a truthy argument that is not a player (no `getColor`) is not modelled.

## Findings

| source | as written | input that shows it | evidently intended | confidence | as-written member | corrected member |
|---|---|---|---|---|---|---|
| scripts/game.js:99-100 | `addArmies` has `if (num < 1)` with no `throw`, so the guard guards the addition | `addArmies(5)` leaves the count at 0; `addArmies(-3)` on a new territory makes it -3 | throw on an amount below 1, as `removeArmies` and `giveReinforcments` do, and add any other amount | high, not executed | Armies.AddMakesCountNegative | Armies.ReplayNonNegative |
