/** The monster's per-tick decision (scripts/game_backup.js, Monster): the
    line-of-sight scan along the four cardinal rays, the breadth-first pursuit
    search bounded by `maxPursuitRange`, the random choice of the next tile to
    wander to, and `doMove`, which turns the chosen destination into the vector
    handed to `move`. The game's globals `game.dungeon` and `game.player`
    become parameters; `Math.random()` becomes a sequence of draws. */
module MonsterAI {
  import opened Wrappers
  import opened Grid

  /** The monster's `target`: null until the player has been sighted. */
  datatype Target = NoTarget | ThePlayer

  /** An entry of `pathToTarget`: a Floor tile, or the `{x, y}` index object
      the search starts from, which getPathToPlayer leaves at the end of every
      path. Both answer `.x` and `.y`. */
  datatype Waypoint = TileAt(tile: Tile) | Indices(c: Coord) {
    function X(): int { if TileAt? then tile.x else c.x }
    function Y(): int { if TileAt? then tile.y else c.y }
  }

  /** What getNextTile hands back: a destination, `undefined` once every
      direction is tried, a TypeError thrown by an out-of-range index, or no
      draw left for the next `Math.random()` call. */
  datatype NextTile = Dest(w: Waypoint) | NoTile | Crash | OutOfDraws

  /** What doMove computes: the vector `(dx, dy)` it passes to `move`, or why
      there is none. */
  datatype Intent = Heading(dx: int, dy: int) | NoDestination | Crashed | DrawsSpent

  // ---------------------------------------------------------------------------
  // Line of sight
  // ---------------------------------------------------------------------------

  /** The bounds the sight scan checks: `0 <= x < dungeon.length` and
      `0 <= y < dungeon[0].length`. */
  predicate InScanBounds(d: Dungeon, c: Coord)
  {
    0 <= c.x < |d| && 0 <= c.y < Height(d)
  }

  /** How many more steps a ray from `c` in `dir` can take inside the bounds. */
  function RayRoom(d: Dungeon, c: Coord, dir: int): nat
  {
    if dir == North then (if c.y > 0 then c.y else 0)
    else if dir == East then (if c.x < |d| then |d| - c.x else 0)
    else if dir == South then (if c.y < Height(d) then Height(d) - c.y else 0)
    else (if c.x > 0 then c.x else 0)
  }

  /** The cell at `c` when it holds a Floor tile. */
  predicate IsFloor(d: Dungeon, c: Coord)
  {
    Lookup(d, c.x, c.y).Some? && Lookup(d, c.x, c.y).value.kind == Floor
  }

  /** One ray of playerInSight: stepping from `c` in `dir`, the scan stops at
      the bounds or at the first cell that is not Floor, and succeeds at a
      Floor tile containing the player. The cell `c` itself is never looked at. */
  function RayFinds(d: Dungeon, c: Coord, dir: int, p: Point): bool
    requires 0 <= dir < 4
    decreases RayRoom(d, c, dir)
  {
    var n := Step(c, dir);
    if !InScanBounds(d, n) || !IsFloor(d, n) then false
    else ContainsCreature(Lookup(d, n.x, n.y).value, p) || RayFinds(d, n, dir, p)
  }

  /** playerInSight, as a value: some ray from the monster's tile finds the
      player, that is, along some direction a Floor tile reached through Floor
      tiles only, strictly beyond the monster's own, contains the player. */
  function Sight(d: Dungeon, at: Coord, p: Point): (r: bool)
    ensures r <==> exists dir, k: nat | 0 <= dir < 4 :: SeesAt(d, at, dir, p, k)
  {
    RayFindsExact(d, at, North, p);
    RayFindsExact(d, at, East, p);
    RayFindsExact(d, at, South, p);
    RayFindsExact(d, at, West, p);
    RayFinds(d, at, North, p) || RayFinds(d, at, East, p) ||
    RayFinds(d, at, South, p) || RayFinds(d, at, West, p)
  }

  /** The cell `k` steps from `c` in `dir`. */
  function Along(c: Coord, dir: int, k: nat): Coord
    requires 0 <= dir < 4
  {
    if k == 0 then c else Step(Along(c, dir, k - 1), dir)
  }

  lemma {:induction false} AlongShift(c: Coord, dir: int, k: nat)
    requires 0 <= dir < 4
    ensures Along(Step(c, dir), dir, k) == Along(c, dir, k + 1)
  {
    if k > 0 {
      AlongShift(c, dir, k - 1);
    }
  }

  /** The cells 1..k along the ray are in bounds and Floor. */
  ghost predicate Clear(d: Dungeon, c: Coord, dir: int, k: nat)
    requires 0 <= dir < 4
  {
    forall j | 1 <= j <= k :: InScanBounds(d, Along(c, dir, j)) && IsFloor(d, Along(c, dir, j))
  }

  /** The ray from `c` in `dir` reaches, through Floor only, a Floor tile `k`
      steps away that contains the player. */
  ghost predicate SeesAt(d: Dungeon, c: Coord, dir: int, p: Point, k: nat)
    requires 0 <= dir < 4
  {
    k >= 1 && Clear(d, c, dir, k) && ContainsCreature(Lookup(d, Along(c, dir, k).x, Along(c, dir, k).y).value, p)
  }

  lemma ClearShift(d: Dungeon, c: Coord, dir: int, k: nat)
    requires 0 <= dir < 4 && k >= 1
    ensures Clear(d, c, dir, k) <==>
      InScanBounds(d, Step(c, dir)) && IsFloor(d, Step(c, dir)) && Clear(d, Step(c, dir), dir, k - 1)
  {
    forall j | 0 <= j
      ensures Along(Step(c, dir), dir, j) == Along(c, dir, j + 1)
    {
      AlongShift(c, dir, j);
    }
    assert Along(c, dir, 1) == Step(c, dir);
    if InScanBounds(d, Step(c, dir)) && IsFloor(d, Step(c, dir)) && Clear(d, Step(c, dir), dir, k - 1) {
      forall j | 1 <= j <= k
        ensures InScanBounds(d, Along(c, dir, j)) && IsFloor(d, Along(c, dir, j))
      {
        if j > 1 {
          assert Along(c, dir, j) == Along(Step(c, dir), dir, j - 1);
        }
      }
    }
  }

  /** A ray succeeds exactly when some Floor tile on it, reached through Floor
      tiles only and strictly beyond the start, contains the player. */
  lemma {:induction false} RayFindsExact(d: Dungeon, c: Coord, dir: int, p: Point)
    requires 0 <= dir < 4
    ensures RayFinds(d, c, dir, p) <==> exists k: nat :: SeesAt(d, c, dir, p, k)
    decreases RayRoom(d, c, dir)
  {
    var n := Step(c, dir);
    assert Along(c, dir, 1) == n;
    if RayFinds(d, c, dir, p) {
      if ContainsCreature(Lookup(d, n.x, n.y).value, p) {
        ClearShift(d, c, dir, 1);
        assert SeesAt(d, c, dir, p, 1);
      } else {
        RayFindsExact(d, n, dir, p);
        var k: nat :| SeesAt(d, n, dir, p, k);
        ClearShift(d, c, dir, k + 1);
        AlongShift(c, dir, k);
        assert SeesAt(d, c, dir, p, k + 1);
      }
    } else {
      forall k: nat
        ensures !SeesAt(d, c, dir, p, k)
      {
        if k >= 1 {
          ClearShift(d, c, dir, k);
        }
        if k > 1 && InScanBounds(d, n) && IsFloor(d, n) {
          AlongShift(c, dir, k - 1);
          RayFindsExact(d, n, dir, p);
          assert !SeesAt(d, n, dir, p, k - 1);
        }
      }
    }
  }

  /** A cell that is out of bounds or not Floor `j` steps along the ray hides
      everything behind it: if no Floor tile before it holds the player, the ray
      fails. */
  lemma BlockedRay(d: Dungeon, c: Coord, dir: int, p: Point, j: nat)
    requires 0 <= dir < 4 && j >= 1
    requires !(InScanBounds(d, Along(c, dir, j)) && IsFloor(d, Along(c, dir, j)))
    requires forall i | 1 <= i < j :: !SeesAt(d, c, dir, p, i)
    ensures !RayFinds(d, c, dir, p)
  {
    forall k: nat
      ensures !SeesAt(d, c, dir, p, k)
    {
      if k >= j {
        assert !Clear(d, c, dir, k);
      }
    }
    RayFindsExact(d, c, dir, p);
  }

  /** The monster's own tile is never examined: alone on a one-tile map with
      the player standing on it, the monster does not see the player. */
  lemma OwnTileNotScanned()
    ensures !Sight([[Some(Tile(Floor, 0, 0))]], Coord(0, 0), Point(0, 0))
  {
  }

  // ---------------------------------------------------------------------------
  // Pursuit search
  // ---------------------------------------------------------------------------

  /** A search node `{tile, parent, distance}`; `parent` is the index of the
      parent node among the nodes created so far, -1 for the root. */
  datatype Node = Node(spot: Waypoint, parent: int, distance: nat)

  /** The cell the search looks at from `w` in `dir`: it steps from `w.x, w.y`
      whatever they are, index object or a tile's world centre. */
  function Neighbour(d: Dungeon, w: Waypoint, dir: int): Option<Tile>
    requires 0 <= dir < 4
  {
    var c := Step(Coord(w.X(), w.Y()), dir);
    Lookup(d, c.x, c.y)
  }

  /** `to` is a Floor tile the search reaches in one step from `from`. */
  predicate Adjoins(d: Dungeon, from: Waypoint, to: Waypoint)
  {
    to.TileAt? && to.tile.kind == Floor &&
    (Neighbour(d, from, North) == Some(to.tile) || Neighbour(d, from, East) == Some(to.tile) ||
     Neighbour(d, from, South) == Some(to.tile) || Neighbour(d, from, West) == Some(to.tile))
  }

  /** A Floor tile containing the player. */
  predicate FloorWithPlayer(cell: Option<Tile>, p: Point)
  {
    cell.Some? && cell.value.kind == Floor && ContainsCreature(cell.value, p)
  }

  /** A walk of the search back to the start: it ends at the start index
      object and each entry is reached in one search step from the entry after it. */
  ghost predicate IsWalk(d: Dungeon, start: Coord, path: seq<Waypoint>)
  {
    |path| >= 1 && path[|path| - 1] == Indices(start) &&
    forall i | 0 <= i < |path| - 1 :: Adjoins(d, path[i + 1], path[i])
  }

  /** What a path returned by getPathToPlayer satisfies: between 2 and
      `range + 1` entries, the first a Floor tile containing the player, and a
      walk back to the start index object. */
  ghost predicate IsPursuitPath(d: Dungeon, start: Coord, p: Point, range: nat, path: seq<Waypoint>)
  {
    2 <= |path| <= range + 1 &&
    path[0].TileAt? && FloorWithPlayer(Some(path[0].tile), p) &&
    IsWalk(d, start, path)
  }

  /** Some pursuit path of at most `range` steps leads to the player. */
  ghost predicate PursuitPossible(d: Dungeon, start: Coord, p: Point, range: nat)
  {
    exists path :: IsPursuitPath(d, start, p, range, path)
  }

  lemma WalkExtend(d: Dungeon, start: Coord, w: seq<Waypoint>, t: Tile)
    requires IsWalk(d, start, w) && Adjoins(d, w[0], TileAt(t))
    ensures IsWalk(d, start, [TileAt(t)] + w)
  {
    var path := [TileAt(t)] + w;
    forall i | 0 <= i < |path| - 1
      ensures Adjoins(d, path[i + 1], path[i])
    {
      if i > 0 {
        assert path[i] == w[i - 1] && path[i + 1] == w[i];
      }
    }
  }

  /** Parent links point backwards (and the root's is -1). */
  predicate ParentsBelow(nodes: seq<Node>)
  {
    forall k | 0 <= k < |nodes| :: -1 <= nodes[k].parent < k
  }

  /** Node `n`, appended after `prior`, is a Floor tile one search step from
      its parent among `prior`, one further away, within `range`. */
  ghost predicate Links(d: Dungeon, prior: seq<Node>, n: Node, range: nat)
  {
    0 <= n.parent < |prior| && n.distance <= range &&
    n.distance == prior[n.parent].distance + 1 && Adjoins(d, prior[n.parent].spot, n.spot)
  }

  /** The search nodes in creation order: the root at the start indices, then
      nodes each linked to an earlier one. */
  ghost predicate Linked(d: Dungeon, start: Coord, nodes: seq<Node>, range: nat)
    decreases |nodes|
  {
    if |nodes| <= 1 then nodes == [Node(Indices(start), -1, 0)]
    else Linked(d, start, nodes[..|nodes| - 1], range) && Links(d, nodes[..|nodes| - 1], nodes[|nodes| - 1], range)
  }

  /** The search nodes: parent links point backwards and each node is linked. */
  ghost predicate NodesOk(d: Dungeon, start: Coord, nodes: seq<Node>, range: nat)
  {
    ParentsBelow(nodes) && Linked(d, start, nodes, range)
  }

  lemma {:induction false} LinkedAt(d: Dungeon, start: Coord, nodes: seq<Node>, range: nat, k: nat)
    requires Linked(d, start, nodes, range) && k < |nodes|
    ensures k == 0 ==> nodes[0] == Node(Indices(start), -1, 0)
    ensures k > 0 ==> Links(d, nodes[..k], nodes[k], range)
    decreases |nodes|
  {
    if |nodes| > 1 && k < |nodes| - 1 {
      var prior := nodes[..|nodes| - 1];
      LinkedAt(d, start, prior, range, k);
      assert prior[..k] == nodes[..k];
    }
  }

  /** The spots from node `k` back to the root along parent links. */
  ghost function Chain(nodes: seq<Node>, k: int): seq<Waypoint>
    requires ParentsBelow(nodes) && k < |nodes|
    decreases k + 1
  {
    if k < 0 then [] else [nodes[k].spot] + Chain(nodes, nodes[k].parent)
  }

  lemma {:induction false} ChainShape(d: Dungeon, start: Coord, nodes: seq<Node>, range: nat, k: nat)
    requires NodesOk(d, start, nodes, range) && k < |nodes|
    ensures |Chain(nodes, k)| == nodes[k].distance + 1
    ensures Chain(nodes, k)[0] == nodes[k].spot
    ensures IsWalk(d, start, Chain(nodes, k))
    decreases k
  {
    LinkedAt(d, start, nodes, range, k);
    if k > 0 {
      var q := nodes[k].parent;
      ChainShape(d, start, nodes, range, q);
      WalkExtend(d, start, Chain(nodes, q), nodes[k].spot.tile);
    }
  }

  /** Prefixing a Floor tile that holds the player, one search step from the
      head of a walk no longer than `range`, gives a pursuit path. */
  lemma FoundPathIsPursuitPath(d: Dungeon, start: Coord, p: Point, range: nat, w: seq<Waypoint>, t: Tile)
    requires IsWalk(d, start, w) && |w| <= range
    requires Adjoins(d, w[0], TileAt(t)) && ContainsCreature(t, p)
    ensures IsPursuitPath(d, start, p, range, [TileAt(t)] + w)
  {
    WalkExtend(d, start, w, t);
  }

  /** The path-building loop of getPathToPlayer: pushes the new node's spot,
      then the spot of each node met following parent links to the root. */
  method TracePath(ghost d: Dungeon, ghost start: Coord, ghost player: Point, ghost range: nat,
                   nodes: seq<Node>, last: Node) returns (path: seq<Waypoint>)
    requires NodesOk(d, start, nodes, range) && 0 <= last.parent < |nodes|
    requires nodes[last.parent].distance < range
    requires Adjoins(d, nodes[last.parent].spot, last.spot)
    requires last.spot.TileAt? && ContainsCreature(last.spot.tile, player)
    ensures path == [last.spot] + Chain(nodes, last.parent)
    ensures IsPursuitPath(d, start, player, range, path)
  {
    ChainShape(d, start, nodes, range, last.parent);
    FoundPathIsPursuitPath(d, start, player, range, Chain(nodes, last.parent), last.spot.tile);
    path := [last.spot];
    var k := last.parent;
    while k >= 0
      invariant -1 <= k < |nodes|
      invariant path + Chain(nodes, k) == [last.spot] + Chain(nodes, last.parent)
      decreases k + 1
    {
      path := path + [nodes[k].spot];
      k := nodes[k].parent;
    }
  }

  /** None of the first `n` neighbours of `w` is a Floor tile holding the player. */
  predicate NoPlayerNext(d: Dungeon, w: Waypoint, p: Point, n: nat)
  {
    forall dir | 0 <= dir < n && dir < 4 :: !FloorWithPlayer(Neighbour(d, w, dir), p)
  }

  /** Some node among `nodes` sits at `w`, `dist` steps from the start. */
  ghost predicate Has(nodes: seq<Node>, w: Waypoint, dist: nat)
  {
    exists j | 0 <= j < |nodes| :: nodes[j].spot == w && nodes[j].distance == dist
  }

  /** Each Floor tile among the first `n` neighbours of `w` has been queued
      one step further than `dist`. */
  ghost predicate Queued(d: Dungeon, nodes: seq<Node>, w: Waypoint, dist: nat, n: nat)
  {
    forall dir | 0 <= dir < n && dir < 4 ::
      Neighbour(d, w, dir).Some? && Neighbour(d, w, dir).value.kind == Floor ==>
        Has(nodes, TileAt(Neighbour(d, w, dir).value), dist + 1)
  }

  lemma QueuedGrow(d: Dungeon, nodes: seq<Node>, more: seq<Node>, w: Waypoint, dist: nat, n: nat)
    requires Queued(d, nodes, w, dist, n)
    ensures Queued(d, nodes + more, w, dist, n)
  {
    forall dir | 0 <= dir < n && dir < 4 &&
        Neighbour(d, w, dir).Some? && Neighbour(d, w, dir).value.kind == Floor
      ensures Has(nodes + more, TileAt(Neighbour(d, w, dir).value), dist + 1)
    {
      var j :| 0 <= j < |nodes| && nodes[j].spot == TileAt(Neighbour(d, w, dir).value) && nodes[j].distance == dist + 1;
      assert (nodes + more)[j] == nodes[j];
    }
  }

  /** Every node of `nodes[..m]` closer than `range` has been expanded: no
      neighbour of it holds the player and its Floor neighbours are queued. */
  ghost predicate ExpandedBelow(d: Dungeon, p: Point, nodes: seq<Node>, range: nat, m: nat)
    requires m <= |nodes|
  {
    forall k | 0 <= k < m && nodes[k].distance < range ::
      NoPlayerNext(d, nodes[k].spot, p, 4) && Queued(d, nodes, nodes[k].spot, nodes[k].distance, 4)
  }

  lemma ExpandedGrow(d: Dungeon, p: Point, nodes: seq<Node>, more: seq<Node>, range: nat, m: nat)
    requires m <= |nodes| && ExpandedBelow(d, p, nodes, range, m)
    ensures ExpandedBelow(d, p, nodes + more, range, m)
  {
    forall k | 0 <= k < m && (nodes + more)[k].distance < range
      ensures NoPlayerNext(d, (nodes + more)[k].spot, p, 4)
      ensures Queued(d, nodes + more, (nodes + more)[k].spot, (nodes + more)[k].distance, 4)
    {
      assert (nodes + more)[k] == nodes[k];
      QueuedGrow(d, nodes, more, nodes[k].spot, nodes[k].distance, 4);
    }
  }

  /** Once every search node closer than `range` has queued its Floor
      neighbours, every walk of at most `range` steps from the start ends at
      a search node as far from the start as the walk is long. */
  lemma {:induction false} WalkReached(d: Dungeon, start: Coord, range: nat, nodes: seq<Node>, w: seq<Waypoint>)
    requires |nodes| > 0 && nodes[0] == Node(Indices(start), -1, 0)
    requires forall k | 0 <= k < |nodes| && nodes[k].distance < range ::
      Queued(d, nodes, nodes[k].spot, nodes[k].distance, 4)
    requires IsWalk(d, start, w) && |w| <= range + 1
    ensures Has(nodes, w[0], |w| - 1)
    decreases |w|
  {
    if |w| == 1 {
      assert nodes[0].spot == w[0];
    } else {
      var rest := w[1..];
      assert IsWalk(d, start, rest) by {
        forall i | 0 <= i < |rest| - 1
          ensures Adjoins(d, rest[i + 1], rest[i])
        {
          assert rest[i] == w[i + 1] && rest[i + 1] == w[i + 2];
        }
      }
      WalkReached(d, start, range, nodes, rest);
      var k :| 0 <= k < |nodes| && nodes[k].spot == w[1] && nodes[k].distance == |w| - 2;
      assert Adjoins(d, w[1], w[0]);
      assert Queued(d, nodes, w[1], |w| - 2, 4);
    }
  }

  /** A pursuit path leaves the start from a search node closer than `range`
      that has a Floor neighbour holding the player. */
  lemma PursuitPathFromNode(d: Dungeon, start: Coord, p: Point, range: nat, nodes: seq<Node>, path: seq<Waypoint>)
    requires |nodes| > 0 && nodes[0] == Node(Indices(start), -1, 0)
    requires forall k | 0 <= k < |nodes| && nodes[k].distance < range ::
      Queued(d, nodes, nodes[k].spot, nodes[k].distance, 4)
    ensures IsPursuitPath(d, start, p, range, path) ==>
      (exists k | 0 <= k < |nodes| :: nodes[k].distance < range && nodes[k].spot == path[1]) &&
      !NoPlayerNext(d, path[1], p, 4)
  {
    if IsPursuitPath(d, start, p, range, path) {
      var w := path[1..];
      assert IsWalk(d, start, w) by {
        forall i | 0 <= i < |w| - 1
          ensures Adjoins(d, w[i + 1], w[i])
        {
          assert w[i] == path[i + 1] && w[i + 1] == path[i + 2];
        }
      }
      WalkReached(d, start, range, nodes, w);
      assert Adjoins(d, path[1], path[0]);
    }
  }

  /** Queueing a Floor tile one step from an existing node, one further away
      and within range, keeps the nodes well formed. */
  lemma NodesAppend(d: Dungeon, start: Coord, nodes: seq<Node>, range: nat, n: Node)
    requires NodesOk(d, start, nodes, range)
    requires Links(d, nodes, n, range)
    ensures NodesOk(d, start, nodes + [n], range)
  {
    var grown := nodes + [n];
    assert grown[..|nodes|] == nodes;
    assert forall k | 0 <= k < |nodes| :: grown[k] == nodes[k];
  }

  /** The inner loop of getPathToPlayer for the node `cur`: returns the path
      as soon as a neighbour holds the player, and otherwise queues every Floor
      neighbour (the `visited` test never matches, so none is skipped). */
  method ExpandNode(d: Dungeon, start: Coord, player: Point, range: nat, nodes: seq<Node>, cur: nat)
    returns (grown: seq<Node>, found: Option<seq<Waypoint>>)
    requires NodesOk(d, start, nodes, range) && cur < |nodes| && nodes[cur].distance < range
    ensures found.Some? ==> IsPursuitPath(d, start, player, range, found.value)
    ensures found.None? ==>
      NodesOk(d, start, grown, range) && |nodes| <= |grown| <= |nodes| + 4 && grown[..|nodes|] == nodes &&
      (forall k | |nodes| <= k < |grown| :: grown[k].distance == nodes[cur].distance + 1) &&
      NoPlayerNext(d, nodes[cur].spot, player, 4) &&
      Queued(d, grown, nodes[cur].spot, nodes[cur].distance, 4)
  {
    var node := nodes[cur];
    grown := nodes;
    for dir := 0 to 4
      invariant NodesOk(d, start, grown, range)
      invariant |nodes| <= |grown| <= |nodes| + dir && grown[..|nodes|] == nodes
      invariant forall k | |nodes| <= k < |grown| :: grown[k].distance == node.distance + 1
      invariant NoPlayerNext(d, node.spot, player, dir)
      invariant Queued(d, grown, node.spot, node.distance, dir)
    {
      var next;
      next, found := ExpandDir(d, start, player, range, nodes, cur, grown, dir);
      if found.Some? {
        return;
      }
      QueuedGrow(d, grown, next[|grown|..], node.spot, node.distance, dir);
      assert grown + next[|grown|..] == next;
      assert next[..|nodes|] == nodes;
      grown := next;
    }
    found := None;
  }

  /** One pass of that inner loop: the neighbour of node `cur` in direction
      `dir`. A Floor tile holding the player ends the search with the path to
      it; any other Floor tile is queued one step further. */
  method ExpandDir(d: Dungeon, start: Coord, player: Point, range: nat, nodes: seq<Node>, cur: nat,
                   grown: seq<Node>, dir: int)
    returns (next: seq<Node>, found: Option<seq<Waypoint>>)
    requires NodesOk(d, start, grown, range) && cur < |nodes| <= |grown| && grown[..|nodes|] == nodes
    requires nodes[cur].distance < range && 0 <= dir < 4
    ensures found.Some? ==> IsPursuitPath(d, start, player, range, found.value)
    ensures found.None? ==>
      NodesOk(d, start, next, range) && |grown| <= |next| <= |grown| + 1 && next[..|grown|] == grown &&
      (|next| > |grown| ==> next[|grown|].distance == nodes[cur].distance + 1) &&
      !FloorWithPlayer(Neighbour(d, nodes[cur].spot, dir), player) &&
      (Neighbour(d, nodes[cur].spot, dir).Some? && Neighbour(d, nodes[cur].spot, dir).value.kind == Floor ==>
         Has(next, TileAt(Neighbour(d, nodes[cur].spot, dir).value), nodes[cur].distance + 1))
  {
    var node := nodes[cur];
    assert grown[cur] == node;
    next, found := grown, None;
    var adjCoord := Step(Coord(node.spot.X(), node.spot.Y()), dir);
    var cell := Lookup(d, adjCoord.x, adjCoord.y);
    assert cell == Neighbour(d, node.spot, dir);
    if cell.None? {
      return;
    }
    var adjTile := cell.value;
    if adjTile.kind == Floor {
      var newNode := Node(TileAt(adjTile), cur, node.distance + 1);
      if ContainsCreature(adjTile, player) {
        var path := TracePath(d, start, player, range, grown, newNode);
        return grown, Some(path);
      }
      NodesAppend(d, start, grown, range, newNode);
      next := grown + [newNode];
      assert next[|grown|] == newNode;
    }
  }

  /** The number of nodes a node at `distance` can still give rise to. */
  function Potential(distance: nat, range: nat): nat
    decreases range - distance
  {
    if distance >= range then 1 else 1 + 4 * Potential(distance + 1, range)
  }

  /** The total potential of the queued nodes: the search's termination measure. */
  function Weight(q: seq<Node>, range: nat): nat
  {
    if q == [] then 0 else Potential(q[0].distance, range) + Weight(q[1..], range)
  }

  lemma {:induction false} WeightAppend(a: seq<Node>, b: seq<Node>, range: nat)
    ensures Weight(a + b, range) == Weight(a, range) + Weight(b, range)
  {
    if a == [] {
      assert a + b == b;
    } else {
      assert (a + b)[0] == a[0];
      assert (a + b)[1..] == a[1..] + b;
      WeightAppend(a[1..], b, range);
    }
  }

  lemma {:induction false} WeightOfSiblings(a: seq<Node>, v: nat, range: nat)
    requires |a| <= 4
    requires forall k | 0 <= k < |a| :: a[k].distance == v
    ensures Weight(a, range) <= |a| * Potential(v, range)
  {
    if a != [] {
      WeightOfSiblings(a[1..], v, range);
    }
  }

  /** Expanding one node at `distance < range` and queueing at most four
      children one step further lowers the queue's weight. */
  lemma WeightDrops(before: seq<Node>, cur: nat, added: seq<Node>, range: nat)
    requires cur < |before| && |added| <= 4
    requires before[cur].distance >= range ==> added == []
    requires forall k | 0 <= k < |added| :: added[k].distance == before[cur].distance + 1
    ensures Weight((before + added)[cur + 1..], range) < Weight(before[cur..], range)
  {
    assert (before + added)[cur + 1..] == before[cur + 1..] + added;
    assert before[cur..][1..] == before[cur + 1..];
    WeightAppend(before[cur + 1..], added, range);
    WeightOfSiblings(added, before[cur].distance + 1, range);
    var pc := Potential(before[cur].distance + 1, range);
    assert |added| * pc <= 4 * pc;
  }

  // ---------------------------------------------------------------------------
  // Choosing the next tile
  // ---------------------------------------------------------------------------

  /** The wander loop of getNextTile with `n` candidates left and the draws
      from index `i` on: the result and the new `currentDirection`. A draw
      `dir` in `[0, n)` is an index into the shrinking candidate array but is
      used as a direction. The checks run in the source's order: `y < 0` is
      tested before `dungeon[0]` is read, so only a cell with `y >= 0` throws
      on an empty dungeon. The bounds use `>`, so an index equal to the
      dungeon's length gets through and the lookup throws. A returned tile is
      the Floor tile next to the monster in the new direction; the backwards
      direction is taken only when a single candidate was left (whose only
      index is 0); without a tile the direction is unchanged; a crash needs
      the monster at the right edge. */
  function Wander(d: Dungeon, at: Coord, cur: int, n: nat, draws: seq<nat>, i: nat): (r: (NextTile, int))
    requires 0 <= cur < 4 && n <= 4 && i <= |draws|
    ensures r.0.Dest? ==>
      0 <= r.1 < n && r.0.w.TileAt? && IsFloor(d, Step(at, r.1)) &&
      Lookup(d, Step(at, r.1).x, Step(at, r.1).y) == Some(r.0.w.tile) &&
      (r.1 == (cur + 2) % 4 ==> r.1 == 0)
    ensures !r.0.Dest? ==> r.1 == cur
    ensures r.0 == Crash ==> |d| - 1 <= at.x <= |d| + 1
    decreases |draws| - i
  {
    if n == 0 then (NoTile, cur)
    else if i == |draws| then (OutOfDraws, cur)
    else
      var dir := draws[i] % n;
      if dir == (cur + 2) % 4 && n > 1 then Wander(d, at, cur, n, draws, i + 1)
      else
        var c := Step(at, dir);
        if c.x < 0 || c.x > |d| then Wander(d, at, cur, n - 1, draws, i + 1)
        else if c.y < 0 then Wander(d, at, cur, n - 1, draws, i + 1)
        else if |d| == 0 then (Crash, cur)
        else if c.y > |d[0]| then Wander(d, at, cur, n - 1, draws, i + 1)
        else if c.x == |d| then (Crash, cur)
        else if IsFloor(d, c) then (Dest(TileAt(Lookup(d, c.x, c.y).value)), dir)
        else Wander(d, at, cur, n - 1, draws, i + 1)
  }

  /** The bound check's off-by-one: a monster on a one-column map that draws
      East looks up `dungeon[1]`, which is undefined, and the lookup throws. */
  lemma EastEdgeCrash()
    ensures Wander([[Some(Tile(Floor, 0, 0))]], Coord(0, 0), North, 4, [East], 0).0 == Crash
  {
  }

  /** On an empty dungeon a cell north of the map is skipped before
      `dungeon[0]` is read: drawing index 0 four times tries North four
      times, since the index is used as the direction, and ends with no
      tile. */
  lemma EmptyDungeonNorthSkipped()
    ensures Wander([], Coord(0, 0), North, 4, [0, 0, 0, 0], 0).0 == NoTile
  {
  }

  /** getNextTile as a value: the result, the remaining `pathToTarget` and the
      new `currentDirection`. A pending path is followed first, one entry at a
      time; without one, the monster wanders to a Floor tile next to it. */
  function Follow(d: Dungeon, at: Coord, path: seq<Waypoint>, cur: int, draws: seq<nat>): (r: (NextTile, seq<Waypoint>, int))
    requires 0 <= cur < 4
    ensures |path| > 0 ==> r.0 == Dest(path[0]) && [path[0]] + r.1 == path && r.2 == cur
    ensures |path| == 0 ==> r.1 == [] && 0 <= r.2 < 4
    ensures |path| == 0 && r.0.Dest? ==>
      r.0.w.TileAt? && Lookup(d, Step(at, r.2).x, Step(at, r.2).y) == Some(r.0.w.tile) &&
      r.0.w.tile.kind == Floor && (r.2 == (cur + 2) % 4 ==> r.2 == 0)
    ensures !r.0.Dest? ==> r.2 == cur
  {
    if |path| > 0 then (Dest(path[0]), path[1..], cur)
    else
      var (res, nd) := Wander(d, at, cur, 4, draws, 0);
      (res, path, nd)
  }

  /** The vector doMove hands to `move` for a getNextTile result. */
  function IntentOf(res: NextTile, x: int, y: int): (r: Intent)
    ensures r.Heading? <==> res.Dest?
    ensures r.Heading? ==> res.w.X() == x + r.dx && res.w.Y() == y + r.dy
  {
    match res
    case Dest(w) => Heading(w.X() - x, w.Y() - y)
    case NoTile => NoDestination
    case Crash => Crashed
    case OutOfDraws => DrawsSpent
  }

  // ---------------------------------------------------------------------------
  // The monster
  // ---------------------------------------------------------------------------

  class Monster {
    var x: int
    var y: int
    var target: Target
    var pathToTarget: seq<Waypoint>
    var pursuingPlayer: bool
    var maxPursuitRange: nat
    var currentDirection: int

    ghost predicate Valid()
      reads this
    {
      0 <= currentDirection < 4
    }

    /** The monster's tile indices (getTileIndices). */
    function At(): Coord
      reads this
    {
      TileIndices(Point(x, y))
    }

    /** Monster(x, y): no target, no path, a pursuit range of 5 and a random
        starting direction `Math.floor(Math.random() * 4)`. */
    constructor (xCoord: int, yCoord: int, draw: nat)
      ensures Valid()
      ensures x == xCoord && y == yCoord
      ensures target == NoTarget && pathToTarget == [] && !pursuingPlayer
      ensures maxPursuitRange == 5 && currentDirection == draw % 4
    {
      x, y := xCoord, yCoord;
      target := NoTarget;
      pathToTarget := [];
      pursuingPlayer := false;
      maxPursuitRange := 5;
      currentDirection := draw % 4;
    }

    /** playerInSight: scans the four rays, each stopping at the bounds or at
        the first cell that is not Floor. */
    method PlayerInSight(d: Dungeon, player: Point) returns (seen: bool)
      ensures seen == Sight(d, At(), player)
    {
      var at := At();
      for dir := 0 to 4
        invariant forall e | 0 <= e < dir :: !RayFinds(d, at, e, player)
      {
        var coord := at;
        while true
          invariant RayFinds(d, at, dir, player) == RayFinds(d, coord, dir, player)
          decreases RayRoom(d, coord, dir)
        {
          var next := Step(coord, dir);
          if next.x < 0 || next.x >= |d| { break; }
          if next.y < 0 || next.y >= |d[0]| { break; }
          var tile := Lookup(d, next.x, next.y);
          if tile.Some? && tile.value.kind == Floor {
            if ContainsCreature(tile.value, player) {
              return true;
            }
          } else {
            break;
          }
          coord := next;
        }
      }
      return false;
    }

    /** getPathToPlayer: breadth-first search from the monster's indices,
        expanding only nodes closer than `maxPursuitRange`. The queue is the
        suffix `nodes[head..]` of the nodes created so far (which are also the
        `visited` array). The `visited.indexOf(adjTile)` test compares a tile
        with nodes and so never matches: every Floor neighbour is queued. */
    method GetPathToPlayer(d: Dungeon, player: Point) returns (r: Option<seq<Waypoint>>)
      ensures r.Some? ==> IsPursuitPath(d, At(), player, maxPursuitRange, r.value)
      ensures r.None? ==> forall path :: !IsPursuitPath(d, At(), player, maxPursuitRange, path)
    {
      var start := At();
      var range := maxPursuitRange;
      var nodes := [Node(Indices(start), -1, 0)];
      var head := 0;
      while head < |nodes|
        invariant 0 <= head <= |nodes|
        invariant NodesOk(d, start, nodes, range)
        invariant ExpandedBelow(d, player, nodes, range, head)
        decreases Weight(nodes[head..], range)
      {
        var cur := head;
        head := head + 1;
        if nodes[cur].distance < range {
          var grown, found := ExpandNode(d, start, player, range, nodes, cur);
          if found.Some? {
            return found;
          }
          WeightDrops(nodes, cur, grown[|nodes|..], range);
          assert nodes + grown[|nodes|..] == grown;
          ExpandedGrow(d, player, nodes, grown[|nodes|..], range, cur);
          assert grown[cur] == nodes[cur];
          nodes := grown;
        } else {
          WeightDrops(nodes, cur, [], range);
          assert nodes + [] == nodes;
        }
      }
      LinkedAt(d, start, nodes, range, 0);
      forall path
        ensures !IsPursuitPath(d, start, player, range, path)
      {
        PursuitPathFromNode(d, start, player, range, nodes, path);
      }
      r := None;
    }

    /** getNextTile: follows a pending path first; otherwise draws candidate
        directions until one leads to a Floor tile. */
    method GetNextTile(d: Dungeon, draws: seq<nat>) returns (r: NextTile)
      requires Valid()
      modifies this
      ensures Valid()
      ensures x == old(x) && y == old(y) && target == old(target)
      ensures maxPursuitRange == old(maxPursuitRange) && pursuingPlayer == old(pursuingPlayer)
      ensures (r, pathToTarget, currentDirection) == Follow(d, At(), old(pathToTarget), old(currentDirection), draws)
    {
      if |pathToTarget| > 0 {
        r := Dest(pathToTarget[0]);
        pathToTarget := pathToTarget[1..];
        return;
      }
      var at := At();
      var directions := [North, East, South, West];
      var i := 0;
      while |directions| > 0
        invariant |directions| <= 4 && i <= |draws|
        invariant currentDirection == old(currentDirection) && pathToTarget == old(pathToTarget)
        invariant Wander(d, at, currentDirection, |directions|, draws, i) == Wander(d, at, currentDirection, 4, draws, 0)
        decreases |draws| - i
      {
        if i == |draws| {
          return OutOfDraws;
        }
        var dir := draws[i] % |directions|;
        i := i + 1;
        if dir == (currentDirection + 2) % 4 && |directions| > 1 {
          continue;
        }
        var coord := Step(at, dir);
        directions := directions[..dir] + directions[dir + 1..];
        if coord.x < 0 || coord.x > |d| {
          continue;
        }
        if coord.y < 0 {
          continue;
        }
        if |d| == 0 {
          return Crash;
        }
        if coord.y > |d[0]| {
          continue;
        }
        if coord.x == |d| {
          return Crash;
        }
        var tile := Lookup(d, coord.x, coord.y);
        if tile.Some? && tile.value.kind == Floor {
          currentDirection := dir;
          return Dest(TileAt(tile.value));
        }
      }
      r := NoTile;
    }

    /** doMove up to the vector it passes to `move`: chase the player when in
        sight; otherwise, while targeting the player, replace the pending path
        by a found pursuit path, then take the next tile. */
    method DoMove(d: Dungeon, player: Point, draws: seq<nat>) returns (r: Intent)
      requires Valid()
      modifies this
      ensures Valid()
      ensures x == old(x) && y == old(y) && maxPursuitRange == old(maxPursuitRange)
      ensures pursuingPlayer == old(pursuingPlayer)
      ensures Sight(d, At(), player) ==>
        target == ThePlayer && r == Heading(player.x - x, player.y - y) &&
        pathToTarget == old(pathToTarget) && currentDirection == old(currentDirection)
      ensures !Sight(d, At(), player) ==> target == old(target)
      ensures !Sight(d, At(), player) && old(target) == ThePlayer && PursuitPossible(d, At(), player, maxPursuitRange) ==>
        currentDirection == old(currentDirection) &&
        exists p0 :: IsPursuitPath(d, At(), player, maxPursuitRange, [p0] + pathToTarget) &&
                     r == Heading(p0.X() - x, p0.Y() - y)
      ensures !Sight(d, At(), player) && !(old(target) == ThePlayer && PursuitPossible(d, At(), player, maxPursuitRange)) ==>
        var (res, path, dir) := Follow(d, At(), old(pathToTarget), old(currentDirection), draws);
        r == IntentOf(res, x, y) && pathToTarget == path && currentDirection == dir
    {
      var playerSighted := PlayerInSight(d, player);
      if playerSighted {
        target := ThePlayer;
        r := Heading(player.x - x, player.y - y);
      } else {
        ghost var found := false;
        ghost var at := At();
        if target == ThePlayer {
          var path := GetPathToPlayer(d, player);
          if path.Some? {
            pathToTarget := path.value;
            found := true;
          } else {
            assert At() == at;
            assert forall p :: !IsPursuitPath(d, at, player, maxPursuitRange, p);
          }
        }
        ghost var pending := pathToTarget;
        var destination := GetNextTile(d, draws);
        r := IntentOf(destination, x, y);
        assert At() == at;
        if found {
          assert [pending[0]] + pathToTarget == pending;
          assert PursuitPossible(d, at, player, maxPursuitRange);
        }
      }
    }
  }
}
