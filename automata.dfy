/**
 * The cellular-automata strategy (src/map_builder/automatas.rs): random
 * noise, ten smoothing passes over a double buffer, the Floor tile nearest
 * the centre as the start, pruning of every tile the distance field from the
 * start puts beyond 2000, then monster spawns and the amulet.
 */
module CellularAutomata {
  import opened Wrappers
  import opened Grid
  import opened Random
  import opened Builder

  /** A noise roll in `1..100` above this value makes a Floor tile. */
  const FloorThreshold: int := 55

  /** The strategy smooths the noise this many times. */
  const SmoothingPasses: nat := 10

  /** Tiles whose distance from the start exceeds this are walled off. */
  const PruneDistance: real := 2000.0

  // ---------------------------------------------------------------------------
  // Noise

  function NoiseTile(roll: int): TileType {
    if roll > FloorThreshold then Floor else Wall
  }

  /** The tiles `random_noise_map` writes over `n` tiles: one roll per tile, in index order. */
  function NoiseMap(s: nat -> int, pos: nat, n: nat): (r: seq<TileType>)
    ensures |r| == n
  {
    seq(n, i requires 0 <= i < n => NoiseTile(ToRange(s(pos + i), 1, 100)))
  }

  /** Every layout of the grid is the noise of some stream of draws: the noise constrains nothing. */
  lemma NoiseMapCoversAll(t: seq<TileType>)
    ensures exists s: nat -> int :: NoiseMap(s, 0, |t|) == t
  {
    var s: nat -> int := (i: nat) => if i < |t| && t[i] == Floor then 99 else 1;
    var r := NoiseMap(s, 0, |t|);
    forall i | 0 <= i < |t|
      ensures r[i] == t[i]
    {
      assert ToRange(s(i), 1, 100) == s(i);
    }
    assert r == t;
  }

  /** `random_noise_map`: one draw per tile, in index order. */
  method RandomNoiseMap(rng: Rng, m: Map)
    modifies rng, m
    ensures m.tiles == NoiseMap(rng.stream, old(rng.pos), |old(m.tiles)|)
    ensures rng.pos == old(rng.pos) + |old(m.tiles)|
  {
    ghost var pos0, n := rng.pos, |m.tiles|;
    var i := 0;
    while i < |m.tiles|
      invariant 0 <= i <= |m.tiles| == n && rng.pos == pos0 + i
      invariant forall k | 0 <= k < i :: m.tiles[k] == NoiseTile(ToRange(rng.stream(pos0 + k), 1, 100))
    {
      var roll := rng.Range(1, 100);
      if roll > FloorThreshold {
        m.tiles := m.tiles[i := Floor];
      } else {
        m.tiles := m.tiles[i := Wall];
      }
      i := i + 1;
    }
    assert m.tiles == NoiseMap(rng.stream, pos0, n);
  }

  // ---------------------------------------------------------------------------
  // Neighbour counting

  /** Every cell `count_neighbors` probes around `(x, y)` has an index on the grid. */
  predicate NeighborsInGrid(x: int, y: int) {
    0 <= MapIdx(x - 1, y - 1) && MapIdx(x + 1, y + 1) < NumTiles
  }

  /** 1 where the tile at `(x, y)` is Floor. */
  function FloorAt(tiles: seq<TileType>, x: int, y: int): nat
    requires |tiles| == NumTiles && 0 <= MapIdx(x, y) < NumTiles
  {
    if tiles[MapIdx(x, y)] == Floor then 1 else 0
  }

  /** One probe of the count: the centre cell itself adds nothing. */
  function Probe(tiles: seq<TileType>, x: int, y: int, ix: int, iy: int): nat
    requires |tiles| == NumTiles && NeighborsInGrid(x, y) && -1 <= ix <= 1 && -1 <= iy <= 1
  {
    if ix == 0 && iy == 0 then 0 else FloorAt(tiles, x + ix, y + iy)
  }

  /** The probes of row offset `iy` with column offsets `-1 .. n - 2`. */
  function RowCount(tiles: seq<TileType>, x: int, y: int, iy: int, n: nat): nat
    requires |tiles| == NumTiles && NeighborsInGrid(x, y) && -1 <= iy <= 1 && n <= 3
  {
    if n == 0 then 0 else RowCount(tiles, x, y, iy, n - 1) + Probe(tiles, x, y, n - 2, iy)
  }

  /** The probes of row offsets `-1 .. m - 2`. */
  function BlockCount(tiles: seq<TileType>, x: int, y: int, m: nat): nat
    requires |tiles| == NumTiles && NeighborsInGrid(x, y) && m <= 3
  {
    if m == 0 then 0 else BlockCount(tiles, x, y, m - 1) + RowCount(tiles, x, y, m - 2, 3)
  }

  /** The number of Floor tiles among the eight around `(x, y)`. */
  function NeighborCount(tiles: seq<TileType>, x: int, y: int): nat
    requires |tiles| == NumTiles && NeighborsInGrid(x, y)
  {
    BlockCount(tiles, x, y, 3)
  }

  /** The count is the sum over the eight surrounding cells, so at most 8. */
  lemma NeighborCountCells(tiles: seq<TileType>, x: int, y: int)
    requires |tiles| == NumTiles && NeighborsInGrid(x, y)
    ensures NeighborCount(tiles, x, y)
      == FloorAt(tiles, x - 1, y - 1) + FloorAt(tiles, x, y - 1) + FloorAt(tiles, x + 1, y - 1)
       + FloorAt(tiles, x - 1, y) + FloorAt(tiles, x + 1, y)
       + FloorAt(tiles, x - 1, y + 1) + FloorAt(tiles, x, y + 1) + FloorAt(tiles, x + 1, y + 1)
    ensures NeighborCount(tiles, x, y) <= 8
  {
    assert RowCount(tiles, x, y, -1, 1) == FloorAt(tiles, x - 1, y - 1);
    assert RowCount(tiles, x, y, -1, 2) == FloorAt(tiles, x - 1, y - 1) + FloorAt(tiles, x, y - 1);
    assert RowCount(tiles, x, y, 0, 1) == FloorAt(tiles, x - 1, y);
    assert RowCount(tiles, x, y, 0, 2) == FloorAt(tiles, x - 1, y);
    assert RowCount(tiles, x, y, 1, 1) == FloorAt(tiles, x - 1, y + 1);
    assert RowCount(tiles, x, y, 1, 2) == FloorAt(tiles, x - 1, y + 1) + FloorAt(tiles, x, y + 1);
    assert RowCount(tiles, x, y, -1, 3)
      == FloorAt(tiles, x - 1, y - 1) + FloorAt(tiles, x, y - 1) + FloorAt(tiles, x + 1, y - 1);
    assert RowCount(tiles, x, y, 0, 3) == FloorAt(tiles, x - 1, y) + FloorAt(tiles, x + 1, y);
    assert RowCount(tiles, x, y, 1, 3)
      == FloorAt(tiles, x - 1, y + 1) + FloorAt(tiles, x, y + 1) + FloorAt(tiles, x + 1, y + 1);
    assert BlockCount(tiles, x, y, 1) == RowCount(tiles, x, y, -1, 3);
    assert BlockCount(tiles, x, y, 2) == RowCount(tiles, x, y, -1, 3) + RowCount(tiles, x, y, 0, 3);
  }

  /** `count_neighbors`: the nested loops over the offsets `-1..=1`. */
  method CountNeighbors(x: int, y: int, m: Map) returns (n: nat)
    requires |m.tiles| == NumTiles && NeighborsInGrid(x, y)
    ensures n == NeighborCount(m.tiles, x, y)
  {
    n := 0;
    var iy := -1;
    while iy <= 1
      invariant -1 <= iy <= 2
      invariant n == BlockCount(m.tiles, x, y, iy + 1)
    {
      var ix := -1;
      while ix <= 1
        invariant -1 <= ix <= 2
        invariant n == BlockCount(m.tiles, x, y, iy + 1) + RowCount(m.tiles, x, y, iy, ix + 1)
      {
        if !(ix == 0 && iy == 0) && m.tiles[MapIdx(x + ix, y + iy)] == Floor {
          n := n + 1;
        }
        ix := ix + 1;
      }
      iy := iy + 1;
    }
  }

  // ---------------------------------------------------------------------------
  // Smoothing

  /** The cells `iteration` recomputes: all but the outermost rows and columns. */
  predicate Interior(p: Point) {
    1 <= p.x < ScreenWidth - 1 && 1 <= p.y < ScreenHeight - 1
  }

  /** Around an interior cell every probed index is on the grid. */
  lemma InteriorNeighborsInGrid(p: Point)
    requires Interior(p)
    ensures NeighborsInGrid(p.x, p.y)
  {
  }

  /** A cell with no Floor neighbour or more than four becomes Wall, any other Floor. */
  function SmoothRule(neighbors: nat): TileType {
    if neighbors == 0 || neighbors > 4 then Wall else Floor
  }

  /** The tile index `i` holds after one pass over `tiles`. */
  function SmoothedAt(tiles: seq<TileType>, i: nat): TileType
    requires |tiles| == NumTiles && i < NumTiles
  {
    var p := IndexToPoint(i);
    if Interior(p) then SmoothRule(NeighborCount(tiles, p.x, p.y)) else tiles[i]
  }

  /** One smoothing pass: every interior cell from the old grid's neighbour counts. */
  function Smoothed(tiles: seq<TileType>): (r: seq<TileType>)
    requires |tiles| == NumTiles
    ensures |r| == NumTiles
  {
    seq(NumTiles, i requires 0 <= i < NumTiles => SmoothedAt(tiles, i))
  }

  /** A pass decides each interior cell by the rule and leaves the border as it was. */
  lemma SmoothedCell(tiles: seq<TileType>, p: Point)
    requires |tiles| == NumTiles && InBounds(p)
    ensures Interior(p) ==> TileAt(Smoothed(tiles), p) == SmoothRule(NeighborCount(tiles, p.x, p.y))
    ensures !Interior(p) ==> TileAt(Smoothed(tiles), p) == TileAt(tiles, p)
  {
    PointRoundTrip(p);
  }

  /** An all-wall grid is a fixed point of smoothing. */
  lemma SmoothedAllWalls()
    ensures Smoothed(Uniform(Wall)) == Uniform(Wall)
  {
    var r := Smoothed(Uniform(Wall));
    forall i | 0 <= i < NumTiles
      ensures r[i] == Wall
    {
      var p := IndexToPoint(i);
      if Interior(p) {
        NeighborCountCells(Uniform(Wall), p.x, p.y);
      }
    }
  }

  /** `k` smoothing passes. */
  function SmoothTimes(tiles: seq<TileType>, k: nat): (r: seq<TileType>)
    requires |tiles| == NumTiles
    ensures |r| == NumTiles
    decreases k
  {
    if k == 0 then tiles else Smoothed(SmoothTimes(tiles, k - 1))
  }

  /** However many passes run, the border cells keep their noise. */
  lemma {:induction false} SmoothTimesKeepsBorder(tiles: seq<TileType>, k: nat, p: Point)
    requires |tiles| == NumTiles && InBounds(p) && !Interior(p)
    ensures TileAt(SmoothTimes(tiles, k), p) == TileAt(tiles, p)
    decreases k
  {
    if k > 0 {
      SmoothTimesKeepsBorder(tiles, k - 1, p);
      SmoothedCell(SmoothTimes(tiles, k - 1), p);
    }
  }

  /**
   * `iteration`: the counts are read from the current tiles while the
   * results go to a copy, which then replaces the tiles.
   */
  method Iteration(m: Map)
    requires |m.tiles| == NumTiles
    modifies m
    ensures m.tiles == Smoothed(old(m.tiles))
  {
    ghost var t0 := m.tiles;
    AllIndicesRoundTrip();
    var newTiles := m.tiles;
    var y := 1;
    while y < ScreenHeight - 1
      invariant 1 <= y <= ScreenHeight - 1
      invariant m.tiles == t0 && |newTiles| == NumTiles
      invariant forall i | 0 <= i < NumTiles ::
        newTiles[i] == if Interior(IndexToPoint(i)) && IndexToPoint(i).y < y then SmoothedAt(t0, i) else t0[i]
    {
      var x := 1;
      while x < ScreenWidth - 1
        invariant 1 <= x <= ScreenWidth - 1
        invariant m.tiles == t0 && |newTiles| == NumTiles
        invariant forall i | 0 <= i < NumTiles ::
          newTiles[i]
          == if Interior(IndexToPoint(i)) && (IndexToPoint(i).y < y || (IndexToPoint(i).y == y && IndexToPoint(i).x < x))
             then SmoothedAt(t0, i) else t0[i]
      {
        newTiles := SmoothCell(m, newTiles, x, y);
        x := x + 1;
      }
      y := y + 1;
    }
    m.tiles := newTiles;
    assert m.tiles == Smoothed(t0);
  }

  /** The body of the inner loop of `iteration`: the cell `(x, y)` of the copy gets its new tile. */
  method SmoothCell(m: Map, newTiles: seq<TileType>, x: int, y: int) returns (r: seq<TileType>)
    requires |m.tiles| == NumTiles && |newTiles| == NumTiles && Interior(Point(x, y))
    ensures r == newTiles[MapIdx(x, y) := SmoothedAt(m.tiles, MapIdx(x, y))]
  {
    PointRoundTrip(Point(x, y));
    var neighbors := CountNeighbors(x, y, m);
    var idx := MapIdx(x, y);
    if neighbors == 0 || neighbors > 4 {
      r := newTiles[idx := Wall];
    } else {
      r := newTiles[idx := Floor];
    }
  }

  // ---------------------------------------------------------------------------
  // The start tile

  /**
   * Index `i` is a Floor tile nearest the centre, and every Floor tile before
   * it is strictly farther: `min_by` returns the first of equal minima.
   */
  predicate FirstClosest(tiles: seq<TileType>, i: nat) {
    i < |tiles| && tiles[i] == Floor
    && forall j | 0 <= j < |tiles| && tiles[j] == Floor ::
      SqDist(Centre, IndexToPoint(i)) <= SqDist(Centre, IndexToPoint(j))
      && (j < i ==> SqDist(Centre, IndexToPoint(i)) < SqDist(Centre, IndexToPoint(j)))
  }

  /** At most one index is the first closest one: the choice is deterministic. */
  lemma FirstClosestUnique(tiles: seq<TileType>, i: nat, j: nat)
    requires FirstClosest(tiles, i) && FirstClosest(tiles, j)
    ensures i == j
  {
  }

  /** The first Floor index among the first `n` nearest the centre. */
  function ClosestFloor(tiles: seq<TileType>, n: nat): (r: Option<nat>)
    requires n <= |tiles|
    ensures r.None? <==> forall j | 0 <= j < n :: tiles[j] != Floor
    ensures r.Some? ==>
      r.value < n && tiles[r.value] == Floor
      && (forall j | 0 <= j < n && tiles[j] == Floor :: SqDist(Centre, IndexToPoint(r.value)) <= SqDist(Centre, IndexToPoint(j)))
      && (forall j | 0 <= j < r.value && tiles[j] == Floor :: SqDist(Centre, IndexToPoint(r.value)) < SqDist(Centre, IndexToPoint(j)))
    decreases n
  {
    if n == 0 then None
    else
      var r := ClosestFloor(tiles, n - 1);
      if tiles[n - 1] == Floor && (r.None? || SqDist(Centre, IndexToPoint(n - 1)) < SqDist(Centre, IndexToPoint(r.value)))
      then Some(n - 1)
      else r
  }

  /** `find_start`: `None` is the panic at the `unwrap` when the grid has no Floor tile. */
  function FindStart(tiles: seq<TileType>): (r: Option<Point>)
    requires |tiles| == NumTiles
    ensures r.None? <==> forall j | 0 <= j < NumTiles :: tiles[j] != Floor
    ensures r.Some? ==> InBounds(r.value) && FirstClosest(tiles, MapIdx(r.value.x, r.value.y))
  {
    match ClosestFloor(tiles, NumTiles)
    case None => None
    case Some(i) =>
      IndexRoundTrip(i);
      Some(IndexToPoint(i))
  }

  /** Only the centre itself lies at squared distance zero from it. */
  lemma SqDistZero(p: Point)
    requires SqDist(Centre, p) <= 0
    ensures p == Centre
  {
    var dx, dy := Centre.x - p.x, Centre.y - p.y;
    assert dx * dx >= 0 && dy * dy >= 0;
  }

  /** Where the centre is Floor, the start is the centre. */
  lemma FindStartAtCentre(tiles: seq<TileType>)
    requires |tiles| == NumTiles && TileAt(tiles, Centre) == Floor
    ensures FindStart(tiles) == Some(Centre)
  {
    var c := MapIdx(Centre.x, Centre.y);
    PointRoundTrip(Centre);
    var p := FindStart(tiles).value;
    assert SqDist(Centre, p) <= SqDist(Centre, IndexToPoint(c));
    SqDistZero(p);
  }

  // ---------------------------------------------------------------------------
  // Pruning

  /** The tiles after walling off every index whose distance exceeds `PruneDistance`. */
  function Pruned(tiles: seq<TileType>, dist: seq<real>): (r: seq<TileType>)
    requires |dist| <= |tiles|
    ensures |r| == |tiles|
  {
    seq(|tiles|, i requires 0 <= i < |tiles| => if i < |dist| && dist[i] > PruneDistance then Wall else tiles[i])
  }

  /**
   * Pruning only removes Floor: a tile is Floor afterwards exactly when it
   * was Floor and its distance is within the bound; it is idempotent.
   */
  lemma PrunedFloor(tiles: seq<TileType>, dist: seq<real>)
    requires |dist| == |tiles|
    ensures forall i | 0 <= i < |tiles| :: Pruned(tiles, dist)[i] == Floor <==> tiles[i] == Floor && dist[i] <= PruneDistance
    ensures Pruned(Pruned(tiles, dist), dist) == Pruned(tiles, dist)
  {
  }

  /** The pruning loop of `new`: Wall at every index of the field beyond the bound. */
  method Prune(m: Map, dist: seq<real>)
    requires |dist| <= |m.tiles|
    modifies m
    ensures m.tiles == Pruned(old(m.tiles), dist)
  {
    ghost var t0 := m.tiles;
    var i := 0;
    while i < |dist|
      invariant 0 <= i <= |dist| && |m.tiles| == |t0|
      invariant forall k | 0 <= k < |t0| :: m.tiles[k] == if k < i && dist[k] > PruneDistance then Wall else t0[k]
    {
      if dist[i] > PruneDistance {
        m.tiles := m.tiles[i := Wall];
      }
      i := i + 1;
    }
    assert m.tiles == Pruned(t0, dist);
  }

  // ---------------------------------------------------------------------------
  // The strategy

  /** The grid after the noise of the draws at `pos` and all smoothing passes. */
  function Cave(s: nat -> int, pos: nat): (r: seq<TileType>)
    ensures |r| == NumTiles
  {
    SmoothTimes(NoiseMap(s, pos, NumTiles), SmoothingPasses)
  }

  /** The cave after pruning by the distance field from `start`. */
  function PrunedCave(engine: DistanceEngine, cave: seq<TileType>, start: Point): (r: seq<TileType>)
    requires |cave| == NumTiles && DistanceField(engine)
    ensures |r| == NumTiles
  {
    Pruned(cave, engine(cave, MapIdx(start.x, start.y)))
  }

  /** The smoothing loop of `new`. */
  method SmoothAll(m: Map)
    requires |m.tiles| == NumTiles
    modifies m
    ensures m.tiles == SmoothTimes(old(m.tiles), SmoothingPasses)
  {
    ghost var t0 := m.tiles;
    var k := 0;
    while k < SmoothingPasses
      invariant 0 <= k <= SmoothingPasses && m.tiles == SmoothTimes(t0, k)
    {
      Iteration(m);
      k := k + 1;
    }
  }

  /**
   * The part of `CellularAutomataArchitect::new` after the start is found:
   * pruning by the distance field from `start`, the spawns, the player and
   * the amulet. `Panicked` is the panic of `spawn_monster` when fewer tiles
   * than monsters are spawnable. The amulet search cannot panic, since the
   * start is at distance zero from itself.
   */
  method Populate(mb: MapBuilder, rng: Rng, engine: DistanceEngine, start: Point) returns (status: BuildStatus)
    requires mb.Valid() && DistanceField(engine) && InBounds(start) && TileAt(mb.tileMap.tiles, start) == Floor
    modifies mb, mb.tileMap, rng
    ensures mb.Valid() && mb.rooms == old(mb.rooms)
    ensures status == Built || status == Panicked
    ensures var tiles := PrunedCave(engine, old(mb.tileMap.tiles), start);
      (status == Built <==> |Spawnable(tiles, start, NumTiles)| >= NumMonsters)
      && (status == Built ==>
            mb.tileMap.tiles == tiles && mb.playerStart == start
            && Pick(Spawnable(tiles, start, NumTiles), rng.stream, old(rng.pos), NumMonsters) == Some(mb.monsterSpawns)
            && Some(mb.amuletStart) == FindMostDistant(engine(tiles, MapIdx(start.x, start.y)))
            && rng.pos == old(rng.pos) + SpawnDraws(|Spawnable(tiles, start, NumTiles)|))
    ensures status == Built ==>
      InBounds(mb.playerStart) && TileAt(mb.tileMap.tiles, mb.playerStart) == Floor
      && InBounds(mb.amuletStart) && TileAt(mb.tileMap.tiles, mb.amuletStart) == Floor
      && |mb.monsterSpawns| == NumMonsters && Distinct(mb.monsterSpawns)
      && forall k | 0 <= k < |mb.monsterSpawns| ::
        InBounds(mb.monsterSpawns[k]) && TileAt(mb.tileMap.tiles, mb.monsterSpawns[k]) == Floor
        && SqDist(mb.playerStart, mb.monsterSpawns[k]) > SpawnMinSqDist
  {
    ghost var cave := mb.tileMap.tiles;
    PointRoundTrip(start);
    var dist := engine(mb.tileMap.tiles, MapIdx(start.x, start.y));
    Prune(mb.tileMap, dist);
    PrunedFloor(cave, dist);
    var spawns, ok := mb.SpawnMonster(start, rng);
    if !ok {
      status := Panicked;
      return;
    }
    mb.monsterSpawns := spawns;
    mb.playerStart := start;
    var amulet := mb.FindMostDistantPoint(engine);
    mb.amuletStart := amulet.value;
    status := Built;
  }

  /**
   * The level the strategy builds from the draws of `s` at `pos` on, with
   * `end` the cursor after its last draw. `Panicked` stands for the two
   * panics the program can reach: a cave without Floor at `find_start`, and
   * fewer spawnable tiles than monsters. Otherwise the level is the pruned
   * cave, the player stands at the start, the spawns are the sample drawn
   * after the noise and the amulet is the farthest reachable tile.
   */
  ghost predicate Generates(mb: MapBuilder, status: BuildStatus, engine: DistanceEngine, s: nat -> int, pos: nat, end: nat)
    requires DistanceField(engine)
    reads mb, mb.tileMap
  {
    mb.Valid() && mb.rooms == []
    && (status == Built || status == Panicked)
    && (var cave := Cave(s, pos);
        match FindStart(cave)
        case None => status == Panicked
        case Some(start) =>
          var tiles := PrunedCave(engine, cave, start);
          (status == Built <==> |Spawnable(tiles, start, NumTiles)| >= NumMonsters)
          && (status == Built ==>
                mb.tileMap.tiles == tiles && mb.playerStart == start
                && Pick(Spawnable(tiles, start, NumTiles), s, pos + NumTiles, NumMonsters) == Some(mb.monsterSpawns)
                && Some(mb.amuletStart) == FindMostDistant(engine(tiles, MapIdx(start.x, start.y)))
                && end == pos + NumTiles + SpawnDraws(|Spawnable(tiles, start, NumTiles)|)))
    && (status == Built ==>
          InBounds(mb.playerStart) && TileAt(mb.tileMap.tiles, mb.playerStart) == Floor
          && InBounds(mb.amuletStart) && TileAt(mb.tileMap.tiles, mb.amuletStart) == Floor
          && |mb.monsterSpawns| == NumMonsters && Distinct(mb.monsterSpawns)
          && forall k | 0 <= k < |mb.monsterSpawns| ::
            InBounds(mb.monsterSpawns[k]) && TileAt(mb.tileMap.tiles, mb.monsterSpawns[k]) == Floor
            && SqDist(mb.playerStart, mb.monsterSpawns[k]) > SpawnMinSqDist)
  }

  /** `CellularAutomataArchitect::new`: the level `Generates` describes, on a fresh builder. */
  method New(rng: Rng, engine: DistanceEngine) returns (mb: MapBuilder, status: BuildStatus)
    requires DistanceField(engine)
    modifies rng
    ensures fresh(mb) && fresh(mb.tileMap)
    ensures Generates(mb, status, engine, rng.stream, old(rng.pos), rng.pos)
  {
    ghost var pos0 := rng.pos;
    mb := new MapBuilder();
    RandomNoiseMap(rng, mb.tileMap);
    assert rng.pos == pos0 + NumTiles;
    SmoothAll(mb.tileMap);
    ghost var cave := mb.tileMap.tiles;
    assert cave == Cave(rng.stream, pos0);
    var found := FindStart(mb.tileMap.tiles);
    if found.None? {
      status := Panicked;
      return;
    }
    status := Populate(mb, rng, engine, found.value);
  }
}
