/**
 * The empty strategy (src/map_builder/empty.rs): an all-floor grid, the
 * player at the centre, the amulet on the farthest reachable tile and fifty
 * monsters at uniformly drawn points off the top row and left column.
 */
module EmptyArchitect {
  import opened Wrappers
  import opened Grid
  import opened Random
  import opened Builder

  /** The number of monsters the strategy places. */
  const EmptySpawnCount: nat := 50

  /** A spawn drawn by this strategy: x in `[1, ScreenWidth)`, y in `[1, ScreenHeight)`. */
  predicate SpawnRange(p: Point) {
    1 <= p.x < ScreenWidth && 1 <= p.y < ScreenHeight
  }

  /** The spawn drawn from the two draws at `pos`, x first. */
  function SpawnPoint(s: nat -> int, pos: nat): Point {
    Point(ToRange(s(pos), 1, ScreenWidth), ToRange(s(pos + 1), 1, ScreenHeight))
  }

  /** The `n` spawns drawn from `pos` on, two draws each. */
  function Spawns(s: nat -> int, pos: nat, n: nat): (r: seq<Point>)
    ensures |r| == n
  {
    seq(n, k requires 0 <= k < n => SpawnPoint(s, pos + 2 * k))
  }

  /** Every drawn spawn lies in the drawn range, so on the grid. */
  lemma SpawnsInRange(s: nat -> int, pos: nat, n: nat)
    ensures forall k | 0 <= k < n :: SpawnRange(Spawns(s, pos, n)[k]) && InBounds(Spawns(s, pos, n)[k])
  {
  }

  /** Every list of points in the range is drawn by some stream: the draws constrain nothing else. */
  lemma SpawnsCoverAll(ps: seq<Point>)
    requires forall k | 0 <= k < |ps| :: SpawnRange(ps[k])
    ensures exists s: nat -> int :: Spawns(s, 0, |ps|) == ps
  {
    var s: nat -> int := (i: nat) => if i / 2 < |ps| then (if i % 2 == 0 then ps[i / 2].x else ps[i / 2].y) else 1;
    var r := Spawns(s, 0, |ps|);
    forall k | 0 <= k < |ps|
      ensures r[k] == ps[k]
    {
      assert (2 * k) / 2 == k && (2 * k) % 2 == 0;
      assert (2 * k + 1) / 2 == k && (2 * k + 1) % 2 == 1;
      assert ToRange(s(2 * k), 1, ScreenWidth) == ps[k].x;
      assert ToRange(s(2 * k + 1), 1, ScreenHeight) == ps[k].y;
    }
    assert r == ps;
  }

  /** One pass of the spawn loop. */
  method PushSpawn(mb: MapBuilder, rng: Rng)
    modifies mb, rng
    ensures mb.monsterSpawns == old(mb.monsterSpawns) + [SpawnPoint(rng.stream, old(rng.pos))]
    ensures rng.pos == old(rng.pos) + 2
    ensures mb.rooms == old(mb.rooms) && mb.playerStart == old(mb.playerStart) && mb.amuletStart == old(mb.amuletStart)
  {
    var x := rng.Range(1, ScreenWidth);
    var y := rng.Range(1, ScreenHeight);
    mb.monsterSpawns := mb.monsterSpawns + [Point(x, y)];
  }

  /**
   * The level the strategy builds from the draws of `s` at `pos` on, with
   * `end` the cursor after its last draw: all Floor, no rooms, the player at
   * the centre, the amulet on the farthest reachable tile and fifty spawns
   * drawn in range, two draws each.
   */
  ghost predicate Generates(mb: MapBuilder, engine: DistanceEngine, s: nat -> int, pos: nat, end: nat)
    reads mb, mb.tileMap
  {
    mb.Valid()
    && mb.tileMap.tiles == Uniform(Floor) && mb.rooms == []
    && mb.playerStart == Centre
    && Some(mb.amuletStart) == FindMostDistant(engine(Uniform(Floor), MapIdx(Centre.x, Centre.y)))
    && InBounds(mb.amuletStart) && TileAt(mb.tileMap.tiles, mb.amuletStart) == Floor
    && mb.monsterSpawns == Spawns(s, pos, EmptySpawnCount)
    && end == pos + 2 * EmptySpawnCount
    && forall k | 0 <= k < |mb.monsterSpawns| :: SpawnRange(mb.monsterSpawns[k]) && InBounds(mb.monsterSpawns[k])
  }

  /**
   * `EmptyArchitect::new`: the level `Generates` describes, on a fresh
   * builder. It cannot panic: the centre is reachable from itself, so the
   * amulet search finds a tile.
   */
  method New(rng: Rng, engine: DistanceEngine) returns (mb: MapBuilder)
    requires DistanceField(engine)
    modifies rng
    ensures fresh(mb) && fresh(mb.tileMap)
    ensures Generates(mb, engine, rng.stream, old(rng.pos), rng.pos)
  {
    ghost var pos0 := rng.pos;
    mb := new MapBuilder();
    mb.Fill(Floor);
    assert mb.tileMap.tiles == Uniform(Floor);
    mb.playerStart := Centre;
    var amulet := mb.FindMostDistantPoint(engine);
    mb.amuletStart := amulet.value;
    var k := 0;
    while k < EmptySpawnCount
      invariant 0 <= k <= EmptySpawnCount && rng.pos == pos0 + 2 * k
      invariant mb.tileMap.tiles == Uniform(Floor) && mb.rooms == [] && mb.playerStart == Centre
      invariant Some(mb.amuletStart) == FindMostDistant(engine(Uniform(Floor), MapIdx(Centre.x, Centre.y)))
      invariant mb.monsterSpawns == Spawns(rng.stream, pos0, k)
    {
      PushSpawn(mb, rng);
      assert mb.monsterSpawns == Spawns(rng.stream, pos0, k + 1);
      k := k + 1;
    }
    SpawnsInRange(rng.stream, pos0, EmptySpawnCount);
  }
}
