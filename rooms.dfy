/**
 * The room strategy (src/map_builder/rooms.rs): an all-wall grid, twenty
 * rejection-sampled rooms, corridors in the order of the room centres, the
 * player in the first room, one monster in the centre of every other room
 * and the amulet on the farthest reachable tile.
 */
module RoomArchitect {
  import opened Wrappers
  import opened Grid
  import opened Rects
  import opened Random
  import opened Builder

  /** The centres of `rooms`, in order. */
  function Centres(rooms: seq<Rect>): (r: seq<Point>)
    ensures |r| == |rooms|
  {
    seq(|rooms|, k requires 0 <= k < |rooms| => rooms[k].Center())
  }

  /** The placement from no rooms over `fuel` candidates drawn from `pos`. */
  function Placed(s: nat -> int, pos: nat, fuel: nat): Placement {
    PlaceRooms([], Candidates(s, pos, fuel), 0)
  }

  /** The placed rooms keep apart, are at most `NumRooms`, and each has the drawn shape. */
  lemma PlacedRooms(s: nat -> int, pos: nat, fuel: nat)
    ensures var p := Placed(s, pos, fuel);
      Disjoint(p.rooms) && |p.rooms| <= NumRooms && p.next <= fuel
      && (|p.rooms| < NumRooms ==> p.next == fuel)
      && forall k | 0 <= k < |p.rooms| :: RoomShape(p.rooms[k])
  {
    var cands := Candidates(s, pos, fuel);
    PlaceRoomsDisjoint([], cands);
    PlaceRoomsExtends([], cands, 0);
    PlaceRoomsFresh([], cands, 0);
    CandidatesShaped(s, pos, fuel);
    assert cands[0..] == cands;
  }

  /** Where the corridor coins start: after the four draws of every candidate tried. */
  function CorridorDraws(s: nat -> int, pos: nat, fuel: nat): nat {
    pos + 4 * Placed(s, pos, fuel).next
  }

  /** The level: the rooms carved into walls, then the corridors chained with the coins drawn from `pos`. */
  function Level(rooms: seq<Rect>, s: nat -> int, pos: nat): (r: seq<TileType>)
    ensures |r| == NumTiles
  {
    var carved := CarveRooms(Uniform(Wall), rooms);
    CarveRoomsAt(Uniform(Wall), rooms, 0);
    CorridorsOnlyAddFloor(carved, SortByCenterX(rooms), s, pos, |rooms|);
    Corridors(carved, SortByCenterX(rooms), s, pos, |rooms|)
  }

  /** A tile of the level is Floor exactly when a room or a corridor covers it. */
  lemma LevelAt(rooms: seq<Rect>, s: nat -> int, pos: nat, p: Point)
    requires InBounds(p)
    ensures TileAt(Level(rooms, s, pos), p) == Floor
      <==> InSomeRoom(rooms, p) || OnSomeCorridor(p, SortByCenterX(rooms), s, pos, |rooms|)
  {
    var carved := CarveRooms(Uniform(Wall), rooms);
    PointRoundTrip(p);
    CarveRoomsAt(Uniform(Wall), rooms, MapIdx(p.x, p.y));
    CorridorsAt(carved, SortByCenterX(rooms), s, pos, |rooms|, p);
  }

  /** The centre of every drawn room is a Floor tile of the level. */
  lemma CentresFloor(rooms: seq<Rect>, s: nat -> int, pos: nat)
    requires forall k | 0 <= k < |rooms| :: RoomShape(rooms[k])
    ensures forall k | 0 <= k < |rooms| ::
      InBounds(rooms[k].Center()) && TileAt(Level(rooms, s, pos), rooms[k].Center()) == Floor
  {
    forall k | 0 <= k < |rooms|
      ensures InBounds(rooms[k].Center()) && TileAt(Level(rooms, s, pos), rooms[k].Center()) == Floor
    {
      RoomCentreCarvable(rooms[k]);
      assert InSomeRoom(rooms, rooms[k].Center());
      LevelAt(rooms, s, pos, rooms[k].Center());
    }
  }

  /** The centres of the rooms after the first are among the room centres, so Floor tiles where those are. */
  lemma RestCentresFloor(rooms: seq<Rect>, level: seq<TileType>)
    requires |rooms| >= 1 && |level| == NumTiles
    requires forall k | 0 <= k < |rooms| :: InBounds(rooms[k].Center()) && TileAt(level, rooms[k].Center()) == Floor
    ensures forall k | 0 <= k < |Centres(rooms[1..])| ::
      InBounds(Centres(rooms[1..])[k]) && TileAt(level, Centres(rooms[1..])[k]) == Floor
  {
    forall k | 0 <= k < |Centres(rooms[1..])|
      ensures InBounds(Centres(rooms[1..])[k]) && TileAt(level, Centres(rooms[1..])[k]) == Floor
    {
      assert Centres(rooms[1..])[k] == rooms[k + 1].Center();
    }
  }

  /** The `rooms.iter().skip(1)` loop: every room but the first contributes its centre. */
  method SpawnInRooms(mb: MapBuilder)
    requires |mb.rooms| >= 1
    modifies mb
    ensures mb.rooms == old(mb.rooms) && mb.playerStart == old(mb.playerStart) && mb.amuletStart == old(mb.amuletStart)
    ensures mb.monsterSpawns == old(mb.monsterSpawns) + Centres(mb.rooms[1..])
  {
    ghost var spawns0 := mb.monsterSpawns;
    var k := 1;
    while k < |mb.rooms|
      invariant 1 <= k <= |mb.rooms| && mb.rooms == old(mb.rooms)
      invariant mb.playerStart == old(mb.playerStart) && mb.amuletStart == old(mb.amuletStart)
      invariant mb.monsterSpawns == spawns0 + Centres(mb.rooms[1..k])
    {
      assert Centres(mb.rooms[1..k + 1]) == Centres(mb.rooms[1..k]) + [mb.rooms[k].Center()];
      mb.monsterSpawns := mb.monsterSpawns + [mb.rooms[k].Center()];
      k := k + 1;
    }
  }

  /**
   * The part of `RoomArchitect::new` after the rooms are carved: the
   * corridors, the player at the centre of the first room, the amulet and
   * the spawns in the other rooms' centres. Nothing here can panic: the
   * first room exists and its centre is reachable from itself.
   */
  method Furnish(mb: MapBuilder, rng: Rng, engine: DistanceEngine, ghost rooms: seq<Rect>, ghost pos: nat)
    requires mb.Valid() && DistanceField(engine) && |mb.rooms| >= 1 && mb.monsterSpawns == []
    requires mb.rooms == rooms && rng.pos == pos
    requires forall k | 0 <= k < |mb.rooms| :: RoomShape(mb.rooms[k])
    requires mb.tileMap.tiles == CarveRooms(Uniform(Wall), mb.rooms)
    modifies mb, mb.tileMap, rng
    ensures mb.Valid() && mb.rooms == old(mb.rooms)
    ensures mb.tileMap.tiles == Level(rooms, rng.stream, pos)
    ensures rng.pos == pos + |rooms| - 1
    ensures mb.playerStart == mb.rooms[0].Center() && mb.monsterSpawns == Centres(mb.rooms[1..])
    ensures Some(mb.amuletStart) == FindMostDistant(engine(mb.tileMap.tiles, MapIdx(mb.playerStart.x, mb.playerStart.y)))
    ensures InBounds(mb.playerStart) && TileAt(mb.tileMap.tiles, mb.playerStart) == Floor
      && InBounds(mb.amuletStart) && TileAt(mb.tileMap.tiles, mb.amuletStart) == Floor
    ensures |mb.monsterSpawns| == |mb.rooms| - 1
    ensures forall k | 0 <= k < |mb.monsterSpawns| ::
      InBounds(mb.monsterSpawns[k]) && TileAt(mb.tileMap.tiles, mb.monsterSpawns[k]) == Floor
  {
    mb.BuildCorridors(rng);
    assert mb.tileMap.tiles == Level(rooms, rng.stream, pos);
    CentresFloor(rooms, rng.stream, pos);
    mb.playerStart := mb.rooms[0].Center();
    var amulet := mb.FindMostDistantPoint(engine);
    mb.amuletStart := amulet.value;
    SpawnInRooms(mb);
    RestCentresFloor(rooms, mb.tileMap.tiles);
  }

  /**
   * The level the strategy builds from the draws of `s` at `pos` on, with at
   * most `fuel` candidate rooms and `end` the cursor after its last draw. The
   * program's rejection loop draws until it has `NumRooms` rooms, and
   * `OutOfFuel` is a run cut short before that. A built level holds the
   * placed rooms, which are disjoint; its corridors draw their coins after the
   * placement. The player stands on the Floor centre of the first room, and
   * the spawns on the Floor centres of the others. The amulet is the farthest
   * reachable tile.
   */
  ghost predicate Generates(mb: MapBuilder, status: BuildStatus, engine: DistanceEngine, s: nat -> int, pos: nat, fuel: nat, end: nat)
    reads mb, mb.tileMap
  {
    mb.Valid()
    && (status == Built || status == OutOfFuel)
    && (status == Built <==> |Placed(s, pos, fuel).rooms| == NumRooms)
    && (status == Built ==> mb.rooms == Placed(s, pos, fuel).rooms)
    && (status == Built ==>
          mb.tileMap.tiles == Level(mb.rooms, s, CorridorDraws(s, pos, fuel))
          && end == CorridorDraws(s, pos, fuel) + NumRooms - 1)
    && (status == Built ==>
          mb.playerStart == mb.rooms[0].Center() && mb.monsterSpawns == Centres(mb.rooms[1..])
          && Some(mb.amuletStart) == FindMostDistant(engine(mb.tileMap.tiles, MapIdx(mb.playerStart.x, mb.playerStart.y))))
    && (status == Built ==>
          |mb.rooms| == NumRooms && Disjoint(mb.rooms)
          && InBounds(mb.playerStart) && TileAt(mb.tileMap.tiles, mb.playerStart) == Floor
          && InBounds(mb.amuletStart) && TileAt(mb.tileMap.tiles, mb.amuletStart) == Floor
          && |mb.monsterSpawns| == NumRooms - 1
          && forall k | 0 <= k < |mb.monsterSpawns| ::
            InBounds(mb.monsterSpawns[k]) && TileAt(mb.tileMap.tiles, mb.monsterSpawns[k]) == Floor)
  }

  /** `RoomArchitect::new`, with at most `fuel` candidate rooms: the level `Generates` describes, on a fresh builder. */
  method New(rng: Rng, engine: DistanceEngine, fuel: nat) returns (mb: MapBuilder, status: BuildStatus)
    requires DistanceField(engine)
    modifies rng
    ensures fresh(mb) && fresh(mb.tileMap)
    ensures Generates(mb, status, engine, rng.stream, old(rng.pos), fuel, rng.pos)
  {
    ghost var pos0 := rng.pos;
    mb := new MapBuilder();
    mb.Fill(Wall);
    assert mb.tileMap.tiles == Uniform(Wall);
    var placed := mb.BuildRandomRooms(rng, fuel);
    ghost var p := Placed(rng.stream, pos0, fuel);
    PlacedRooms(rng.stream, pos0, fuel);
    assert mb.rooms == p.rooms && rng.pos == pos0 + 4 * p.next;
    assert mb.rooms[0..] == mb.rooms;
    if !placed {
      status := OutOfFuel;
      return;
    }
    ghost var pos1 := CorridorDraws(rng.stream, pos0, fuel);
    assert rng.pos == pos1;
    Furnish(mb, rng, engine, mb.rooms, pos1);
    status := Built;
  }
}
