/**
 * `MapBuilder::new` (src/map_builder/mod.rs): one draw in `[0, 4)` picks the
 * strategy that builds the level.
 */
module Strategy {
  import opened Grid
  import opened Random
  import opened Builder
  import CellularAutomata
  import RoomArchitect
  import EmptyArchitect

  /** The four strategies of the program. */
  datatype Architect = Cave | Rooms | Empty | DrunkardsWalk

  /** The `match method_seed`: 0, 1 and 2 name a strategy each, and every other value the drunkard's walk. */
  function SelectArchitect(seed: int): Architect {
    if seed == 0 then Cave
    else if seed == 1 then Rooms
    else if seed == 2 then Empty
    else DrunkardsWalk
  }

  /** The one draw in `[0, 4)` that selects `a`. */
  function SeedOf(a: Architect): (seed: int)
    ensures 0 <= seed < 4 && SelectArchitect(seed) == a
  {
    match a
    case Cave => 0
    case Rooms => 1
    case Empty => 2
    case DrunkardsWalk => 3
  }

  /**
   * On the draws `range(0, 4)` can give, the selection is a bijection onto
   * the strategies: each is chosen by exactly one draw, so none is favoured.
   */
  lemma SelectionUniform()
    ensures forall seed | 0 <= seed < 4 :: SeedOf(SelectArchitect(seed)) == seed
    ensures forall a: Architect, seed | 0 <= seed < 4 && SelectArchitect(seed) == a :: seed == SeedOf(a)
  {
  }

  /**
   * `MapBuilder::new`: the strategy drawn builds the level from the next
   * draw on, as its own `Generates` describes. The drunkard's walk is not
   * part of this model and yields an untouched builder with `NotModelled`;
   * the room strategy is granted `fuel` candidate rooms.
   */
  method New(rng: Rng, engine: DistanceEngine, fuel: nat) returns (mb: MapBuilder, architect: Architect, status: BuildStatus)
    requires DistanceField(engine)
    modifies rng
    ensures fresh(mb) && mb.Valid()
    ensures architect == SelectArchitect(ToRange(rng.stream(old(rng.pos)), 0, 4))
    ensures status == NotModelled <==> architect == DrunkardsWalk
    ensures architect == Cave ==>
      CellularAutomata.Generates(mb, status, engine, rng.stream, old(rng.pos) + 1, rng.pos)
    ensures architect == Rooms ==>
      RoomArchitect.Generates(mb, status, engine, rng.stream, old(rng.pos) + 1, fuel, rng.pos)
    ensures architect == Empty ==>
      status == Built && EmptyArchitect.Generates(mb, engine, rng.stream, old(rng.pos) + 1, rng.pos)
    ensures architect == DrunkardsWalk ==>
      rng.pos == old(rng.pos) + 1 && mb.tileMap.tiles == Uniform(Wall) && mb.rooms == [] && mb.monsterSpawns == []
    ensures status == Built ==>
      InBounds(mb.playerStart) && InBounds(mb.amuletStart)
      && TileAt(mb.tileMap.tiles, mb.playerStart) == Floor && TileAt(mb.tileMap.tiles, mb.amuletStart) == Floor
      && forall k | 0 <= k < |mb.monsterSpawns| :: InBounds(mb.monsterSpawns[k])
  {
    var seed := rng.Range(0, 4);
    architect := SelectArchitect(seed);
    match architect
    case Cave =>
      mb, status := CellularAutomata.New(rng, engine);
    case Rooms =>
      mb, status := RoomArchitect.New(rng, engine, fuel);
    case Empty =>
      mb := EmptyArchitect.New(rng, engine);
      status := Built;
    case DrunkardsWalk =>
      mb := new MapBuilder();
      status := NotModelled;
  }
}
