# rust_roguelike map generation, modelled in Dafny

This project models the procedural level generator of the roguelike
(`src/map_builder/`). The generator is a `MapBuilder` holding:

- an 80 x 50 tile map;
- the list of rooms;
- the monster spawn points;
- the player start point;
- the amulet start point.

A single draw in `[0, 4)` chooses one of four strategies. Three of them are
modelled:

- **Cellular automata.** Random noise, ten smoothing passes, the Floor tile
  nearest the centre as the start, and walls over everything the distance
  field puts beyond 2000.
- **Rooms.** Twenty non-intersecting rooms placed by rejection sampling, and
  L-shaped corridors between neighbours in centre order.
- **Empty.** An all-floor grid with fifty random spawns.

The MapBuilder services are modelled too:

- filling;
- horizontal and vertical tunnels;
- room placement;
- corridor chaining;
- spawn sampling without replacement;
- the search for the farthest reachable tile.

Modules and files:

| Module | File | What it holds |
|---|---|---|
| `Grid` | grid.dfy | The tile grid, with point/index conversions and the `Map` class |
| `Rects` | rect.dfy | The rectangle type |
| `Random` | random.dfy | The random number generator: a fixed stream of draws and a cursor `pos` |
| `Builder` | builder.dfy | `MapBuilder` and its services |
| `CellularAutomata` | automata.dfy | The cellular-automata strategy |
| `RoomArchitect` | rooms.dfy | The rooms strategy |
| `EmptyArchitect` | empty.dfy | The empty strategy |
| `Strategy` | dispatch.dfy | `MapBuilder::new` |
| `Wrappers` | wrappers.dfy | `Option` |

Each method that changes state is proved against a specification function
of its inputs. For example:

- `Iteration` yields `Smoothed(old tiles)`;
- `BuildRandomRooms` yields `PlaceRooms(…, Candidates(…))`.

The properties the program relies on are proved as lemmas about those
functions.

How the model treats the program's panics and its distance search:

- **Random draws.** A draw `d` for `range(lo, hi)` yields
  `lo + (d - lo) mod (hi - lo)`. A draw already in range is returned
  unchanged, so every sequence of outcomes is some stream. The lemmas
  `NoiseMapCoversAll` and `SpawnsCoverAll` rely on this.
- **Panics.** Each panic (an `unwrap` on `None`) is an explicit outcome,
  never a precondition. The model uses `Option` results and
  `BuildStatus.Panicked`.
- **Distance field.** The Dijkstra search is a parameter `engine`. The model
  assumes only `DistanceField(engine)`:
  - the answer has one entry per tile;
  - the source tile has distance 0;
  - every other tile with a distance below `Unreachable` is Floor, because
    the search steps only onto passable tiles and Wall is impassable.

  From that assumption the model proves that `find_most_distant` never
  panics from an in-bounds start, and that from a Floor start the amulet
  stands on Floor (`FarthestOnFloor`). Every strategy that reaches the
  amulet step therefore places the amulet, on a Floor tile.

Details of the generator's behaviour that the model states exactly:

- **Floor share of the noise.** The noise roll is `range(1, 100)`, which gives
  99 outcomes. The 44 outcomes above 55 give Floor, so the share is about
  44.4% (not 45%).
- **Farthest tile.** It is the *last* tile of greatest distance, because
  `max_by` keeps the last maximum.
- **Start tile.** The start of the cave is the *first* nearest Floor tile,
  because `min_by` keeps the first minimum.
- **Rectangles.** `Rect::intersect` is bracket-lib's closed-interval test.
  Only the cells `for_each` visits are half-open (`x1..x2`, `y1..y2`).
- **Slice index.** `random_slice_index` draws nothing for an empty or a
  one-element slice. So a `spawn_monster` whose pool holds exactly 50 points
  spends 49 draws, not 50 (`SpawnDraws`).
- **Strategy choice.** The comment at `mod.rs:27` says the choice favours the
  drunkard's walk. In the code each of the four outcomes of the draw selects
  exactly one strategy (`SelectionUniform`).

## Model

| member | source | states |
|---|---|---|
| Grid.TryIdx | src/map_builder/mod.rs:120 | `try_idx` gives an index exactly for in-bounds points, and that index converts back to the same point |
| Grid.PointRoundTrip | src/map_builder/mod.rs:106-108 | every in-bounds point has an index in `[0, 4000)` that converts back to the point |
| Grid.IndexRoundTrip | src/map_builder/automatas.rs:96 | every grid index converts to an in-bounds point whose index is the original one |
| Grid.IndexToPointInjective | src/map_builder/mod.rs:75 | distinct grid indices give distinct points, so the spawn pool lists each tile once |
| Grid.Map.constructor | src/map_builder/automatas.rs:9 | a new map is 4000 walls |
| Rects.Half | src/map_builder/rooms.rs:18 | division by two truncates toward zero, with the bounds stated for both signs |
| Rects.WithSize | src/map_builder/mod.rs:90-96 | the room's corner is the drawn point and its sides are the drawn width and height |
| Rects.IntersectSymmetric | src/map_builder/mod.rs:98-102 | whether one room intersects another does not depend on which is tested first |
| Rects.CenterCovered | src/map_builder/rooms.rs:18 | a non-empty rectangle covers its own centre, so the player starts inside the first room |
| Random.ToRange | src/map_builder/mod.rs:92-95 | every draw lands in `[lo, hi)`, and a draw already there is returned as it is |
| Random.ToRangeIsRemainder | src/map_builder/mod.rs:92-95 | the folding of a draw is the Euclidean remainder `lo + (d - lo) mod (hi - lo)` |
| Random.Rng.Range | src/map_builder/automatas.rs:45 | one draw in the half-open range, and the cursor moves by one |
| Random.Rng.RandomSliceIndex | src/map_builder/mod.rs:79 | an empty slice gives `None` and a one-element slice `Some(0)`, both with no draw; a longer slice spends one draw, giving an index below its length |
| Builder.HorizontalTunnelAt | src/map_builder/mod.rs:117-124 | after a horizontal tunnel a tile is Floor if it lies on the row between the two columns (both included); every other tile is unchanged, and off-grid cells are skipped |
| Builder.HorizontalTunnelSymmetric | src/map_builder/mod.rs:119 | swapping the end columns gives the same tunnel |
| Builder.VerticalTunnelAt | src/map_builder/mod.rs:126-133 | after a vertical tunnel a tile is Floor if it lies on the column between the two rows (both included); every other tile is unchanged |
| Builder.VerticalTunnelSymmetric | src/map_builder/mod.rs:128 | swapping the end rows gives the same tunnel |
| Builder.ConnectPair | src/map_builder/mod.rs:144-151 | one connection only ever turns tiles into Floor |
| Builder.ConnectPairAt | src/map_builder/mod.rs:144-151 | a connection floors exactly the cells of the L path the coin picks: row first on 1, column first otherwise |
| Builder.LPathJoinsEnds | src/map_builder/mod.rs:144-151 | both room centres and the corner of the L lie on the path, so a connection joins the two centres |
| Builder.CorridorsOnlyAddFloor | src/map_builder/mod.rs:135-153 | chaining corridors never turns a Floor tile back into Wall |
| Builder.CorridorsAt | src/map_builder/mod.rs:139-152 | after chaining, a tile is Floor exactly when it lies on the L path between some pair of consecutive sorted rooms; otherwise it keeps its value |
| Builder.InsertByCenterX | src/map_builder/mod.rs:137 | inserting one room adds exactly that room to the multiset of rooms |
| Builder.SortByCenterX | src/map_builder/mod.rs:136-137 | the sorted copy is a permutation of the rooms |
| Builder.InsertKeepsSorted | src/map_builder/mod.rs:137 | inserting into a list sorted by centre column keeps it sorted |
| Builder.SortByCenterXSorted | src/map_builder/mod.rs:137 | the sorted copy is ordered by centre column |
| Builder.CarveRoomsAt | src/map_builder/mod.rs:105-110 | carving the rooms floors exactly the cells some room covers that are off row 0 and column 0; every other tile is unchanged |
| Builder.RoomCentreCarvable | src/map_builder/mod.rs:90-110 | a room of the drawn shape is on the grid and its centre is one of its carved cells |
| Builder.CandidateShape | src/map_builder/mod.rs:90-96 | every candidate room has its corner in `[1, 70) x [1, 40)` and sides in `[2, 10)` |
| Builder.CandidatesShaped | src/map_builder/mod.rs:88-96 | every candidate in a drawn sequence has that shape |
| Builder.PlaceRoomsStep | src/map_builder/mod.rs:97-113 | one attempt keeps the candidate exactly when it intersects no accepted room |
| Builder.PlaceRoomsExtends | src/map_builder/mod.rs:88-114 | placement keeps the rooms it started with and never exceeds 20 rooms; it stops short of 20 only after every candidate has been tried |
| Builder.PlaceRoomsFresh | src/map_builder/mod.rs:97-113 | each appended room is one of the candidates tried and intersects none of the rooms before it |
| Builder.PlaceRoomsDisjoint | src/map_builder/mod.rs:86-115 | the placed rooms are pairwise non-intersecting |
| Builder.Spawnable | src/map_builder/mod.rs:65-76 | the pool holds, in index order and without duplicates, exactly the points of the Floor tiles farther than 10 from the start |
| Builder.PickProperties | src/map_builder/mod.rs:77-83 | sampling `k` spawns succeeds exactly when the pool holds at least `k` points; it then takes `k` points of the pool without replacement, and they are distinct when the pool is |
| Builder.PickFromSpawnable | src/map_builder/mod.rs:64-84 | a completed draw gives 50 distinct in-bounds Floor points, each farther than 10 from the start |
| Builder.FarthestIndex | src/map_builder/mod.rs:53-59 | the result is `None` exactly when no tile is reachable; otherwise it is a reachable index whose distance no reachable tile exceeds, and every later reachable tile is strictly nearer |
| Builder.LastFarthestUnique | src/map_builder/mod.rs:58 | only one index satisfies the last-farthest condition, so the choice of the farthest tile is deterministic |
| Builder.FindMostDistant | src/map_builder/mod.rs:51-61 | the result is `None` (the panic) exactly when nothing is reachable; otherwise it is the point of the last farthest reachable index |
| Builder.FindMostDistantOnGrid | src/map_builder/mod.rs:52-61 | on a grid-sized field the farthest point is in bounds and its own index is the last farthest one |
| Builder.FarthestOnFloor | src/map_builder/mod.rs:43-62 | from a Floor start the farthest reachable tile exists, is in bounds and is a Floor tile of the grid searched |
| Builder.MapBuilder.constructor | src/map_builder/automatas.rs:8-14 | a new builder has an all-wall map, no rooms, no spawns, and both points at the origin |
| Builder.MapBuilder.Fill | src/map_builder/mod.rs:39-41 | every tile is set to the given one and the tile count is unchanged |
| Builder.MapBuilder.ApplyHorizontalTunnel | src/map_builder/mod.rs:117-124 | the loop leaves the map equal to the horizontal tunnel of the old map |
| Builder.MapBuilder.ApplyVerticalTunnel | src/map_builder/mod.rs:126-133 | the loop leaves the map equal to the vertical tunnel of the old map |
| Builder.MapBuilder.FindMostDistantPoint | src/map_builder/mod.rs:43-62 | this is the last farthest reachable tile of the field from the player; it is missing only when nothing is reachable, and never from an in-bounds player start; from a Floor player start it is a Floor tile |
| Builder.MapBuilder.CarveRoomCells | src/map_builder/mod.rs:105-110 | the nested loop floors exactly the room's carvable cells |
| Builder.MapBuilder.OverlapsAccepted | src/map_builder/mod.rs:97-102 | the flag is set exactly when some accepted room intersects the candidate |
| Builder.MapBuilder.TryCandidate | src/map_builder/mod.rs:90-113 | one attempt spends four draws and leaves the room list as `Accept` says: the candidate is appended exactly when it intersects no accepted room; an accepted room is carved |
| Builder.MapBuilder.PlaceStep | src/map_builder/mod.rs:88-113 | one loop iteration preserves the final placement |
| Builder.MapBuilder.BuildRandomRooms | src/map_builder/mod.rs:86-115 | the rooms are exactly the ones placement accepts from the drawn candidates; each is carved, four draws are spent per candidate tried, earlier rooms are kept, and `placed` says whether 20 rooms were reached |
| Builder.MapBuilder.ConnectRooms | src/map_builder/mod.rs:144-151 | the two tunnels, in the order the coin picks, give the connection of the two centres |
| Builder.MapBuilder.ChainNext | src/map_builder/mod.rs:139-152 | one iteration adds the next connection and spends one coin |
| Builder.MapBuilder.BuildCorridors | src/map_builder/mod.rs:135-153 | the map becomes the corridor chain over the rooms sorted by centre column, the room list is untouched, and one coin is drawn per consecutive pair |
| Builder.MapBuilder.TakeSpawn | src/map_builder/mod.rs:79-81 | the point at the drawn index moves from the pool to the spawns, at the cost `random_slice_index` charges; it fails exactly on an empty pool |
| Builder.MapBuilder.SampleSpawns | src/map_builder/mod.rs:77-83 | the loop succeeds exactly when the pool holds at least 50 points; it then yields the sample without replacement, and the cursor moves by the draws that sample spends |
| Builder.MapBuilder.SpawnMonster | src/map_builder/mod.rs:64-84 | it succeeds exactly when at least 50 tiles are spawnable; the spawns are then the sample without replacement from the pool: 50 distinct in-bounds Floor points farther than 10 from the start, drawn with 50 draws, or 49 when the pool holds exactly 50 |
| CellularAutomata.NoiseMap | src/map_builder/automatas.rs:43-52 | the noise has one tile per tile of the map |
| CellularAutomata.NoiseMapCoversAll | src/map_builder/automatas.rs:44-51 | every layout of the grid is the noise of some stream of draws |
| CellularAutomata.RandomNoiseMap | src/map_builder/automatas.rs:43-52 | the loop writes the noise of the draws in index order, one draw per tile |
| CellularAutomata.NeighborCountCells | src/map_builder/automatas.rs:53-63 | the count is the number of Floor tiles among the eight surrounding cells (the centre is excluded), so at most 8 |
| CellularAutomata.CountNeighbors | src/map_builder/automatas.rs:53-63 | the nested loops compute that count |
| CellularAutomata.InteriorNeighborsInGrid | src/map_builder/automatas.rs:66-68 | every cell the smoothing loop visits has all eight neighbours on the grid, so counting cannot index out of bounds |
| CellularAutomata.Smoothed | src/map_builder/automatas.rs:64-78 | one pass keeps the tile count |
| CellularAutomata.SmoothedCell | src/map_builder/automatas.rs:66-76 | an interior cell becomes Wall when it has 0 or more than 4 Floor neighbours in the *old* grid, and Floor otherwise; border cells are unchanged |
| CellularAutomata.SmoothedAllWalls | src/map_builder/automatas.rs:70-74 | an all-wall grid is a fixed point of smoothing |
| CellularAutomata.Iteration | src/map_builder/automatas.rs:64-78 | the double-buffered loop gives exactly one smoothing pass of the old grid |
| CellularAutomata.SmoothCell | src/map_builder/automatas.rs:68-75 | the copy receives the new tile of one cell, computed from the current grid |
| CellularAutomata.SmoothTimesKeepsBorder | src/map_builder/automatas.rs:16-18 | however many passes run, the border cells keep their noise |
| CellularAutomata.SmoothAll | src/map_builder/automatas.rs:16-18 | the loop applies ten passes |
| CellularAutomata.FirstClosestUnique | src/map_builder/automatas.rs:93 | only one index is the first nearest Floor tile, so the start is deterministic |
| CellularAutomata.ClosestFloor | src/map_builder/automatas.rs:82-94 | the result is `None` exactly when there is no Floor tile; otherwise it is a Floor tile at least as near the centre as every other, and strictly nearer than every earlier one |
| CellularAutomata.FindStart | src/map_builder/automatas.rs:80-97 | the result is `None` (the panic) exactly on a grid without Floor; otherwise it is the in-bounds point of the first nearest Floor tile |
| CellularAutomata.FindStartAtCentre | src/map_builder/automatas.rs:81-96 | when the centre is Floor, the start is the centre |
| CellularAutomata.Pruned | src/map_builder/automatas.rs:28-33 | pruning keeps the tile count |
| CellularAutomata.PrunedFloor | src/map_builder/automatas.rs:27-33 | after pruning a tile is Floor exactly when it was Floor and its distance is at most 2000; pruning twice equals pruning once |
| CellularAutomata.Prune | src/map_builder/automatas.rs:28-33 | the loop walls off exactly the tiles whose distance exceeds 2000 |
| CellularAutomata.Cave | src/map_builder/automatas.rs:15-18 | the cave is a full grid |
| CellularAutomata.PrunedCave | src/map_builder/automatas.rs:20-33 | the pruned cave is a full grid |
| CellularAutomata.Populate | src/map_builder/automatas.rs:19-38 | the map is pruned by the field from the start and the spawns are sampled from the pruned map. It panics exactly when fewer than 50 tiles are spawnable. Otherwise the player stands on Floor at the start, the amulet is the farthest reachable tile and stands on Floor, and the 50 spawns are distinct far Floor tiles |
| CellularAutomata.New | src/map_builder/automatas.rs:7-39 | the whole strategy. It panics when the smoothed noise has no Floor tile, or when fewer than 50 tiles of the pruned cave are spawnable. Otherwise the level is the pruned cave, the start is found by the nearest-Floor search, the spawns are the sample from the draws after the noise, and the amulet is the farthest reachable tile, on Floor. The whole outcome is stated once, as `CellularAutomata.Generates`, which `Strategy.New` reuses |
| RoomArchitect.Centres | src/map_builder/rooms.rs:20-22 | one centre per room |
| RoomArchitect.PlacedRooms | src/map_builder/rooms.rs:16 | the placed rooms are pairwise disjoint, at most 20, and all of the drawn shape; fewer than 20 only when every candidate was tried |
| RoomArchitect.Level | src/map_builder/rooms.rs:15-17 | the level is a full grid |
| RoomArchitect.LevelAt | src/map_builder/rooms.rs:15-17 | a tile of the level is Floor exactly when a room covers it or a corridor passes over it |
| RoomArchitect.CentresFloor | src/map_builder/rooms.rs:18-22 | every room centre is an in-bounds Floor tile of the level |
| RoomArchitect.RestCentresFloor | src/map_builder/rooms.rs:20-22 | the centres of the rooms after the first are Floor tiles of the level |
| RoomArchitect.SpawnInRooms | src/map_builder/rooms.rs:20-22 | the loop appends the centre of every room but the first, in order |
| RoomArchitect.Furnish | src/map_builder/rooms.rs:17-22 | on the carved rooms: the corridors complete the level; the player is at the first room's centre, on Floor; the amulet is the farthest reachable tile, on Floor; one spawn stands on the Floor centre of each other room |
| RoomArchitect.New | src/map_builder/rooms.rs:7-24 | the whole strategy. It completes exactly when placement reaches 20 rooms. The level is the placed rooms with the corridors whose coins follow the placement draws. The rooms are pairwise disjoint, the player and 19 spawns stand on Floor room centres, and the amulet is the farthest reachable tile, on Floor. The whole outcome is stated once, as `RoomArchitect.Generates`, which `Strategy.New` reuses |
| EmptyArchitect.Spawns | src/map_builder/empty.rs:18-23 | one spawn per iteration |
| EmptyArchitect.SpawnsInRange | src/map_builder/empty.rs:19-22 | every spawn has x in `[1, 80)` and y in `[1, 50)`, so it is on the grid |
| EmptyArchitect.SpawnsCoverAll | src/map_builder/empty.rs:19-22 | every list of points in that range comes from some stream of draws |
| EmptyArchitect.PushSpawn | src/map_builder/empty.rs:19-22 | one iteration appends the point of two draws, x first |
| EmptyArchitect.New | src/map_builder/empty.rs:7-25 | the whole strategy. The grid is all Floor, the player is at the centre, and the amulet is the farthest reachable tile, which always exists and is Floor. The 50 spawns come from 100 draws and lie in range. The whole outcome is stated once, as `EmptyArchitect.Generates`, which `Strategy.New` reuses |
| Strategy.SeedOf | src/map_builder/mod.rs:29-35 | every strategy is chosen by a draw in `[0, 4)` |
| Strategy.SelectionUniform | src/map_builder/mod.rs:29-35 | the selection is a bijection between the four draws and the four strategies, so none is favoured |
| Strategy.New | src/map_builder/mod.rs:28-38 | the strategy is the one the first draw selects, and the builder returned is that strategy's level, built from the draws after the selecting one (its `Generates`). The drunkard's walk leaves an untouched builder. A built level has its player, amulet and spawns in bounds, and its player and amulet on Floor |

## Left out

- The turn scheduler, rendering, input and components (`src/main.rs`,
  `src/system/`, `src/components.rs`) are outside the map generator.
- `src/map.rs` and bracket-lib are not part of this model. The model states
  what the generator assumes of them:
  - `map_idx` and `try_idx`;
  - `Rect` (closed-interval intersection, half-open cells);
  - `range`;
  - `random_slice_index` (`None` for an empty slice and `Some(0)` for a
    one-element slice, both without a draw; otherwise one draw in `[0, len)`).
- The drunkard's-walk strategy (`drunkark.rs`) and `predab.rs` are not part
  of this model. The dispatcher returns `NotModelled` for the drunkard's walk.
- The Dijkstra search is not modelled. It is a parameter that returns one
  distance per tile, puts its source at 0 and reaches no Wall tile other
  than its source. Nothing about paths or the 1024.0 search limit is assumed.
- CellularAutomata.New: the comment at `automatas.rs:27` says pruning makes
  the map connected. That is not proved, because the model has no search.
  What is proved: every Floor tile left has distance at most 2000 in the
  field from the start.
- Real randomness and the seeding of the generator are not modelled. The
  generator is an arbitrary fixed stream of draws, and the proofs hold for
  every stream.
- Builder.MapBuilder.BuildRandomRooms: the program draws candidates until it
  has 20 rooms, with no bound. The model tries at most `fuel` candidates and
  reports a run that falls short as `OutOfFuel`. When a run completes, its
  result is the program's.
- Builder.SortByCenterX: the model sorts stably, as `sort_by` does. The
  lemmas state only that the result is ordered and a permutation; stability
  is not stated as a lemma.
- Distances are not modelled as `f32`. Every comparison of Euclidean
  distances between grid points is done on exact integer squared distances.
  This covers "farther than 10.0" and "nearest to the centre". It agrees
  with `f32` because the squared distances on an 80 x 50 grid are small
  integers.
- Dijkstra distances are exact reals, not `f32`.
- `i32` and `usize` widths are not modelled. No value in the generator
  comes near either bound.
- The `println!` of the seed in `MapBuilder::new` is console output and is
  left out.
