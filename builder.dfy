/**
 * `MapBuilder` and the generation services its strategies share
 * (src/map_builder/mod.rs): filling, tunnel carving, rejection-sampled room
 * placement, corridor chaining, monster-spawn sampling and the search for the
 * farthest reachable tile.
 */
module Builder {
  import opened Wrappers
  import opened Grid
  import opened Rects
  import opened Random

  /** `NUM_ROOMS` and `NUM_MONSTERS`. */
  const NumRooms: int := 20
  const NumMonsters: int := 50

  /** The distance the Dijkstra map gives an unreached tile, `f32::MAX`. */
  const Unreachable: real := 340282346638528859811704183484516925440.0

  /** Spawns lie farther than 10.0 from the start, that is, at a squared distance above 100. */
  const SpawnMinSqDist: int := 100

  /**
   * How a strategy run ends: with a level; at a panic (an `unwrap` on `None`);
   * before its rejection loop found enough rooms within the attempts granted
   * (the program itself would keep drawing); or in a strategy this model does
   * not contain.
   */
  datatype BuildStatus = Built | Panicked | OutOfFuel | NotModelled

  /**
   * The Dijkstra map of bracket-lib as a given function: from the tiles and the
   * index of the source tile to one distance per tile (`Unreachable` where
   * the search did not arrive).
   */
  type DistanceEngine = (seq<TileType>, int) -> seq<real>

  /**
   * The engine answers with one entry per tile, as a `DijkstraMap` of the
   * screen size does, and puts its source tile at distance zero, as the
   * search does with every start it is given. The search steps only onto
   * Floor tiles (the map's exits lead to Floor, Wall is impassable), so
   * every other tile it reaches is Floor.
   */
  ghost predicate DistanceField(engine: DistanceEngine) {
    (forall tiles: seq<TileType>, source: int ::
      |engine(tiles, source)| == NumTiles && (0 <= source < NumTiles ==> engine(tiles, source)[source] == 0.0))
    && (forall tiles: seq<TileType>, source: int, i: int
          | 0 <= i < |tiles| && i < NumTiles && i != source && engine(tiles, source)[i] < Unreachable ::
          tiles[i] == Floor)
  }

  function Min(a: int, b: int): int { if a <= b then a else b }

  function Max(a: int, b: int): int { if a <= b then b else a }

  /** `after` differs from `before` only where it holds Floor. */
  predicate OnlyAddsFloor(before: seq<TileType>, after: seq<TileType>) {
    |after| == |before| && forall i | 0 <= i < |before| :: after[i] == before[i] || after[i] == Floor
  }

  lemma OnlyAddsFloorTransitive(a: seq<TileType>, b: seq<TileType>, c: seq<TileType>)
    requires OnlyAddsFloor(a, b) && OnlyAddsFloor(b, c)
    ensures OnlyAddsFloor(a, c)
  {
  }

  predicate Distinct<T(==)>(s: seq<T>) {
    forall i, j | 0 <= i < j < |s| :: s[i] != s[j]
  }

  // ---------------------------------------------------------------------------
  // Tunnels

  /** The in-bounds cells of row `y` between columns `x1` and `x2`, both included. */
  predicate OnRowSegment(p: Point, x1: int, x2: int, y: int) {
    InBounds(p) && p.y == y && Min(x1, x2) <= p.x <= Max(x1, x2)
  }

  /** The in-bounds cells of column `x` between rows `y1` and `y2`, both included. */
  predicate OnColumnSegment(p: Point, y1: int, y2: int, x: int) {
    InBounds(p) && p.x == x && Min(y1, y2) <= p.y <= Max(y1, y2)
  }

  /** The grid after `apply_horizontal_tunnel(x1, x2, y)`. */
  function HorizontalTunnel(tiles: seq<TileType>, x1: int, x2: int, y: int): seq<TileType> {
    seq(|tiles|, i requires 0 <= i < |tiles| =>
      if OnRowSegment(IndexToPoint(i), x1, x2, y) then Floor else tiles[i])
  }

  /** The grid after `apply_vertical_tunnel(y1, y2, x)`. */
  function VerticalTunnel(tiles: seq<TileType>, y1: int, y2: int, x: int): seq<TileType> {
    seq(|tiles|, i requires 0 <= i < |tiles| =>
      if OnColumnSegment(IndexToPoint(i), y1, y2, x) then Floor else tiles[i])
  }

  /** Read at a point: the row segment becomes Floor and every other tile keeps its value. */
  lemma HorizontalTunnelAt(tiles: seq<TileType>, x1: int, x2: int, y: int, p: Point)
    requires |tiles| == NumTiles && InBounds(p)
    ensures |HorizontalTunnel(tiles, x1, x2, y)| == NumTiles
    ensures TileAt(HorizontalTunnel(tiles, x1, x2, y), p)
         == if p.y == y && Min(x1, x2) <= p.x <= Max(x1, x2) then Floor else TileAt(tiles, p)
  {
    PointRoundTrip(p);
  }

  lemma VerticalTunnelAt(tiles: seq<TileType>, y1: int, y2: int, x: int, p: Point)
    requires |tiles| == NumTiles && InBounds(p)
    ensures |VerticalTunnel(tiles, y1, y2, x)| == NumTiles
    ensures TileAt(VerticalTunnel(tiles, y1, y2, x), p)
         == if p.x == x && Min(y1, y2) <= p.y <= Max(y1, y2) then Floor else TileAt(tiles, p)
  {
    PointRoundTrip(p);
  }

  /** The order of the two end columns does not matter. */
  lemma HorizontalTunnelSymmetric(tiles: seq<TileType>, x1: int, x2: int, y: int)
    ensures HorizontalTunnel(tiles, x1, x2, y) == HorizontalTunnel(tiles, x2, x1, y)
  {
  }

  lemma VerticalTunnelSymmetric(tiles: seq<TileType>, y1: int, y2: int, x: int)
    ensures VerticalTunnel(tiles, y1, y2, x) == VerticalTunnel(tiles, y2, y1, x)
  {
  }

  // ---------------------------------------------------------------------------
  // Corridors

  /** The cells of the L-shaped corridor from `prev` to `next`: coin 1 goes along the row first. */
  predicate OnLPath(p: Point, prev: Point, next: Point, coin: int) {
    if coin == 1 then
      OnRowSegment(p, prev.x, next.x, prev.y) || OnColumnSegment(p, prev.y, next.y, next.x)
    else
      OnColumnSegment(p, prev.y, next.y, prev.x) || OnRowSegment(p, prev.x, next.x, next.y)
  }

  /** One connection of `build_corridors`: two tunnels, their order chosen by the coin. */
  function ConnectPair(tiles: seq<TileType>, prev: Point, next: Point, coin: int): (r: seq<TileType>)
    ensures OnlyAddsFloor(tiles, r)
  {
    if coin == 1 then
      VerticalTunnel(HorizontalTunnel(tiles, prev.x, next.x, prev.y), prev.y, next.y, next.x)
    else
      HorizontalTunnel(VerticalTunnel(tiles, prev.y, next.y, prev.x), prev.x, next.x, next.y)
  }

  /** A connection turns exactly the cells of its L path into Floor. */
  lemma ConnectPairAt(tiles: seq<TileType>, prev: Point, next: Point, coin: int, p: Point)
    requires |tiles| == NumTiles && InBounds(p)
    ensures |ConnectPair(tiles, prev, next, coin)| == NumTiles
    ensures TileAt(ConnectPair(tiles, prev, next, coin), p)
         == if OnLPath(p, prev, next, coin) then Floor else TileAt(tiles, p)
  {
    if coin == 1 {
      HorizontalTunnelAt(tiles, prev.x, next.x, prev.y, p);
      VerticalTunnelAt(HorizontalTunnel(tiles, prev.x, next.x, prev.y), prev.y, next.y, next.x, p);
    } else {
      VerticalTunnelAt(tiles, prev.y, next.y, prev.x, p);
      HorizontalTunnelAt(VerticalTunnel(tiles, prev.y, next.y, prev.x), prev.x, next.x, next.y, p);
    }
  }

  /** Both ends of a connection between in-bounds centres, and its corner, lie on its path. */
  lemma LPathJoinsEnds(prev: Point, next: Point, coin: int)
    requires InBounds(prev) && InBounds(next)
    ensures OnLPath(prev, prev, next, coin) && OnLPath(next, prev, next, coin)
    ensures OnLPath(if coin == 1 then Point(next.x, prev.y) else Point(prev.x, next.y), prev, next, coin)
  {
  }

  /** The coin of the connection into room `k` of the sorted list. */
  function Coin(s: nat -> int, pos: nat, k: nat): int
    requires k >= 1
  {
    ToRange(s(pos + k - 1), 0, 2)
  }

  /**
   * The grid after the first `m` rooms of `rooms` have been chained: room `k`
   * is joined to room `k - 1` for every `1 <= k < m`, with its own coin.
   */
  function Corridors(tiles: seq<TileType>, rooms: seq<Rect>, s: nat -> int, pos: nat, m: nat): seq<TileType>
    requires m <= |rooms|
    decreases m
  {
    if m <= 1 then tiles
    else ConnectPair(Corridors(tiles, rooms, s, pos, m - 1),
                     rooms[m - 2].Center(), rooms[m - 1].Center(), Coin(s, pos, m - 1))
  }

  /** Chaining one more room adds its connection on top of the corridors so far. */
  lemma CorridorsStep(tiles: seq<TileType>, rooms: seq<Rect>, s: nat -> int, pos: nat, m: nat)
    requires 1 <= m < |rooms|
    ensures Corridors(tiles, rooms, s, pos, m + 1)
      == ConnectPair(Corridors(tiles, rooms, s, pos, m), rooms[m - 1].Center(), rooms[m].Center(), ToRange(s(pos + m - 1), 0, 2))
  {
  }

  /** Chaining corridors only ever writes Floor. */
  lemma {:induction false} CorridorsOnlyAddFloor(tiles: seq<TileType>, rooms: seq<Rect>, s: nat -> int, pos: nat, m: nat)
    requires m <= |rooms|
    ensures OnlyAddsFloor(tiles, Corridors(tiles, rooms, s, pos, m))
  {
    if m > 1 {
      CorridorsOnlyAddFloor(tiles, rooms, s, pos, m - 1);
      OnlyAddsFloorTransitive(tiles, Corridors(tiles, rooms, s, pos, m - 1), Corridors(tiles, rooms, s, pos, m));
    }
  }

  predicate OnSomeCorridor(p: Point, rooms: seq<Rect>, s: nat -> int, pos: nat, m: nat)
    requires m <= |rooms|
  {
    exists k | 1 <= k < m :: OnLPath(p, rooms[k - 1].Center(), rooms[k].Center(), Coin(s, pos, k))
  }

  /** Exactly the cells on the `m - 1` L paths become Floor; every other tile keeps its value. */
  lemma {:induction false} CorridorsAt(tiles: seq<TileType>, rooms: seq<Rect>, s: nat -> int, pos: nat, m: nat, p: Point)
    requires m <= |rooms| && |tiles| == NumTiles && InBounds(p)
    ensures |Corridors(tiles, rooms, s, pos, m)| == NumTiles
    ensures TileAt(Corridors(tiles, rooms, s, pos, m), p)
         == if OnSomeCorridor(p, rooms, s, pos, m) then Floor else TileAt(tiles, p)
  {
    if m > 1 {
      CorridorsAt(tiles, rooms, s, pos, m - 1, p);
      var k := m - 1;
      ConnectPairAt(Corridors(tiles, rooms, s, pos, m - 1), rooms[k - 1].Center(), rooms[k].Center(), Coin(s, pos, k), p);
      if OnLPath(p, rooms[k - 1].Center(), rooms[k].Center(), Coin(s, pos, k)) {
        assert OnSomeCorridor(p, rooms, s, pos, m);
      } else if OnSomeCorridor(p, rooms, s, pos, m) {
        var j :| 1 <= j < m && OnLPath(p, rooms[j - 1].Center(), rooms[j].Center(), Coin(s, pos, j));
        assert OnSomeCorridor(p, rooms, s, pos, m - 1);
      } else {
        assert !OnSomeCorridor(p, rooms, s, pos, m - 1);
      }
    }
  }

  // ---------------------------------------------------------------------------
  // Sorting the rooms for the corridors

  function CenterX(r: Rect): int { r.Center().x }

  predicate SortedByCenterX(rooms: seq<Rect>) {
    forall i, j | 0 <= i < j < |rooms| :: CenterX(rooms[i]) <= CenterX(rooms[j])
  }

  /** Inserts `r` after every element whose centre is not to its right, as a stable sort does. */
  function InsertByCenterX(sorted: seq<Rect>, r: Rect): (out: seq<Rect>)
    ensures multiset(out) == multiset(sorted) + multiset{r} && |out| == |sorted| + 1
    decreases |sorted|
  {
    if |sorted| == 0 || CenterX(sorted[|sorted| - 1]) <= CenterX(r) then
      sorted + [r]
    else
      var init, last := sorted[..|sorted| - 1], sorted[|sorted| - 1];
      assert sorted == init + [last];
      InsertByCenterX(init, r) + [last]
  }

  /** No centre in `xs` lies to the right of `v`. */
  predicate CentersAtMost(xs: seq<Rect>, v: int) {
    forall k | 0 <= k < |xs| :: CenterX(xs[k]) <= v
  }

  /** A bound on every centre carries over to a rearrangement. */
  lemma CentersAtMostPermuted(xs: seq<Rect>, ys: seq<Rect>, v: int)
    requires multiset(xs) == multiset(ys) && CentersAtMost(ys, v)
    ensures CentersAtMost(xs, v)
  {
    forall k | 0 <= k < |xs|
      ensures CenterX(xs[k]) <= v
    {
      assert xs[k] in multiset(ys);
      var m :| 0 <= m < |ys| && ys[m] == xs[k];
    }
  }

  lemma SortedSnoc(xs: seq<Rect>, last: Rect)
    requires SortedByCenterX(xs) && CentersAtMost(xs, CenterX(last))
    ensures SortedByCenterX(xs + [last])
  {
    var out := xs + [last];
    forall i, j | 0 <= i < j < |out|
      ensures CenterX(out[i]) <= CenterX(out[j])
    {
      assert out[i] == xs[i];
      if j < |xs| {
        assert out[j] == xs[j];
      }
    }
  }

  lemma {:induction false} InsertKeepsSorted(sorted: seq<Rect>, r: Rect)
    requires SortedByCenterX(sorted)
    ensures SortedByCenterX(InsertByCenterX(sorted, r))
    decreases |sorted|
  {
    if |sorted| == 0 || CenterX(sorted[|sorted| - 1]) <= CenterX(r) {
      assert CentersAtMost(sorted, CenterX(r)) by {
        forall k | 0 <= k < |sorted| ensures CenterX(sorted[k]) <= CenterX(r) {
          assert CenterX(sorted[k]) <= CenterX(sorted[|sorted| - 1]);
        }
      }
      SortedSnoc(sorted, r);
    } else {
      var init, last := sorted[..|sorted| - 1], sorted[|sorted| - 1];
      assert SortedByCenterX(init) && CentersAtMost(init + [r], CenterX(last)) by {
        forall i, j | 0 <= i < j < |init| ensures CenterX(init[i]) <= CenterX(init[j]) {
          assert init[i] == sorted[i] && init[j] == sorted[j];
        }
        forall k | 0 <= k < |init| + 1 ensures CenterX((init + [r])[k]) <= CenterX(last) {
          if k < |init| {
            assert (init + [r])[k] == sorted[k];
          }
        }
      }
      InsertKeepsSorted(init, r);
      var rest := InsertByCenterX(init, r);
      CentersAtMostPermuted(rest, init + [r], CenterX(last));
      SortedSnoc(rest, last);
    }
  }


  /** `rooms.sort_by(|a, b| a.center().x.cmp(&b.center().x))` on a clone of the rooms: a stable insertion sort. */
  function SortByCenterX(rooms: seq<Rect>): (out: seq<Rect>)
    ensures multiset(out) == multiset(rooms) && |out| == |rooms|
    decreases |rooms|
  {
    if |rooms| == 0 then []
    else
      assert rooms == rooms[..|rooms| - 1] + [rooms[|rooms| - 1]];
      InsertByCenterX(SortByCenterX(rooms[..|rooms| - 1]), rooms[|rooms| - 1])
  }

  /** The corridor order is ascending in the x coordinate of the centres. */
  lemma {:induction false} SortByCenterXSorted(rooms: seq<Rect>)
    ensures SortedByCenterX(SortByCenterX(rooms))
    decreases |rooms|
  {
    if |rooms| > 0 {
      SortByCenterXSorted(rooms[..|rooms| - 1]);
      InsertKeepsSorted(SortByCenterX(rooms[..|rooms| - 1]), rooms[|rooms| - 1]);
    }
  }

  // ---------------------------------------------------------------------------
  // Rooms

  /** The cells `build_random_rooms` floors for `room`: covered by it, off the top row and left column. */
  predicate Carvable(room: Rect, p: Point) {
    room.Covers(p) && 0 < p.x < ScreenWidth && 0 < p.y < ScreenHeight
  }

  /** The grid after one accepted room is carved. */
  function CarveRoom(tiles: seq<TileType>, room: Rect): seq<TileType> {
    seq(|tiles|, i requires 0 <= i < |tiles| =>
      if Carvable(room, IndexToPoint(i)) then Floor else tiles[i])
  }

  /** The grid after the rooms are carved, in order. */
  function CarveRooms(tiles: seq<TileType>, rooms: seq<Rect>): seq<TileType>
    decreases |rooms|
  {
    if |rooms| == 0 then tiles
    else CarveRoom(CarveRooms(tiles, rooms[..|rooms| - 1]), rooms[|rooms| - 1])
  }

  lemma CarveRoomsSnoc(tiles: seq<TileType>, rooms: seq<Rect>, r: Rect)
    ensures CarveRooms(tiles, rooms + [r]) == CarveRoom(CarveRooms(tiles, rooms), r)
  {
    assert (rooms + [r])[..|rooms|] == rooms;
  }

  predicate InSomeRoom(rooms: seq<Rect>, p: Point) {
    exists k | 0 <= k < |rooms| :: Carvable(rooms[k], p)
  }

  /** Carving floors exactly the carvable cells of the rooms and leaves every other tile. */
  lemma {:induction false} CarveRoomsAt(tiles: seq<TileType>, rooms: seq<Rect>, i: nat)
    requires i < |tiles|
    ensures |CarveRooms(tiles, rooms)| == |tiles|
    ensures CarveRooms(tiles, rooms)[i] == if InSomeRoom(rooms, IndexToPoint(i)) then Floor else tiles[i]
  {
    if |rooms| > 0 {
      var init := rooms[..|rooms| - 1];
      CarveRoomsAt(tiles, init, i);
      var p := IndexToPoint(i);
      if Carvable(rooms[|rooms| - 1], p) {
        assert InSomeRoom(rooms, p);
      } else if InSomeRoom(rooms, p) {
        var k :| 0 <= k < |rooms| && Carvable(rooms[k], p);
        assert init[k] == rooms[k];
        assert InSomeRoom(init, p);
      } else {
        assert forall k | 0 <= k < |init| :: init[k] == rooms[k];
      }
    }
  }

  /** The shape `build_random_rooms` draws: corner in [1, 70) x [1, 40), sides in [2, 10). */
  predicate RoomShape(r: Rect) {
    1 <= r.x1 < ScreenWidth - 10 && 1 <= r.y1 < ScreenHeight - 10
    && 2 <= r.x2 - r.x1 < 10 && 2 <= r.y2 - r.y1 < 10
  }

  /** A drawn room lies inside the grid and its centre is one of its own carved cells. */
  lemma RoomCentreCarvable(r: Rect)
    requires RoomShape(r)
    ensures InBounds(r.Center()) && Carvable(r, r.Center())
  {
    CenterCovered(r);
  }

  /** The room drawn from the four draws at `pos`: x, y, width, height. */
  function Candidate(s: nat -> int, pos: nat): Rect
  {
    WithSize(ToRange(s(pos), 1, 70), ToRange(s(pos + 1), 1, 40),
             ToRange(s(pos + 2), 2, 10), ToRange(s(pos + 3), 2, 10))
  }
  /** Each draw lands in its range, so a candidate has the drawn shape. */
  lemma CandidateShape(s: nat -> int, pos: nat)
    ensures RoomShape(Candidate(s, pos))
  {
  }


  predicate OverlapsAny(rooms: seq<Rect>, c: Rect) {
    exists k | 0 <= k < |rooms| :: rooms[k].Intersect(c)
  }

  /** The accepted rooms after candidate `c` is tried: it is kept only when it intersects none. */
  function Accept(rooms: seq<Rect>, c: Rect): seq<Rect> {
    if OverlapsAny(rooms, c) then rooms else rooms + [c]
  }

  /** No two distinct rooms of the list intersect. */
  predicate Disjoint(rooms: seq<Rect>) {
    forall i, j | 0 <= i < |rooms| && 0 <= j < |rooms| && i != j :: !rooms[i].Intersect(rooms[j])
  }

  /** The rooms drawn by `n` successive attempts from `pos`, four draws each. */
  function Candidates(s: nat -> int, pos: nat, n: nat): seq<Rect> {
    seq(n, k requires 0 <= k < n => Candidate(s, pos + 4 * k))
  }

  lemma CandidatesAt(s: nat -> int, pos: nat, n: nat, k: nat)
    requires k < n
    ensures |Candidates(s, pos, n)| == n && Candidates(s, pos, n)[k] == Candidate(s, pos + 4 * k)
  {
  }

  /** Where the placement stopped: the accepted rooms and how many candidates were tried. */
  datatype Placement = Placement(rooms: seq<Rect>, next: nat)

  /**
   * The rejection loop of `build_random_rooms` over the candidates from index
   * `k` on: a candidate that intersects an accepted room is dropped, any other
   * is appended, until `NumRooms` rooms are accepted or the candidates run out.
   */
  function PlaceRooms(rooms: seq<Rect>, cands: seq<Rect>, k: nat): Placement
    decreases |cands| - k
  {
    if |rooms| >= NumRooms || k >= |cands| then Placement(rooms, k)
    else PlaceRooms(Accept(rooms, cands[k]), cands, k + 1)
  }

  /** One attempt of the placement: the candidate is kept exactly when it intersects no room. */
  lemma PlaceRoomsStep(rooms: seq<Rect>, cands: seq<Rect>, k: nat)
    requires |rooms| < NumRooms && k < |cands|
    ensures PlaceRooms(rooms, cands, k) == PlaceRooms(Accept(rooms, cands[k]), cands, k + 1)
  {
  }

  /** Placement stops once `NumRooms` rooms are accepted or the candidates are spent. */
  lemma PlaceRoomsDone(rooms: seq<Rect>, cands: seq<Rect>, k: nat)
    requires |rooms| >= NumRooms || k >= |cands|
    ensures PlaceRooms(rooms, cands, k) == Placement(rooms, k)
  {
  }

  /**
   * Placement keeps the rooms it started from, never goes past `NumRooms`
   * rooms, and stops short of `NumRooms` only when every candidate is tried.
   */
  lemma {:induction false} PlaceRoomsExtends(rooms: seq<Rect>, cands: seq<Rect>, k: nat)
    requires k <= |cands|
    ensures var p := PlaceRooms(rooms, cands, k);
      |rooms| <= |p.rooms| && p.rooms[..|rooms|] == rooms
      && (|rooms| <= NumRooms ==> |p.rooms| <= NumRooms)
      && k <= p.next <= |cands|
      && (|p.rooms| < NumRooms ==> p.next == |cands|)
    decreases |cands| - k
  {
    if |rooms| < NumRooms && k < |cands| {
      var next := Accept(rooms, cands[k]);
      PlaceRoomsExtends(next, cands, k + 1);
      var p := PlaceRooms(next, cands, k + 1);
      assert p.rooms[..|rooms|] == p.rooms[..|next|][..|rooms|];
      assert next[..|rooms|] == rooms;
    }
  }

  /**
   * Every room placement appends is one of the candidates tried and
   * intersects none of the rooms before it.
   */
  lemma {:induction false} PlaceRoomsFresh(rooms: seq<Rect>, cands: seq<Rect>, k: nat)
    requires k <= |cands|
    ensures var p := PlaceRooms(rooms, cands, k);
      forall i | |rooms| <= i < |p.rooms| ::
        p.rooms[i] in cands[k..] && forall j | 0 <= j < i :: !p.rooms[j].Intersect(p.rooms[i])
    decreases |cands| - k
  {
    if |rooms| < NumRooms && k < |cands| {
      var c := cands[k];
      var next := Accept(rooms, c);
      PlaceRoomsFresh(next, cands, k + 1);
      PlaceRoomsExtends(next, cands, k + 1);
      var p := PlaceRooms(next, cands, k + 1);
      assert cands[k + 1..] == cands[k..][1..];
      if !OverlapsAny(rooms, c) {
        assert p.rooms[..|next|] == next;
        assert p.rooms[|rooms|] == c;
        assert forall j | 0 <= j < |rooms| :: p.rooms[j] == rooms[j] by {
          assert forall j | 0 <= j < |rooms| :: p.rooms[j] == p.rooms[..|next|][j];
        }
      }
    }
  }

  /** Every drawn candidate has the shape `build_random_rooms` draws. */
  lemma CandidatesShaped(s: nat -> int, pos: nat, n: nat)
    ensures forall c | c in Candidates(s, pos, n) :: RoomShape(c)
  {
    forall c | c in Candidates(s, pos, n)
      ensures RoomShape(c)
    {
      var k :| 0 <= k < n && Candidates(s, pos, n)[k] == c;
      CandidatesAt(s, pos, n, k);
      CandidateShape(s, pos + 4 * k);
    }
  }

  /** Every room after the first `n` avoids every room before it; with `Disjoint(rooms[..n])` the whole list is disjoint. */
  lemma DisjointFromPrefix(rooms: seq<Rect>, n: nat)
    requires n <= |rooms| && Disjoint(rooms[..n])
    requires forall k | n <= k < |rooms| :: forall j | 0 <= j < k :: !rooms[j].Intersect(rooms[k])
    ensures Disjoint(rooms)
  {
    forall i, j | 0 <= i < |rooms| && 0 <= j < |rooms| && i != j
      ensures !rooms[i].Intersect(rooms[j])
    {
      IntersectSymmetric(rooms[i], rooms[j]);
      if i < n && j < n {
        assert rooms[..n][i] == rooms[i] && rooms[..n][j] == rooms[j];
      }
    }
  }

  /** Starting from disjoint rooms (the empty list, say), placement ends with disjoint rooms. */
  lemma PlaceRoomsDisjoint(rooms: seq<Rect>, cands: seq<Rect>)
    requires Disjoint(rooms)
    ensures Disjoint(PlaceRooms(rooms, cands, 0).rooms)
  {
    PlaceRoomsExtends(rooms, cands, 0);
    PlaceRoomsFresh(rooms, cands, 0);
    DisjointFromPrefix(PlaceRooms(rooms, cands, 0).rooms, |rooms|);
  }

  // ---------------------------------------------------------------------------
  // Monster spawns

  predicate SpawnableAt(tiles: seq<TileType>, start: Point, i: nat)
    requires i < |tiles|
  {
    tiles[i] == Floor && SqDist(start, IndexToPoint(i)) > SpawnMinSqDist
  }

  /**
   * The candidate pool of `spawn_monster` over the first `n` tiles: the points
   * of the Floor tiles farther than 10 from `start`, in index order.
   */
  function Spawnable(tiles: seq<TileType>, start: Point, n: nat): (r: seq<Point>)
    requires |tiles| == NumTiles && n <= NumTiles
    ensures forall k | 0 <= k < |r| ::
      InBounds(r[k]) && 0 <= MapIdx(r[k].x, r[k].y) < n && SpawnableAt(tiles, start, MapIdx(r[k].x, r[k].y))
      && IndexToPoint(MapIdx(r[k].x, r[k].y)) == r[k]
    ensures forall k1, k2 | 0 <= k1 < k2 < |r| :: MapIdx(r[k1].x, r[k1].y) < MapIdx(r[k2].x, r[k2].y)
    ensures forall i: nat | i < n && SpawnableAt(tiles, start, i) :: IndexToPoint(i) in r
    ensures Distinct(r)
    decreases n
  {
    if n == 0 then []
    else
      var r := Spawnable(tiles, start, n - 1);
      IndexRoundTrip(n - 1);
      if SpawnableAt(tiles, start, n - 1) then r + [IndexToPoint(n - 1)] else r
  }

  /** `v` removed from position `j`, as `Vec::remove` does. */
  lemma RemoveAt<T>(s: seq<T>, j: nat)
    requires j < |s|
    ensures |s[..j] + s[j + 1..]| == |s| - 1
    ensures multiset(s) == multiset(s[..j] + s[j + 1..]) + multiset{s[j]}
    ensures Distinct(s) ==> Distinct(s[..j] + s[j + 1..]) && s[j] !in s[..j] + s[j + 1..]
  {
    var r := s[..j] + s[j + 1..];
    assert s == s[..j] + [s[j]] + s[j + 1..];
    if Distinct(s) {
      forall a, b | 0 <= a < b < |r| ensures r[a] != r[b] {
        var a', b' := if a < j then a else a + 1, if b < j then b else b + 1;
        assert r[a] == s[a'] && r[b] == s[b'];
      }
      forall a | 0 <= a < |r| ensures r[a] != s[j] {
        assert r[a] == s[if a < j then a else a + 1];
      }
    }
  }

  /**
   * The spawns `spawn_monster` draws from `pool`: `k` times, one uniformly
   * drawn candidate is taken and removed (a last remaining candidate is
   * taken without a draw); `None` where the pool runs dry first, which is the
   * program's panic at the `unwrap`.
   */
  function Pick(pool: seq<Point>, s: nat -> int, pos: nat, k: nat): Option<seq<Point>>
    decreases k
  {
    if k == 0 then Some([])
    else if |pool| == 0 then None
    else
      var j := ToRange(s(pos), 0, |pool|);
      match Pick(pool[..j] + pool[j + 1..], s, pos + SliceDraws(|pool|), k - 1)
      case None => None
      case Some(rest) => Some([pool[j]] + rest)
  }

  lemma NotInSmaller<T>(x: T, xs: seq<T>, ys: seq<T>)
    requires multiset(xs) <= multiset(ys) && x !in ys
    ensures x !in xs
  {
    assert multiset(ys)[x] == 0;
    assert multiset(xs)[x] == 0;
  }

  lemma ConsDistinct<T>(x: T, xs: seq<T>)
    requires Distinct(xs) && x !in xs
    ensures Distinct([x] + xs)
  {
    var r := [x] + xs;
    forall a, b | 0 <= a < b < |r|
      ensures r[a] != r[b]
    {
      assert r[b] == xs[b - 1];
      if a > 0 {
        assert r[a] == xs[a - 1];
      }
    }
  }

  /** Sampling succeeds exactly when the pool holds `k` candidates, and then takes `k` of them without replacement. */
  lemma {:induction false} PickProperties(pool: seq<Point>, s: nat -> int, pos: nat, k: nat)
    ensures Pick(pool, s, pos, k).Some? <==> |pool| >= k
    ensures Pick(pool, s, pos, k).Some? ==>
      var r := Pick(pool, s, pos, k).value;
      |r| == k && multiset(r) <= multiset(pool) && (Distinct(pool) ==> Distinct(r))
    decreases k
  {
    if k > 0 && |pool| > 0 {
      var j := ToRange(s(pos), 0, |pool|);
      var rest := pool[..j] + pool[j + 1..];
      RemoveAt(pool, j);
      PickProperties(rest, s, pos + SliceDraws(|pool|), k - 1);
      if Pick(rest, s, pos + SliceDraws(|pool|), k - 1).Some? {
        var tail := Pick(rest, s, pos + SliceDraws(|pool|), k - 1).value;
        assert multiset([pool[j]] + tail) == multiset{pool[j]} + multiset(tail);
        if Distinct(pool) {
          NotInSmaller(pool[j], tail, rest);
          ConsDistinct(pool[j], tail);
        }
      }
    }
  }

  function Prepend(xs: seq<Point>, o: Option<seq<Point>>): Option<seq<Point>> {
    match o
    case None => None
    case Some(r) => Some(xs + r)
  }

  lemma PrependNothing(o: Option<seq<Point>>)
    ensures Prepend([], o) == o
  {
    if o.Some? {
      assert [] + o.value == o.value;
    }
  }

  lemma PrependAll(xs: seq<Point>)
    ensures Prepend(xs, Some([])) == Some(xs)
  {
    assert xs + [] == xs;
  }

  /** One draw of the sampling loop: the candidate at the drawn index moves from the pool to the spawns. */
  lemma PickStep(spawns: seq<Point>, pool: seq<Point>, s: nat -> int, pos: nat, k: nat)
    requires k > 0 && |pool| > 0
    ensures var j := ToRange(s(pos), 0, |pool|);
      |pool[..j] + pool[j + 1..]| == |pool| - 1
      && Prepend(spawns, Pick(pool, s, pos, k))
         == Prepend(spawns + [pool[j]], Pick(pool[..j] + pool[j + 1..], s, pos + SliceDraws(|pool|), k - 1))
  {
    var j := ToRange(s(pos), 0, |pool|);
    var o := Pick(pool[..j] + pool[j + 1..], s, pos + SliceDraws(|pool|), k - 1);
    if o.Some? {
      assert spawns + ([pool[j]] + o.value) == (spawns + [pool[j]]) + o.value;
    }
  }

  /** A complete draw from the candidate pool yields distinct far Floor points. */
  lemma PickFromSpawnable(tiles: seq<TileType>, start: Point, s: nat -> int, pos: nat, spawns: seq<Point>)
    requires |tiles| == NumTiles
    requires Pick(Spawnable(tiles, start, NumTiles), s, pos, NumMonsters) == Some(spawns)
    ensures |Spawnable(tiles, start, NumTiles)| >= NumMonsters
    ensures |spawns| == NumMonsters && Distinct(spawns)
    ensures forall k | 0 <= k < |spawns| ::
      InBounds(spawns[k]) && TileAt(tiles, spawns[k]) == Floor && SqDist(start, spawns[k]) > SpawnMinSqDist
  {
    var pool := Spawnable(tiles, start, NumTiles);
    PickProperties(pool, s, pos, NumMonsters);
    forall k | 0 <= k < |spawns|
      ensures InBounds(spawns[k]) && TileAt(tiles, spawns[k]) == Floor && SqDist(start, spawns[k]) > SpawnMinSqDist
    {
      assert spawns[k] in multiset(spawns);
      assert spawns[k] in pool;
      var m :| 0 <= m < |pool| && pool[m] == spawns[k];
    }
  }

  /**
   * The draws a complete `spawn_monster` spends on a pool of `n` points: one
   * per monster, except that with exactly `NumMonsters` points the last pick
   * has a single candidate left and needs none.
   */
  function SpawnDraws(n: nat): nat {
    if n == NumMonsters then NumMonsters - 1 else NumMonsters
  }

  // ---------------------------------------------------------------------------
  // The farthest reachable tile

  /**
   * The last index among the first `n` whose distance is reachable and
   * greatest: `max_by` returns the last of equal maxima.
   */
  function FarthestIndex(dist: seq<real>, n: nat): (r: Option<nat>)
    requires n <= |dist|
    ensures r.None? <==> forall j | 0 <= j < n :: dist[j] >= Unreachable
    ensures r.Some? ==>
      r.value < n && dist[r.value] < Unreachable
      && (forall j | 0 <= j < n && dist[j] < Unreachable :: dist[j] <= dist[r.value])
      && (forall j | r.value < j < n && dist[j] < Unreachable :: dist[j] < dist[r.value])
    decreases n
  {
    if n == 0 then None
    else
      var r := FarthestIndex(dist, n - 1);
      if dist[n - 1] < Unreachable && (r.None? || dist[r.value] <= dist[n - 1]) then Some(n - 1) else r
  }

  /** Index `i` is reachable, no reachable distance exceeds it, and every later one is strictly smaller. */
  predicate LastFarthest(dist: seq<real>, i: nat) {
    i < |dist| && dist[i] < Unreachable
    && forall j | 0 <= j < |dist| && dist[j] < Unreachable :: dist[j] <= dist[i] && (i < j ==> dist[j] < dist[i])
  }

  /** At most one index is the last farthest one: the choice is deterministic. */
  lemma LastFarthestUnique(dist: seq<real>, i: nat, j: nat)
    requires LastFarthest(dist, i) && LastFarthest(dist, j)
    ensures i == j
  {
  }

  /** `find_most_distant` on the Dijkstra map `dist`: `None` is the panic when nothing is reachable. */
  function FindMostDistant(dist: seq<real>): (r: Option<Point>)
    ensures r.None? <==> forall j | 0 <= j < |dist| :: dist[j] >= Unreachable
    ensures r.Some? ==> exists i: nat | i < |dist| :: LastFarthest(dist, i) && r.value == IndexToPoint(i)
  {
    match FarthestIndex(dist, |dist|)
    case None => None
    case Some(i) => Some(IndexToPoint(i))
  }

  /** On a field of the grid's size the farthest point is in bounds and is the point of the last farthest index. */
  lemma FindMostDistantOnGrid(dist: seq<real>)
    requires |dist| == NumTiles && FindMostDistant(dist).Some?
    ensures var p := FindMostDistant(dist).value;
      InBounds(p) && LastFarthest(dist, MapIdx(p.x, p.y))
  {
    var i: nat :| i < |dist| && LastFarthest(dist, i) && FindMostDistant(dist).value == IndexToPoint(i);
    IndexRoundTrip(i);
  }

  /**
   * The farthest tile of the field from a Floor start stands on Floor: it is
   * either the start itself or a tile the search reached by Floor steps.
   */
  lemma FarthestOnFloor(engine: DistanceEngine, tiles: seq<TileType>, start: Point)
    requires DistanceField(engine) && |tiles| == NumTiles && InBounds(start) && TileAt(tiles, start) == Floor
    ensures var r := FindMostDistant(engine(tiles, MapIdx(start.x, start.y)));
      r.Some? && InBounds(r.value) && TileAt(tiles, r.value) == Floor
  {
    PointRoundTrip(start);
    var source := MapIdx(start.x, start.y);
    var dist := engine(tiles, source);
    assert dist[source] < Unreachable;
    FindMostDistantOnGrid(dist);
    var p := FindMostDistant(dist).value;
    var i := MapIdx(p.x, p.y);
    assert dist[i] < Unreachable;
    if i != source {
      assert tiles[i] == Floor;
    }
  }

  // ---------------------------------------------------------------------------
  // The builder

  class MapBuilder {
    const tileMap: Map
    var rooms: seq<Rect>
    var monsterSpawns: seq<Point>
    var playerStart: Point
    var amuletStart: Point

    ghost predicate Valid()
      reads tileMap
    {
      |tileMap.tiles| == NumTiles
    }

    /** The empty builder every strategy starts from: all walls, no rooms or spawns, both points at the origin. */
    constructor ()
      ensures Valid() && fresh(tileMap) && tileMap.tiles == Uniform(Wall)
      ensures rooms == [] && monsterSpawns == []
      ensures playerStart == Point(0, 0) && amuletStart == Point(0, 0)
    {
      tileMap := new Map();
      rooms := [];
      monsterSpawns := [];
      playerStart := Point(0, 0);
      amuletStart := Point(0, 0);
    }

    /** `fill`: every tile set to `tile`, the tile count unchanged. */
    method Fill(tile: TileType)
      modifies tileMap
      ensures |tileMap.tiles| == |old(tileMap.tiles)|
      ensures forall i | 0 <= i < |tileMap.tiles| :: tileMap.tiles[i] == tile
    {
      var i := 0;
      while i < |tileMap.tiles|
        invariant 0 <= i <= |tileMap.tiles| == |old(tileMap.tiles)|
        invariant forall k | 0 <= k < i :: tileMap.tiles[k] == tile
      {
        tileMap.tiles := tileMap.tiles[i := tile];
        i := i + 1;
      }
    }

    /** `apply_horizontal_tunnel`: out-of-bounds cells are skipped, never indexed. */
    method ApplyHorizontalTunnel(x1: int, x2: int, y: int)
      requires Valid()
      modifies tileMap
      ensures Valid()
      ensures tileMap.tiles == HorizontalTunnel(old(tileMap.tiles), x1, x2, y)
    {
      AllIndicesRoundTrip();
      var x := Min(x1, x2);
      while x <= Max(x1, x2)
        invariant Min(x1, x2) <= x <= Max(x1, x2) + 1
        invariant Valid()
        invariant forall i | 0 <= i < NumTiles ::
          tileMap.tiles[i]
          == if OnRowSegment(IndexToPoint(i), x1, x2, y) && IndexToPoint(i).x < x then Floor else old(tileMap.tiles)[i]
      {
        var idx := TryIdx(Point(x, y));
        if idx.Some? {
          tileMap.tiles := tileMap.tiles[idx.value := Floor];
        }
        x := x + 1;
      }
    }

    /** `apply_vertical_tunnel`: out-of-bounds cells are skipped, never indexed. */
    method ApplyVerticalTunnel(y1: int, y2: int, x: int)
      requires Valid()
      modifies tileMap
      ensures Valid()
      ensures tileMap.tiles == VerticalTunnel(old(tileMap.tiles), y1, y2, x)
    {
      AllIndicesRoundTrip();
      var y := Min(y1, y2);
      while y <= Max(y1, y2)
        invariant Min(y1, y2) <= y <= Max(y1, y2) + 1
        invariant Valid()
        invariant forall i | 0 <= i < NumTiles ::
          tileMap.tiles[i]
          == if OnColumnSegment(IndexToPoint(i), y1, y2, x) && IndexToPoint(i).y < y then Floor else old(tileMap.tiles)[i]
      {
        var idx := TryIdx(Point(x, y));
        if idx.Some? {
          tileMap.tiles := tileMap.tiles[idx.value := Floor];
        }
        y := y + 1;
      }
    }

    /**
     * `find_most_distant`: the last farthest reachable tile of the distance
     * field from the player's start; `None` is the panic when nothing is
     * reachable, which cannot happen from an in-bounds start.
     */
    method FindMostDistantPoint(engine: DistanceEngine) returns (r: Option<Point>)
      requires Valid() && DistanceField(engine)
      ensures var dist := engine(tileMap.tiles, MapIdx(playerStart.x, playerStart.y));
        r == FindMostDistant(dist)
        && (r.None? <==> forall j | 0 <= j < NumTiles :: dist[j] >= Unreachable)
        && (r.Some? ==> InBounds(r.value) && LastFarthest(dist, MapIdx(r.value.x, r.value.y)))
      ensures InBounds(playerStart) ==> r.Some?
      ensures InBounds(playerStart) && TileAt(tileMap.tiles, playerStart) == Floor ==> r.Some? && TileAt(tileMap.tiles, r.value) == Floor
    {
      var dist := engine(tileMap.tiles, MapIdx(playerStart.x, playerStart.y));
      r := FindMostDistant(dist);
      if r.Some? {
        FindMostDistantOnGrid(dist);
      }
      if InBounds(playerStart) {
        PointRoundTrip(playerStart);
        assert dist[MapIdx(playerStart.x, playerStart.y)] < Unreachable;
        if TileAt(tileMap.tiles, playerStart) == Floor {
          FarthestOnFloor(engine, tileMap.tiles, playerStart);
        }
      }
    }

    /** The `room.for_each` closure of `build_random_rooms`: floors the carvable cells row by row. */
    method CarveRoomCells(room: Rect)
      requires Valid()
      modifies tileMap
      ensures Valid()
      ensures tileMap.tiles == CarveRoom(old(tileMap.tiles), room)
    {
      AllIndicesRoundTrip();
      var y := room.y1;
      while y < room.y2
        invariant room.y1 <= y || room.y2 <= room.y1
        invariant Valid()
        invariant forall i | 0 <= i < NumTiles ::
          tileMap.tiles[i]
          == if Carvable(room, IndexToPoint(i)) && IndexToPoint(i).y < y then Floor else old(tileMap.tiles)[i]
      {
        var x := room.x1;
        while x < room.x2
          invariant room.x1 <= x || room.x2 <= room.x1
          invariant Valid()
          invariant forall i | 0 <= i < NumTiles ::
          tileMap.tiles[i]
            == if Carvable(room, IndexToPoint(i)) && (IndexToPoint(i).y < y || (IndexToPoint(i).y == y && IndexToPoint(i).x < x))
               then Floor else old(tileMap.tiles)[i]
        {
          var p := Point(x, y);
          if p.x > 0 && p.x < ScreenWidth && p.y > 0 && p.y < ScreenHeight {
            var idx := MapIdx(p.x, p.y);
            PointRoundTrip(p);
            tileMap.tiles := tileMap.tiles[idx := Floor];
          }
          x := x + 1;
        }
        y := y + 1;
      }
    }

    /** The `for r in self.rooms.iter()` loop: does `room` intersect an accepted room? */
    method OverlapsAccepted(room: Rect) returns (overlap: bool)
      ensures overlap <==> OverlapsAny(rooms, room)
    {
      overlap := false;
      var k := 0;
      while k < |rooms|
        invariant 0 <= k <= |rooms|
        invariant overlap <==> exists j | 0 <= j < k :: rooms[j].Intersect(room)
      {
        if rooms[k].Intersect(room) {
          overlap := true;
        }
        k := k + 1;
      }
    }

    /**
     * One attempt of `build_random_rooms`: draw a candidate and accept and
     * carve it when it intersects no accepted room. The accepted rooms past
     * `prefix` stay those carved onto `t0`.
     */
    method TryCandidate(rng: Rng, ghost c: Rect, ghost t0: seq<TileType>, ghost prefix: seq<Rect>, ghost added: seq<Rect>)
      returns (ghost added': seq<Rect>)
      requires Valid() && c == Candidate(rng.stream, rng.pos)
      requires rooms == prefix + added && tileMap.tiles == CarveRooms(t0, added)
      modifies this`rooms, tileMap, rng
      ensures Valid()
      ensures rng.pos == old(rng.pos) + 4
      ensures rooms == Accept(old(rooms), c)
      ensures rooms == prefix + added' && tileMap.tiles == CarveRooms(t0, added')
    {
      ghost var pos := rng.pos;
      var x := rng.Range(1, ScreenWidth - 10);
      var y := rng.Range(1, ScreenHeight - 10);
      var w := rng.Range(2, 10);
      var h := rng.Range(2, 10);
      var room := WithSize(x, y, w, h);
      assert room == Candidate(rng.stream, pos);
      var overlap := OverlapsAccepted(room);
      added' := added;
      if !overlap {
        CarveRoomCells(room);
        rooms := rooms + [room];
        added' := added + [room];
        CarveRoomsSnoc(t0, added, room);
      }
    }

    /**
     * One iteration of the placement loop, stated against `PlaceRooms`: the
     * placement from the next candidate on ends where the one from this
     * candidate did.
     */
    method PlaceStep(rng: Rng, ghost cands: seq<Rect>, ghost pos0: nat, k: nat, ghost t0: seq<TileType>,
                     ghost prefix: seq<Rect>, ghost added: seq<Rect>) returns (ghost added': seq<Rect>)
      requires Valid() && |rooms| < NumRooms && k < |cands|
      requires cands == Candidates(rng.stream, pos0, |cands|) && rng.pos == pos0 + 4 * k
      requires rooms == prefix + added && tileMap.tiles == CarveRooms(t0, added)
      modifies this`rooms, tileMap, rng
      ensures Valid() && rng.pos == pos0 + 4 * (k + 1)
      ensures PlaceRooms(rooms, cands, k + 1) == PlaceRooms(old(rooms), cands, k)
      ensures rooms == prefix + added' && tileMap.tiles == CarveRooms(t0, added')
    {
      CandidatesAt(rng.stream, pos0, |cands|, k);
      PlaceRoomsStep(rooms, cands, k);
      added' := TryCandidate(rng, cands[k], t0, prefix, added);
    }

    /**
     * `build_random_rooms` with at most `fuel` candidates: the rooms become
     * those `PlaceRooms` accepts from `Candidates`, each accepted room is
     * carved, four draws are spent per candidate tried, and `placed` says
     * whether `NumRooms` rooms were reached.
     */
    method BuildRandomRooms(rng: Rng, fuel: nat) returns (placed: bool)
      requires Valid()
      modifies this`rooms, tileMap, rng
      ensures Valid()
      ensures var p := PlaceRooms(old(rooms), Candidates(rng.stream, old(rng.pos), fuel), 0);
        rooms == p.rooms && rng.pos == old(rng.pos) + 4 * p.next
      ensures |old(rooms)| <= |rooms| && rooms[..|old(rooms)|] == old(rooms)
      ensures tileMap.tiles == CarveRooms(old(tileMap.tiles), rooms[|old(rooms)|..])
      ensures placed <==> |rooms| >= NumRooms
    {
      ghost var pos0, prefix, t0 := rng.pos, rooms, tileMap.tiles;
      ghost var cands := Candidates(rng.stream, pos0, fuel);
      ghost var final := PlaceRooms(rooms, cands, 0);
      ghost var added: seq<Rect> := [];
      assert rooms == prefix + added;
      var k := 0;
      while |rooms| < NumRooms && k < fuel
        invariant k <= fuel && Valid() && rng.pos == pos0 + 4 * k
        invariant PlaceRooms(rooms, cands, k) == final
        invariant rooms == prefix + added && tileMap.tiles == CarveRooms(t0, added)
        decreases fuel - k
      {
        added := PlaceStep(rng, cands, pos0, k, t0, prefix, added);
        k := k + 1;
      }
      PlaceRoomsDone(rooms, cands, k);
      assert rooms[|prefix|..] == added && rooms[..|prefix|] == prefix;
      placed := |rooms| >= NumRooms;
    }

    /** The two tunnels of one connection of `build_corridors`, in the order the coin picks. */
    method ConnectRooms(prev: Point, next: Point, coin: int)
      requires Valid()
      modifies tileMap
      ensures Valid()
      ensures tileMap.tiles == ConnectPair(old(tileMap.tiles), prev, next, coin)
    {
      if coin == 1 {
        ApplyHorizontalTunnel(prev.x, next.x, prev.y);
        ApplyVerticalTunnel(prev.y, next.y, next.x);
      } else {
        ApplyVerticalTunnel(prev.y, next.y, prev.x);
        ApplyHorizontalTunnel(prev.x, next.x, next.y);
      }
    }

    /** One pass of the `build_corridors` loop: room `i` is joined to room `i - 1` with the next coin. */
    method ChainNext(rng: Rng, sorted: seq<Rect>, i: nat, ghost t0: seq<TileType>, ghost pos0: nat)
      requires Valid() && 1 <= i < |sorted| && rng.pos == pos0 + i - 1
      requires tileMap.tiles == Corridors(t0, sorted, rng.stream, pos0, i)
      modifies tileMap, rng
      ensures Valid() && rng.pos == pos0 + i
      ensures tileMap.tiles == Corridors(t0, sorted, rng.stream, pos0, i + 1)
    {
      var prev := sorted[i - 1].Center();
      var next := sorted[i].Center();
      CorridorsStep(t0, sorted, rng.stream, pos0, i);
      var coin := rng.Range(0, 2);
      ConnectRooms(prev, next, coin);
    }

    /**
     * `build_corridors`: the rooms are left as they are; a sorted copy is
     * chained, one coin per consecutive pair.
     */
    method BuildCorridors(rng: Rng)
      requires Valid()
      modifies tileMap, rng
      ensures Valid() && rooms == old(rooms)
      ensures tileMap.tiles == Corridors(old(tileMap.tiles), SortByCenterX(rooms), rng.stream, old(rng.pos), |rooms|)
      ensures rng.pos == old(rng.pos) + Max(|rooms| - 1, 0)
    {
      var sorted := SortByCenterX(rooms);
      ghost var pos0, t0 := rng.pos, tileMap.tiles;
      if |sorted| == 0 {
        return;
      }
      var i := 1;
      while i < |sorted|
        invariant 1 <= i <= |sorted|
        invariant Valid() && rng.pos == pos0 + i - 1
        invariant tileMap.tiles == Corridors(t0, sorted, rng.stream, pos0, i)
      {
        ChainNext(rng, sorted, i, t0, pos0);
        i := i + 1;
      }
    }

    /**
     * One pass of the `spawn_monster` loop: the candidate at a drawn index
     * leaves the pool and joins the spawns; `ok` is false where the program
     * panics, on an empty pool.
     */
    method TakeSpawn(rng: Rng, pool: seq<Point>, spawns: seq<Point>, k: nat)
      returns (pool': seq<Point>, spawns': seq<Point>, ok: bool)
      requires k > 0
      modifies rng
      ensures ok <==> |pool| > 0
      ensures !ok ==> Prepend(spawns, Pick(pool, rng.stream, old(rng.pos), k)).None?
      ensures ok ==> rng.pos == old(rng.pos) + SliceDraws(|pool|) && |pool'| == |pool| - 1
      ensures ok ==> Prepend(spawns, Pick(pool, rng.stream, old(rng.pos), k))
                     == Prepend(spawns', Pick(pool', rng.stream, rng.pos, k - 1))
    {
      ghost var pos := rng.pos;
      var target := rng.RandomSliceIndex(|pool|);
      if target.None? {
        assert Pick(pool, rng.stream, pos, k) == None;
        return pool, spawns, false;
      }
      var j := target.value;
      assert j == ToRange(rng.stream(pos), 0, |pool|) && rng.pos == pos + SliceDraws(|pool|);
      PickStep(spawns, pool, rng.stream, pos, k);
      pool', spawns', ok := pool[..j] + pool[j + 1..], spawns + [pool[j]], true;
    }

    /**
     * The loop of `spawn_monster` over a candidate pool: `NumMonsters` picks
     * without replacement; `ok` is false exactly where the program panics,
     * when the pool holds fewer candidates.
     */
    method SampleSpawns(rng: Rng, pool0: seq<Point>) returns (spawns: seq<Point>, ok: bool)
      modifies rng
      ensures ok <==> |pool0| >= NumMonsters
      ensures ok ==> Pick(pool0, rng.stream, old(rng.pos), NumMonsters) == Some(spawns)
      ensures ok ==> rng.pos == old(rng.pos) + SpawnDraws(|pool0|)
    {
      ghost var pos0 := rng.pos;
      ghost var whole := Pick(pool0, rng.stream, pos0, NumMonsters);
      PickProperties(pool0, rng.stream, pos0, NumMonsters);
      var pool := pool0;
      spawns := [];
      PrependNothing(whole);
      var n := 0;
      while n < NumMonsters
        invariant 0 <= n <= NumMonsters && |pool| + n == |pool0|
        invariant rng.pos == pos0 + n - (if n > 0 && |pool| == 0 then 1 else 0)
        invariant whole == Prepend(spawns, Pick(pool, rng.stream, rng.pos, NumMonsters - n))
      {
        pool, spawns, ok := TakeSpawn(rng, pool, spawns, NumMonsters - n);
        if !ok {
          return;
        }
        n := n + 1;
      }
      ok := true;
      PrependAll(spawns);
    }

    /**
     * `spawn_monster`: `NumMonsters` distinct Floor points farther than 10 from
     * `start`, drawn without replacement; `ok` is false exactly where the
     * program panics, when fewer candidates exist.
     */
    method SpawnMonster(start: Point, rng: Rng) returns (spawns: seq<Point>, ok: bool)
      requires Valid()
      modifies rng
      ensures ok <==> |Spawnable(tileMap.tiles, start, NumTiles)| >= NumMonsters
      ensures ok ==> Pick(Spawnable(tileMap.tiles, start, NumTiles), rng.stream, old(rng.pos), NumMonsters) == Some(spawns)
      ensures ok ==> rng.pos == old(rng.pos) + SpawnDraws(|Spawnable(tileMap.tiles, start, NumTiles)|)
      ensures ok ==> |spawns| == NumMonsters && Distinct(spawns)
      ensures ok ==> forall k | 0 <= k < |spawns| ::
        InBounds(spawns[k]) && TileAt(tileMap.tiles, spawns[k]) == Floor && SqDist(start, spawns[k]) > SpawnMinSqDist
    {
      var pool := Spawnable(tileMap.tiles, start, NumTiles);
      ghost var pos0 := rng.pos;
      spawns, ok := SampleSpawns(rng, pool);
      if ok {
        PickFromSpawnable(tileMap.tiles, start, rng.stream, pos0, spawns);
      }
    }
  }
}
