/**
 * The tile grid of a level (src/map.rs is not part of this model; what it
 * provides is stated here): an 80 x 50 row-major vector of tiles, the index
 * of a point, its fallible variant and the inverse conversion.
 */
module Grid {
  import opened Wrappers

  /** `SCREEN_WIDTH` and `SCREEN_HEIGHT` of the game's prelude. */
  const ScreenWidth: int := 80
  const ScreenHeight: int := 50
  const NumTiles: int := ScreenWidth * ScreenHeight

  datatype TileType = Wall | Floor

  datatype Point = Point(x: int, y: int)

  /** The geometric centre of the screen, `(SCREEN_WIDTH / 2, SCREEN_HEIGHT / 2)`. */
  const Centre: Point := Point(ScreenWidth / 2, ScreenHeight / 2)

  predicate InBounds(p: Point) {
    0 <= p.x < ScreenWidth && 0 <= p.y < ScreenHeight
  }

  /** `map_idx(x, y)`: the row-major index, with no bounds check. */
  function MapIdx(x: int, y: int): int {
    y * ScreenWidth + x
  }

  /** `index_to_point2d`: column is the remainder, row the quotient. */
  function IndexToPoint(idx: nat): Point {
    Point(idx % ScreenWidth, idx / ScreenWidth)
  }

  /** `try_idx`: the index of an in-bounds point, `None` off the grid. */
  function TryIdx(p: Point): (r: Option<nat>)
    ensures r.Some? <==> InBounds(p)
    ensures r.Some? ==> r.value < NumTiles && IndexToPoint(r.value) == p
  {
    if InBounds(p) then
      PointRoundTrip(p);
      Some(MapIdx(p.x, p.y))
    else
      None
  }

  /** Squared Euclidean distance: compares exactly as `DistanceAlg::Pythagoras` does. */
  function SqDist(a: Point, b: Point): int {
    (a.x - b.x) * (a.x - b.x) + (a.y - b.y) * (a.y - b.y)
  }

  /** The tile under an in-bounds point. */
  function TileAt(tiles: seq<TileType>, p: Point): TileType
    requires |tiles| == NumTiles && InBounds(p)
  {
    tiles[MapIdx(p.x, p.y)]
  }

  /** Every in-bounds point has an index on the grid, and converts back. */
  lemma PointRoundTrip(p: Point)
    requires InBounds(p)
    ensures 0 <= MapIdx(p.x, p.y) < NumTiles
    ensures IndexToPoint(MapIdx(p.x, p.y)) == p
  {
    var i := MapIdx(p.x, p.y);
    var q, r := i / ScreenWidth, i % ScreenWidth;
    assert i == q * ScreenWidth + r && 0 <= r < ScreenWidth;
    assert (p.y - q) * ScreenWidth == r - p.x;
  }

  /** Every index of the grid is the index of its own in-bounds point. */
  lemma IndexRoundTrip(i: nat)
    requires i < NumTiles
    ensures InBounds(IndexToPoint(i))
    ensures MapIdx(IndexToPoint(i).x, IndexToPoint(i).y) == i
  {
  }

  lemma AllIndicesRoundTrip()
    ensures forall i: nat | i < NumTiles ::
      InBounds(IndexToPoint(i)) && MapIdx(IndexToPoint(i).x, IndexToPoint(i).y) == i
  {
    forall i: nat | i < NumTiles
      ensures InBounds(IndexToPoint(i)) && MapIdx(IndexToPoint(i).x, IndexToPoint(i).y) == i
    {
      IndexRoundTrip(i);
    }
  }

  /** Two grid indices with the same point are the same index. */
  lemma IndexToPointInjective(i: nat, j: nat)
    requires i < NumTiles && j < NumTiles && IndexToPoint(i) == IndexToPoint(j)
    ensures i == j
  {
    IndexRoundTrip(i);
    IndexRoundTrip(j);
  }

  /** A grid of `NumTiles` copies of one tile. */
  function Uniform(t: TileType): (r: seq<TileType>)
    ensures |r| == NumTiles && forall i | 0 <= i < NumTiles :: r[i] == t
  {
    seq(NumTiles, _ => t)
  }

  /** `Map`: its tile vector, updated in place by the builders. */
  class Map {
    var tiles: seq<TileType>

    /** `Map::new()`: every tile a wall. */
    constructor ()
      ensures tiles == Uniform(Wall)
    {
      tiles := Uniform(Wall);
    }
  }
}
