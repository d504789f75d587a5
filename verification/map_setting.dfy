/**
  The integer loops of read_map_setting.py: checking the map rows and
  converting their cond numbers, laying the map out as a rectangle of hexes
  (the k-th hex takes the cell at row k // (W + 1), column k % (W + 1)),
  and the script's own `hex_to_pixel`.

  A map is the grid of `cond` numbers of its cells, row by row; the JSON
  file it comes from is not modelled. W (`map_width`) is the length of
  row 0 minus one, so every row holds W + 1 cells.
*/
module MapSetting {
  import opened Wrappers
  import opened Hexes
  import opened Tiles
  import opened Layouts

  type BasicMap = seq<seq<int>>

  datatype MapError =
    | EmptyMap                         // the map has no rows
    | RowWidthMismatch(row: nat)       // a row whose width differs from row 0
    | UnknownCond(row: nat, col: nat)  // TileType(cond) raised ValueError

  datatype MapData = MapData(width: int, conds: seq<TileType>)

  /** Row r is as long as row 0 and each of its conds is a tile type. */
  predicate RowOk(m: BasicMap, r: int) {
    0 <= r < |m| && |m[r]| == |m[0]| && forall c :: 0 <= c < |m[r]| ==> IsCond(m[r][c])
  }

  /** The map the script goes on to draw: non-empty, every row good. */
  predicate MapOk(m: BasicMap) {
    |m| > 0 && forall r :: 0 <= r < |m| ==> RowOk(m, r)
  }

  /** The tile type of a cond known to be valid. */
  function TileOf(n: int): TileType
    requires IsCond(n)
  {
    TileTypeOf(n).value
  }

  /** Euclidean division recovers the row and column of a row-major index. */
  lemma RowMajor(i: int, j: int, n: int)
    requires n > 0 && 0 <= j < n
    ensures (i * n + j) / n == i && (i * n + j) % n == j
  {
    var k := i * n + j;
    var d := k / n - i;
    assert n * d == j - k % n;
    MulAwayFromZero(n, d);
  }

  lemma MulAwayFromZero(n: int, d: int)
    requires n >= 0
    ensures d >= 1 ==> n * d >= n
    ensures d <= -1 ==> n * d <= 0 - n
  {
  }

  /** Distinct indices of a row-major listing lie on distinct cells. */
  lemma RowMajorDistinct(i: int, j: int, n: int)
    requires n > 0 && i != j
    ensures i / n != j / n || i % n != j % n
  {
    assert i == n * (i / n) + i % n;
    assert j == n * (j / n) + j % n;
  }

  /** Index k of the row-major listing of m falls on a cell of m whose
      cond is a tile type. */
  predicate InMap(m: BasicMap, k: int) {
    && |m| > 0 && |m[0]| > 0
    && 0 <= k / |m[0]| < |m|
    && 0 <= k % |m[0]| < |m[k / |m[0]|]|
    && IsCond(m[k / |m[0]|][k % |m[0]|])
  }

  /** The tile type of the cell at index k of the row-major listing. */
  function CondAt(m: BasicMap, k: int): TileType
    requires InMap(m, k)
  {
    TileOf(m[k / |m[0]|][k % |m[0]|])
  }

  /** Lines 72-87: reject an empty map, a row whose width differs from row
      0, or a cond that is not a tile type, in the order the loops meet
      them; otherwise return map_width and the conds in row-major order. */
  method LoadMap(m: BasicMap) returns (res: Result<MapData, MapError>)
    ensures res == Err(EmptyMap) <==> |m| == 0
    ensures res.Ok? <==> MapOk(m)
    ensures res.Ok? ==> res.value.width == |m[0]| - 1 && |res.value.conds| == |m| * |m[0]|
    ensures res.Ok? ==> forall k :: 0 <= k < |res.value.conds| ==>
      InMap(m, k) && res.value.conds[k] == CondAt(m, k)
    ensures res.Err? && res.error.RowWidthMismatch? ==>
      var r := res.error.row;
      0 < r < |m| && |m[r]| != |m[0]| && forall r' :: 0 <= r' < r ==> RowOk(m, r')
    ensures res.Err? && res.error.UnknownCond? ==>
      var r, c := res.error.row, res.error.col;
      && r < |m| && |m[r]| == |m[0]| && c < |m[r]| && !IsCond(m[r][c])
      && (forall r' :: 0 <= r' < r ==> RowOk(m, r'))
      && (forall c' :: 0 <= c' < c ==> IsCond(m[r][c']))
  {
    if |m| == 0 {
      return Err(EmptyMap);
    }
    var n := |m[0]|;
    var width := n - 1;
    var conds: seq<TileType> := [];
    var r := 0;
    while r < |m|
      invariant 0 <= r <= |m|
      invariant forall r' :: 0 <= r' < r ==> RowOk(m, r')
      invariant |conds| == r * n
      invariant forall k :: 0 <= k < |conds| ==> InMap(m, k) && k / n < r && conds[k] == CondAt(m, k)
    {
      if |m[r]| - 1 != width {
        assert !RowOk(m, r);
        return Err(RowWidthMismatch(r));
      }
      var c := 0;
      while c < |m[r]|
        invariant 0 <= c <= |m[r]|
        invariant forall c' :: 0 <= c' < c ==> IsCond(m[r][c'])
        invariant |conds| == r * n + c
        invariant forall k :: 0 <= k < |conds| ==> InMap(m, k) && k / n <= r && conds[k] == CondAt(m, k)
      {
        var t := TileTypeOf(m[r][c]);
        if t.None? {
          assert !RowOk(m, r);
          return Err(UnknownCond(r, c));
        }
        RowMajor(r, c, n);
        conds := conds + [t.value];
        c := c + 1;
      }
      r := r + 1;
    }
    return Ok(MapData(width, conds));
  }

  /** The cube coordinates the rectangle loop gives the cell at (row, col)
      of a map with `height` rows and `width` + 1 columns: row i gets
      r = -height // 2 + i, and column j gets q = -width // 2 - (r + 1) // 2 + j.
      (Python's `//` floors; Dafny's `/` agrees with it for the positive
      divisor 2.) */
  function OffsetToHex(height: int, width: int, row: int, col: int): Hex {
    var r := (-height) / 2 + row;
    var q := (-width) / 2 - (r + 1) / 2 + col;
    Cube(q, r, -q - r)
  }

  /** The map cell a hex of the rectangle comes from. */
  function HexToOffset(height: int, width: int, h: Hex): (rc: (int, int))
    ensures OffsetToHex(height, width, rc.0, rc.1) == h
  {
    var row := h.r - (-height) / 2;
    (row, h.q - ((-width) / 2 - (h.r + 1) / 2))
  }

  /** Distinct cells get distinct hexes: the cell can be read back off the hex. */
  lemma OffsetRoundTrip(height: int, width: int, row: int, col: int)
    ensures HexToOffset(height, width, OffsetToHex(height, width, row, col)) == (row, col)
  {
  }

  lemma HalvesSpan(n: int)
    ensures n / 2 - (-n) / 2 == n
  {
  }

  /** The tile the k-th iteration of the rectangle loop appends. */
  predicate IsRectTile(m: BasicMap, k: int, t: HexTile) {
    && InMap(m, k)
    && t.hex == OffsetToHex(|m|, |m[0]| - 1, k / |m[0]|, k % |m[0]|)
    && t.tileType == CondAt(m, k)
  }

  /** Lines 93-105 on a map `LoadMap` accepted: H * (W + 1) tiles, the k-th
      one on the cell at row k // (W + 1), column k % (W + 1) with that
      cell's tile type, and no hex twice. */
  method RectangleTiles(m: BasicMap) returns (tiles: seq<HexTile>)
    requires MapOk(m)
    ensures |tiles| == |m| * |m[0]|
    ensures forall k :: 0 <= k < |tiles| ==> IsRectTile(m, k, tiles[k])
    ensures forall i, j :: 0 <= i < j < |tiles| ==> tiles[i].hex != tiles[j].hex
  {
    var height := |m|;
    var width := |m[0]| - 1;
    var n := width + 1;
    HalvesSpan(height);
    HalvesSpan(width);
    tiles := [];
    var count := 0;
    var r := (-height) / 2;
    while r < height / 2
      invariant (-height) / 2 <= r <= height / 2
      invariant count == (r - (-height) / 2) * n
      invariant |tiles| == count
      invariant forall k :: 0 <= k < count ==> IsRectTile(m, k, tiles[k])
    {
      var rOffset := (r + 1) / 2;
      var q := (-width) / 2 - rOffset;
      while q < width / 2 - rOffset + 1
        invariant (-width) / 2 - rOffset <= q <= width / 2 - rOffset + 1
        invariant count == (r - (-height) / 2) * n + (q - ((-width) / 2 - rOffset))
        invariant |tiles| == count
        invariant forall k :: 0 <= k < count ==> IsRectTile(m, k, tiles[k])
      {
        var s := -q - r;
        RowMajor(r - (-height) / 2, q - ((-width) / 2 - rOffset), n);
        var row := count / n;
        var col := count % n;
        assert RowOk(m, row);
        var tileType := TileTypeOf(m[row][col]);
        var tile := MkHexTile(q, r, s, tileType.value);
        assert IsRectTile(m, count, tile.value);
        tiles := tiles + [tile.value];
        count := count + 1;
        q := q + 1;
      }
      r := r + 1;
    }
    RectangleDistinct(m, tiles);
  }

  /** Two tiles of the rectangle sit on different hexes. */
  lemma RectangleDistinct(m: BasicMap, tiles: seq<HexTile>)
    requires forall k :: 0 <= k < |tiles| ==> IsRectTile(m, k, tiles[k])
    ensures forall i, j :: 0 <= i < j < |tiles| ==> tiles[i].hex != tiles[j].hex
  {
    forall i, j | 0 <= i < j < |tiles|
      ensures tiles[i].hex != tiles[j].hex
    {
      assert IsRectTile(m, i, tiles[i]);
      assert IsRectTile(m, j, tiles[j]);
      var n := |m[0]|;
      OffsetRoundTrip(|m|, n - 1, i / n, i % n);
      OffsetRoundTrip(|m|, n - 1, j / n, j % n);
      RowMajorDistinct(i, j, n);
    }
  }

  /** The script's own `hex_to_pixel`, written out as it stands there; it
      places every hex where `Hex.to_pixel` does. */
  function HexToPixel(layout: Layout, h: Hex): (p: Point)
    ensures p == ToPixel(layout, h)
  {
    var m := layout.orientation;
    var x := (m.f0 * h.q as real + m.f1 * h.r as real) * layout.size.x;
    var y := (m.f2 * h.q as real + m.f3 * h.r as real) * layout.size.y;
    assert ToPixel(layout, h) == Point(x + layout.origin.x, y + layout.origin.y);
    Point(x + layout.origin.x, y + layout.origin.y)
  }

  /** The six neighbour lookups of lines 165-168, in direction order from
      `i`: the neighbours that are on the map, or None as soon as a lookup
      raises. */
  function NeighboursOnMap(allHexes: seq<Hex>, hover: Hex, step: (Hex, int) -> Option<Hex>, i: nat): Option<seq<Hex>>
    decreases 6 - i
  {
    if i >= 6 then Some([])
    else match step(hover, i)
      case None => None
      case Some(n) =>
        match NeighboursOnMap(allHexes, hover, step, i + 1)
        case None => None
        case Some(rest) => Some(if n in allHexes then [n] + rest else rest)
  }

  /** Lines 164-168 as written: the neighbours outlined in blue, or None
      when the frame raises. Because `get_neighbor` always raises, the frame
      fails exactly when the hovered hex is on the map. */
  function HoverOutlines(allHexes: seq<Hex>, hover: Hex): (outlined: Option<seq<Hex>>)
    ensures outlined.None? <==> hover in allHexes
    ensures outlined.Some? ==> outlined.value == []
  {
    if hover !in allHexes then Some([])
    else NeighboursOnMap(allHexes, hover, GetNeighbor, 0)
  }

  /** Lines 164-168 with the component-wise `+`: no frame fails, and the
      blue outlines are exactly the on-map hexes one step from a hovered
      hex that is itself on the map. */
  function HoverOutlinesFixed(allHexes: seq<Hex>, hover: Hex): (outlined: seq<Hex>)
    ensures forall n: Hex :: n in outlined <==> hover in allHexes && n in allHexes && Distance(hover, n) == 1
  {
    if hover !in allHexes then []
    else
      NeighboursFound(allHexes, hover, Neighbor, 0);
      forall n: Hex ensures Distance(hover, n) == 1 <==> exists d :: 0 <= d < 6 && Neighbor(hover, d) == Some(n) {
        DistanceOneIsNeighbor(hover, n);
      }
      NeighboursOnMap(allHexes, hover, Neighbor, 0).value
  }

  /** When every lookup from direction `i` on succeeds, the collected list
      holds exactly the on-map results of those lookups. */
  lemma {:induction false} NeighboursFound(allHexes: seq<Hex>, hover: Hex, step: (Hex, int) -> Option<Hex>, i: nat)
    requires i <= 6
    requires forall d :: i <= d < 6 ==> step(hover, d).Some?
    ensures NeighboursOnMap(allHexes, hover, step, i).Some?
    ensures forall n: Hex :: n in NeighboursOnMap(allHexes, hover, step, i).value <==>
      n in allHexes && exists d :: i <= d < 6 && step(hover, d) == Some(n)
    decreases 6 - i
  {
    if i < 6 {
      NeighboursFound(allHexes, hover, step, i + 1);
    }
  }
}
