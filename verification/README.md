# Hex grid of the war-game map, in Dafny

This project models the hexagonal-grid layer of a small Python war-game
prototype and the integer loops that its scripts build around it:

- `Hex`, the cube-coordinate value type (`q + r + s == 0`). It has `+`,
  `-` and integer `*`, `length`, `dist_to`, the six-entry direction table
  and `get_neighbor`.
- `hex_round`, which snaps a fractional cube triple to a valid hex.
- `Orientation` and `Layout`, with the two orientation constants. They
  cover the affine `to_pixel` / `pixel_to_hex` conversion and `corners`.
- The `TileType` enumeration and `HexTile`.
- The map loader of `read_map_setting.py`, which validates row widths and
  converts cond numbers. The same script lays the map out as a rectangle of
  hexes, has its own `hex_to_pixel`, and outlines the hovered hex's
  neighbours.
- The radius-11 enumeration and hover highlight of `fire_fight/main.py`
  and `fire_fight/main_cairo.py`.
- The checkerboard map, camera drag/clamp and visibility cull of
  `test_big_map.py`.

The modules follow the source files:

| module | file | contents |
|---|---|---|
| `Wrappers` | `wrappers.dfy` | `Option`, `Result` |
| `Hexes` | `hexes.dfy` | `Hex` and its operations, as written and component-wise |
| `Rounding` | `rounding.dfy` | Python's `round` (half to even) and `hex_round` |
| `Layouts` | `layouts.dfy` | `Point`, `Orientation`, `Layout`, pixel conversion |
| `Tiles` | `tiles.dfy` | `TileType`, `HexTile` |
| `MapSetting` | `map_setting.dfy` | the loops of `read_map_setting.py` |
| `RadiusGrid` | `radius_grid.dfy` | the loops of `fire_fight/main.py` and `fire_fight/main_cairo.py` |
| `BigMap` | `big_map.dfy` | the integer logic of `test_big_map.py` |

A failed `assert` and a raised exception are both an error result. The
model uses `None` of an `Option` or `Err` of a `Result` for these; the
source's callers do not recover from them. `Hex` is a subset type of the
raw triple `Cube`, so every `Hex` in the model has passed the
constructor's assertion.

Floating-point numbers are exact `real`s. Two quantities become
parameters:
- √3 is a `sqrt3: real`. Where a result depends on its value, the lemma
  requires `sqrt3 > 0 && sqrt3 * sqrt3 == 3`.
- The cosine and sine of a corner angle come from a caller-supplied
  `UnitCircle`. It maps an angle, given in turns, to (cos, sin).

The scripts' inputs reach the model as parameters in the form the core
logic sees them. The map file arrives as a grid of cond numbers. The mouse
position arrives as the hovered hex (`ThickOutline`, `CairoHighlights`,
`HoverOutlines`) or as the drag's relative motion `event.rel` (the `dx`,
`dy` of `BigMap.Drag`). The frame clock does not reach the model.

The wrap-around branch of `get_neighbor` suggests that a direction is
meant to be taken modulo 6. The code disagrees: it asserts `0 <= d < 6`
before that branch, so the branch can never run. The model follows the
code: an out-of-range direction is an error.

## Model

| member | source | states |
|---|---|---|
| Hexes.MkHex | fire_fight/hexgon.py:53-54 | constructing `Hex(q, r, s)` succeeds exactly when q + r + s == 0, and then holds that triple |
| Hexes.HexDirectionFacts | fire_fight/hexgon.py:5-12 | the direction table has six pairwise-distinct entries, each of length 1 and each with r != s |
| Hexes.OppositeDirections | fire_fight/hexgon.py:5-12 | entry (i + 3) % 6 of the direction table is the negation of entry i: their sum is the origin |
| Hexes.UnitDirection | fire_fight/hexgon.py:5-12 | every hex of length 1 is one of the six table entries |
| Hexes.Length | fire_fight/hexgon.py:80-81 | `length` is exact, because for a valid hex \|q\|+\|r\|+\|s\| is even (twice the result); it is 0 only at the origin |
| Hexes.LengthIsMaxAbs | fire_fight/hexgon.py:80-81 | `length` equals max(\|q\|, \|r\|, \|s\|), so each \|coordinate\| is at most the length |
| Hexes.Mul | fire_fight/hexgon.py:76-78 | `h * factor` fails exactly for a non-integer factor; otherwise the product is a valid hex whose length is \|k\| times h's, and it is the origin exactly when k == 0 or h is the origin |
| Hexes.Add | fire_fight/hexgon.py:70-71 | the literal `a + b` (third component a.s + b.r) passes the constructor exactly when b.r == b.s, and then equals the component-wise sum |
| Hexes.Sub | fire_fight/hexgon.py:73-74 | the literal `a - b` (third component a.s - b.r) passes the constructor exactly when b.r == b.s, and then equals the component-wise difference |
| Hexes.DistTo | fire_fight/hexgon.py:83-84 | `a.dist_to(other)` succeeds exactly when a.r == a.s, and then returns the hex distance between a and other |
| Hexes.DistToSelf | fire_fight/hexgon.py:83-84 | where `a.dist_to(a)` succeeds it returns 0 |
| Hexes.DistToRejectsSelf | fire_fight/hexgon.py:83-84 | `dist_to` raises for (1, 0, -1) measured against itself, although their distance is 0 |
| Hexes.AddRejectsUnitStep | fire_fight/hexgon.py:70-71 | the literal `+` raises on the origin plus direction 0 |
| Hexes.GetNeighbor | fire_fight/hexgon.py:92-96 | `get_neighbor` raises for every hex and every direction: an out-of-range direction fails the range assertion, and for an in-range one the literal `+` rejects the table entry, which has r != s |
| Hexes.Plus | fire_fight/hexgon.py:70-71 | the component-wise sum is always a valid hex, and its length is at most the sum of the lengths |
| Hexes.Minus | fire_fight/hexgon.py:73-74 | the component-wise difference d of a and b satisfies d + b == a |
| Hexes.DistanceIdentity | fire_fight/hexgon.py:83-84 | the distance between two hexes is 0 exactly when they are equal |
| Hexes.DistanceSymmetric | fire_fight/hexgon.py:83-84 | the distance from a to b equals the distance from b to a |
| Hexes.DistanceTriangle | fire_fight/hexgon.py:83-84 | the distance satisfies the triangle inequality |
| Hexes.Neighbor | fire_fight/hexgon.py:92-96 | the corrected neighbour lookup succeeds exactly for directions 0..5, and each neighbour is at distance 1 |
| Hexes.NeighborsDistinct | fire_fight/hexgon.py:92-96 | the six neighbours of a hex are pairwise distinct |
| Hexes.NeighborOpposite | fire_fight/hexgon.py:92-96 | stepping in direction i and then in direction (i + 3) % 6 returns to the start |
| Hexes.DistanceOneIsNeighbor | fire_fight/hexgon.py:92-96 | a hex is at distance 1 from h exactly when it is h's neighbour in some direction 0..5 |
| Rounding.RoundHalfEven | fire_fight/hexgon.py:16-18 | `int(round(x))` is within 1/2 of x, and on a tie it is even |
| Rounding.RoundHalfEvenUnique | fire_fight/hexgon.py:16-18 | those two properties determine the rounded value uniquely |
| Rounding.RoundInteger | fire_fight/hexgon.py:16-18 | rounding an integer gives it back |
| Rounding.HexRound | fire_fight/hexgon.py:15-29 | `hex_round` always gives a valid hex. If q's rounding delta is strictly largest, q is recomputed; otherwise r is recomputed when its delta exceeds s's; otherwise s is. The other two coordinates keep their rounded values |
| Rounding.HexRoundOfHex | fire_fight/hexgon.py:15-29 | an integer triple that already sums to 0 comes back unchanged |
| Rounding.HexRoundTie | fire_fight/hexgon.py:15-29 | under half-to-even rounding, (0.5, 0.5, -1.0) rounds to (0, 1, -1) |
| Rounding.HexRoundNear | fire_fight/hexgon.py:15-29 | for an input on the plane q + r + s == 0, each coordinate of the result is within 1 of the input |
| Layouts.PointyTop | fire_fight/hexgon.py:128-138 | the coefficients of `layout_pointy`, with `sqrt3` for `math.sqrt(3.0)`: a step in q moves a hex horizontally only (f2 = b2 = 0), the start angle is half a corner (0.5), and when sqrt3² = 3 the backward matrix inverts the forward one |
| Layouts.FlatTop | fire_fight/hexgon.py:139-149 | the coefficients of `layout_flat`: it is `layout_pointy` mirrored in the diagonal with q and r exchanged (each matrix read back to front, start angle half a corner less), so a step in r moves a hex vertically only and the start angle is 0 |
| Layouts.CornerOffset | fire_fight/hexgon.py:32-35 | corner i's offset is the unit-circle point at (start_angle + i) / 6 turns stretched by the size: with equal size components it lies on the circle of that radius, and it has no y component where the sine is 0 |
| Layouts.OrientationsInvert | fire_fight/hexgon.py:128-149 | in both `layout_pointy` and `layout_flat`, the backward matrix is the inverse of the forward matrix when sqrt3² = 3 |
| Layouts.MkLayout | fire_fight/hexgon.py:123-125 | constructing a layout keeps orientation, size and origin, and caches six corner offsets: offset i is `hex_corner_offset(layout, i)` |
| Layouts.CornerOffsetsIgnoreOrigin | fire_fight/hexgon.py:32-35 | the cached corner offsets do not depend on the origin |
| Layouts.ToPixel | fire_fight/hexgon.py:86-90 | the origin hex is drawn at the layout origin |
| Layouts.ToPixelAdditive | fire_fight/hexgon.py:86-90 | `to_pixel` is affine: the pixel offset of a sum of hexes is the sum of their offsets |
| Layouts.PointyUnitStep | fire_fight/hexgon.py:86-90 | with pointy-top, unit size and origin (0, 0), hex (1, 0, -1) is drawn at (sqrt3, 0) |
| Layouts.PixelToHex | fire_fight/hexgon.py:152-160 | `pixel_to_hex` raises (division by zero) exactly when a size component is 0 |
| Layouts.PixelRoundTrip | fire_fight/hexgon.py:152-160 | `pixel_to_hex(L, h.to_pixel(L)) == h` for every hex, whenever L's backward matrix inverts its forward matrix and no size component is 0 |
| Layouts.LocalOfToPixel | fire_fight/hexgon.py:154-157 | normalising a hex's pixel undoes the size scaling and origin shift of `to_pixel` |
| Layouts.BackwardOfForward | fire_fight/hexgon.py:158-159 | the backward matrix recovers the axial (q, r) from the forward matrix's image |
| Layouts.OrientationRoundTrip | fire_fight/hexgon.py:128-160 | the round trip holds for both orientation constants, at every nonzero size and every origin |
| Layouts.Corners | fire_fight/hexgon.py:98-100 | `corners` returns one point per cached offset: point i is the hex's pixel centre plus offset i |
| Layouts.CornersFollowOrigin | fire_fight/hexgon.py:98-100 | moving the origin by (dx, dy) moves all six corners of every hex by (dx, dy) |
| Tiles.Code | fire_fight/tile.py:7-20 | every tile type's enum value lies in 0..10 |
| Tiles.TileTypeOf | fire_fight/tile.py:7-20 | `TileType(n)` succeeds exactly for n in 0..10, and then returns the member whose value is n |
| Tiles.TileTypeOfCode | fire_fight/tile.py:7-20 | looking up a member's own value gives that member back |
| Tiles.MkHexTile | fire_fight/tile.py:39-42 | `HexTile(q, r, s, t)` fails exactly when `Hex(q, r, s)` does; otherwise it holds that hex and t |
| MapSetting.LoadMap | read_map_setting.py:72-87 | Rejects an empty map. Rejects the first row whose width differs from row 0's, and the first cond that is not a tile type, in the order the loops meet them. Otherwise returns `map_width` = len(row 0) - 1 and every cond converted, in row-major order |
| MapSetting.RowMajor | read_map_setting.py:98-99 | for `count` = i·(W+1) + j with 0 <= j <= W, `count // (W+1)` is i and `count % (W+1)` is j |
| MapSetting.RowMajorDistinct | read_map_setting.py:98-99 | distinct counts give distinct (row, col) pairs |
| MapSetting.HalvesSpan | read_map_setting.py:93-95 | `range(-n // 2, n // 2)` has exactly n values under floor division |
| MapSetting.HexToOffset | read_map_setting.py:93-96 | the map cell of a rectangle hex can be read back off the hex |
| MapSetting.OffsetRoundTrip | read_map_setting.py:93-96 | reading a cell back off its own hex gives that cell |
| MapSetting.RectangleTiles | read_map_setting.py:93-105 | On a map the loader accepted, the loop emits H·(W+1) tiles. The k-th tile sits at the (row, col) derived from k, lies inside the map, and carries that cell's tile type. No hex is emitted twice |
| MapSetting.RectangleDistinct | read_map_setting.py:93-104 | tiles placed at distinct counts of the rectangle lie on distinct hexes |
| MapSetting.HexToPixel | read_map_setting.py:39-43 | the script's own `hex_to_pixel` puts every hex where `Hex.to_pixel` does |
| MapSetting.HoverOutlines | read_map_setting.py:164-168 | as written, the hover block raises exactly when the hovered hex is on the map; otherwise it outlines nothing |
| MapSetting.HoverOutlinesFixed | read_map_setting.py:164-168 | with the corrected `+`, the blue outlines go exactly to the on-map hexes at distance 1 from a hovered hex that is itself on the map |
| MapSetting.NeighboursFound | read_map_setting.py:165-168 | when every neighbour lookup succeeds, the loop outlines exactly the looked-up hexes that are on the map |
| RadiusGrid.HexesWithinRadius | fire_fight/main.py:25-31 | The loop emits exactly the hexes of length at most the radius, strictly ordered by (q, r), so none twice. For radius R >= 0 it emits 3R(R+1)+1 of them |
| RadiusGrid.ScanColumn | fire_fight/main.py:26-31 | the inner loop appends, in r order, exactly column q's hexes within the radius |
| RadiusGrid.VisitCell | fire_fight/main.py:27-31 | one iteration builds `Hex(q, r, -q-r)`, which never fails, and appends it exactly when its length is within the radius |
| RadiusGrid.RowCountFull | fire_fight/main.py:26-31 | column q, with \|q\| <= R, holds 2R + 1 - \|q\| hexes within radius R |
| RadiusGrid.PrefixCountTotal | fire_fight/main.py:25-31 | the radius-R enumeration has 3R(R+1)+1 entries |
| RadiusGrid.ThickOutline | fire_fight/main.py:66-75 | the thick outline is drawn exactly when the hovered hex has length at most 11 |
| RadiusGrid.CairoHighlights | fire_fight/main_cairo.py:84-89 | 397 highlight flags, at most one of them set; one is set exactly when the hovered hex has length at most 11 |
| RadiusGrid.AscendingDistinct | fire_fight/main_cairo.py:18-25 | the strictly (q, r)-ordered enumeration holds no hex twice |
| BigMap.GameMap | test_big_map.py:11 | the 50×50 map holds only 0s and 1s, and orthogonally adjacent cells differ |
| BigMap.Clamp | test_big_map.py:40-41 | `max(0, min(v, hi))` lies in [0, hi] when hi >= 0 and keeps in-range values; a value below 0 goes to 0, and one above hi >= 0 goes to hi |
| BigMap.ClampIdempotent | test_big_map.py:40-41 | clamping twice is clamping once |
| BigMap.Drag | test_big_map.py:36-41 | After a drag the camera lies in [0, 1200] × [0, 1400]. A drag that stays inside the map moves the camera by exactly the negated mouse delta; one that would pass an edge stops at that edge, on each axis separately |
| BigMap.CellColour | test_big_map.py:50 | colour (200, 200, 200) exactly for a 0 cell, (100, 100, 100) exactly otherwise |
| BigMap.VisibleCells | test_big_map.py:45-51 | A cell is drawn exactly when its top-left corner lies in [0, 800) × [0, 600). It is drawn at its screen position in its map colour. Cells are drawn in row-major order, so none twice |

## Left out

- The interning cache of `Hex.__new__` (`HEX_CACHE`) is left out. It only affects Python object identity. Equality is by value, so membership tests behave the same without it.
- All pygame and cairo plumbing is left out: windows, event loops, drawing calls, fonts, the frame clock (`clock.tick`) and surface byte conversion. These are I/O through foreign libraries. The mouse position enters only as the hovered hex or the drag delta.
- JSON loading and `sys.exit` in `read_map_setting.py` are left out; they are file I/O. The map arrives as a grid of cond numbers. Each exit is an `Err` result of `MapSetting.LoadMap`.
- A cell missing its `cond` key is not modelled, because the map has no other fields.
- Layouts.MkLayout: takes cos and sin as the `UnitCircle` parameter, because they cannot be computed exactly. The corner offsets are exactly the six points that parameter yields.
- √3 is the parameter `sqrt3`. The orientation lemmas require `sqrt3 > 0 && sqrt3 * sqrt3 == 3`, which no constant can be shown to satisfy without an axiom.
- Layouts.PixelRoundTrip: holds over exact reals. It does not claim the round trip for IEEE doubles, where `math.sqrt(3.0)` and the divisions are inexact.
- Hexes.Length: computed exactly. The source divides in floating point, which loses precision for coordinates beyond 2^53.
- Panning in `read_map_setting.py` is left out. It assigns `layout.origin` on a frozen dataclass, which raises at run time, and it is UI state. `Layouts.CornersFollowOrigin` states the effect the assignment aims for.
- The `TILE_COLOR_MAP` colour table is left out; it is pygame data. The row and column label text is also left out.
- Python's `-O` mode, which strips assertions, is left out. Every assertion is modelled as active.
- Hexes.GetNeighbor: models the dead wrap-around branch only as unreachable. The range assertion fails first, as the code has it.

## Findings

| source | as written | input that shows it | evidently intended | confidence | as-written member | corrected member |
|---|---|---|---|---|---|---|
| fire_fight/hexgon.py:70-71 | `__add__` builds the third component as `self.s + other.r` | `Hex(0, 0, 0) + Hex(1, 0, -1)` builds (1, 0, 0) and fails the q + r + s == 0 assertion | `self.s + other.s`, the component-wise sum | high, by reading; not executed | Hexes.AddRejectsUnitStep | Hexes.Plus |
| fire_fight/hexgon.py:73-84 | `__sub__` builds the third component as `self.s - other.r`, so `dist_to` raises unless `self.r == self.s` | `Hex(1, 0, -1).dist_to(Hex(1, 0, -1))` builds (0, 0, -1) and fails the assertion | `self.s - other.s`; the distance is the length of the component-wise difference | high, by reading; not executed | Hexes.DistToRejectsSelf | Hexes.DistanceIdentity |
| read_map_setting.py:164-168 | `hover_hex.get_neighbor(i)` uses the literal `+`, which rejects every direction (none has r == s) | hovering over any hex on the map makes the frame raise at `get_neighbor(0)` | outline the on-map neighbours at distance 1 | high, by reading; not executed | MapSetting.HoverOutlines | MapSetting.HoverOutlinesFixed |
