/** `TileType` and `HexTile` of fire_fight/tile.py (the colour table is not modelled). */
module Tiles {
  import opened Wrappers
  import opened Hexes

  datatype TileType =
    | OpenGround | Forest | Town | River
    | Road | Path | ReverseSlope | ContourLine | Bridge | SmokeScreen | PersonnelShelter

  /** The enum value of a tile type. */
  function Code(t: TileType): (n: int)
    ensures 0 <= n <= 10
  {
    match t
    case OpenGround => 0
    case Forest => 1
    case Town => 2
    case River => 3
    case Road => 4
    case Path => 5
    case ReverseSlope => 6
    case ContourLine => 7
    case Bridge => 8
    case SmokeScreen => 9
    case PersonnelShelter => 10
  }

  /** A cond number `TileType(n)` accepts. */
  predicate IsCond(n: int) {
    0 <= n <= 10
  }

  /** `TileType(n)`: raises ValueError unless n is one of the enum values,
      and otherwise returns the member whose value is n. */
  function TileTypeOf(n: int): (t: Option<TileType>)
    ensures t.Some? <==> IsCond(n)
    ensures t.Some? ==> Code(t.value) == n
  {
    if n == 0 then Some(OpenGround)
    else if n == 1 then Some(Forest)
    else if n == 2 then Some(Town)
    else if n == 3 then Some(River)
    else if n == 4 then Some(Road)
    else if n == 5 then Some(Path)
    else if n == 6 then Some(ReverseSlope)
    else if n == 7 then Some(ContourLine)
    else if n == 8 then Some(Bridge)
    else if n == 9 then Some(SmokeScreen)
    else if n == 10 then Some(PersonnelShelter)
    else None
  }

  /** Looking up a member's own value gives the member back. */
  lemma TileTypeOfCode(t: TileType)
    ensures TileTypeOf(Code(t)) == Some(t)
  {
  }

  /** A hex with its terrain. */
  datatype HexTile = HexTile(hex: Hex, tileType: TileType)

  /** `HexTile(q, r, s, tile_type)`: fails exactly when `Hex(q, r, s)` does. */
  function MkHexTile(q: int, r: int, s: int, t: TileType): (ht: Option<HexTile>)
    ensures ht.Some? <==> q + r + s == 0
    ensures ht.Some? ==> ht.value.hex == Cube(q, r, s) && ht.value.tileType == t
  {
    match MkHex(Cube(q, r, s))
    case Some(h) => Some(HexTile(h, t))
    case None => None
  }
}
