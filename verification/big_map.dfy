/**
  The integer logic of test_big_map.py: the checkerboard map, the drag that
  moves and clamps the camera, and the cull that draws only the cells whose
  top-left corner is on screen.
*/
module BigMap {

  const ScreenWidth := 800
  const ScreenHeight := 600
  const CellSize := 40
  const MapWidth := 50
  const MapHeight := 50

  /** Largest camera offsets the clamp allows. */
  const MaxCameraX := MapWidth * CellSize - ScreenWidth
  const MaxCameraY := MapHeight * CellSize - ScreenHeight

  datatype Rgb = Rgb(red: int, green: int, blue: int)

  datatype Camera = Camera(x: int, y: int)

  /** A cell drawn this frame: its map position, screen position and colour. */
  datatype Draw = Draw(row: int, col: int, x: int, y: int, colour: Rgb)

  /** `game_map`: row y, column x holds (x + y) % 2, so every cell is 0 or 1
      and orthogonal neighbours differ. */
  function GameMap(): (m: seq<seq<int>>)
    ensures |m| == MapHeight
    ensures forall y :: 0 <= y < MapHeight ==> |m[y]| == MapWidth
    ensures forall y, x :: 0 <= y < MapHeight && 0 <= x < MapWidth ==> m[y][x] == 0 || m[y][x] == 1
    ensures forall y, x :: 0 <= y < MapHeight && 0 <= x + 1 < MapWidth && 0 <= x ==> m[y][x] != m[y][x + 1]
    ensures forall y, x {:trigger m[y + 1][x]} :: 0 <= y && y + 1 < MapHeight && 0 <= x < MapWidth ==> m[y][x] != m[y + 1][x]
  {
    seq(MapHeight, y => seq(MapWidth, x => (x + y) % 2))
  }

  /** `max(0, min(v, hi))`: for hi >= 0 the result lies in [0, hi], a value
      already there is kept, a value below 0 goes to 0 and one above hi goes
      to hi. */
  function Clamp(v: int, hi: int): (c: int)
    ensures hi >= 0 ==> 0 <= c <= hi
    ensures 0 <= v <= hi ==> c == v
    ensures v < 0 ==> c == 0
    ensures hi >= 0 && v > hi ==> c == hi
    ensures c == v || c == 0 || c == hi
  {
    if v < hi then (if v < 0 then 0 else v)
    else (if hi < 0 then 0 else hi)
  }

  /** Clamping twice is clamping once. */
  lemma ClampIdempotent(v: int, hi: int)
    requires hi >= 0
    ensures Clamp(Clamp(v, hi), hi) == Clamp(v, hi)
  {
  }

  /** Lines 36-41: a drag by (dx, dy) moves the camera by (-dx, -dy) and
      clamps it to the map: a move that stays inside the map is not clamped,
      and one past an edge stops at that edge. */
  function Drag(cam: Camera, dx: int, dy: int): (next: Camera)
    ensures 0 <= next.x <= MaxCameraX && 0 <= next.y <= MaxCameraY
    ensures 0 <= cam.x - dx <= MaxCameraX ==> next.x == cam.x - dx
    ensures 0 <= cam.y - dy <= MaxCameraY ==> next.y == cam.y - dy
    ensures cam.x - dx < 0 ==> next.x == 0
    ensures cam.x - dx > MaxCameraX ==> next.x == MaxCameraX
    ensures cam.y - dy < 0 ==> next.y == 0
    ensures cam.y - dy > MaxCameraY ==> next.y == MaxCameraY
  {
    Camera(Clamp(cam.x - dx, MaxCameraX), Clamp(cam.y - dy, MaxCameraY))
  }

  /** Line 50: light grey for a 0 cell, dark grey otherwise. */
  function CellColour(v: int): (c: Rgb)
    ensures v == 0 <==> c == Rgb(200, 200, 200)
    ensures v != 0 <==> c == Rgb(100, 100, 100)
  {
    if v == 0 then Rgb(200, 200, 200) else Rgb(100, 100, 100)
  }

  /** Whether the cell at (row, col) has its top-left corner on screen. */
  predicate OnScreen(cam: Camera, row: int, col: int) {
    && 0 <= col * CellSize - cam.x < ScreenWidth
    && 0 <= row * CellSize - cam.y < ScreenHeight
  }

  /** The draw call line 51 makes for the cell at (row, col). */
  function DrawOf(cam: Camera, row: int, col: int): Draw
    requires 0 <= row < MapHeight && 0 <= col < MapWidth
  {
    Draw(row, col, col * CellSize - cam.x, row * CellSize - cam.y, CellColour(GameMap()[row][col]))
  }

  /** Lines 45-51: visit every cell row by row and draw those whose
      top-left corner is on screen. A cell is drawn exactly when it is on
      screen, with its own screen position and colour, and in row-major
      order, so never twice. */
  method VisibleCells(cam: Camera) returns (draws: seq<Draw>)
    ensures forall d :: d in draws ==>
      0 <= d.row < MapHeight && 0 <= d.col < MapWidth && OnScreen(cam, d.row, d.col) && d == DrawOf(cam, d.row, d.col)
    ensures forall row, col :: 0 <= row < MapHeight && 0 <= col < MapWidth && OnScreen(cam, row, col) ==>
      DrawOf(cam, row, col) in draws
    ensures forall i, j :: 0 <= i < j < |draws| ==>
      draws[i].row < draws[j].row || (draws[i].row == draws[j].row && draws[i].col < draws[j].col)
  {
    draws := [];
    var row := 0;
    while row < MapHeight
      invariant 0 <= row <= MapHeight
      invariant forall d :: d in draws ==>
        0 <= d.row < row && 0 <= d.col < MapWidth && OnScreen(cam, d.row, d.col) && d == DrawOf(cam, d.row, d.col)
      invariant forall r, c :: 0 <= r < row && 0 <= c < MapWidth && OnScreen(cam, r, c) ==> DrawOf(cam, r, c) in draws
      invariant forall i, j :: 0 <= i < j < |draws| ==>
        draws[i].row < draws[j].row || (draws[i].row == draws[j].row && draws[i].col < draws[j].col)
    {
      var col := 0;
      while col < MapWidth
        invariant 0 <= col <= MapWidth
        invariant forall d :: d in draws ==>
          && (0 <= d.row < row || (d.row == row && d.col < col))
          && 0 <= d.col < MapWidth && OnScreen(cam, d.row, d.col) && d == DrawOf(cam, d.row, d.col)
        invariant forall r, c :: 0 <= r < MapHeight && 0 <= c < MapWidth && OnScreen(cam, r, c) && (r < row || (r == row && c < col)) ==>
          DrawOf(cam, r, c) in draws
        invariant forall i, j :: 0 <= i < j < |draws| ==>
          draws[i].row < draws[j].row || (draws[i].row == draws[j].row && draws[i].col < draws[j].col)
      {
        var cellX := col * CellSize - cam.x;
        var cellY := row * CellSize - cam.y;
        if 0 <= cellX < ScreenWidth && 0 <= cellY < ScreenHeight {
          var colour := if GameMap()[row][col] == 0 then Rgb(200, 200, 200) else Rgb(100, 100, 100);
          var d := Draw(row, col, cellX, cellY, colour);
          forall i | 0 <= i < |draws|
            ensures draws[i].row < d.row || (draws[i].row == d.row && draws[i].col < d.col)
          {
            assert draws[i] in draws;
          }
          draws := draws + [d];
        }
        col := col + 1;
      }
      row := row + 1;
    }
  }
}
