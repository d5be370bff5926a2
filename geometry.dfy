/**
 * The playing field: a 30 x 30 grid of integer cells, the four unit
 * directions a snake can move in, and membership of a cell in a list of
 * segments (the scan that every collision test of the game performs).
 */
module Geometry {

  /** Width and height of the grid, in cells. */
  const COLS: int := 30
  const ROWS: int := 30

  /** A grid cell; coordinates may lie outside the grid (a head that left it). */
  datatype Pos = Pos(x: int, y: int)

  /** The four entries of the game's direction table. */
  datatype Direction = Up | Down | Left | Right

  /** The candidate order the AI evaluates directions in. */
  const AllDirections: seq<Direction> := [Up, Down, Left, Right]

  function DX(d: Direction): (r: int)
  {
    match d
    case Left => -1
    case Right => 1
    case _ => 0
  }

  function DY(d: Direction): (r: int)
  {
    match d
    case Up => -1
    case Down => 1
    case _ => 0
  }

  /** The game's 180-degree test: the two vectors add up to zero on both axes. */
  predicate IsReverse(a: Direction, b: Direction)
  {
    DX(a) + DX(b) == 0 && DY(a) + DY(b) == 0
  }

  function Opposite(d: Direction): (r: Direction)
    ensures DX(r) == -DX(d) && DY(r) == -DY(d)
  {
    match d
    case Up => Down
    case Down => Up
    case Left => Right
    case Right => Left
  }

  /** The vector test singles out exactly the opposite direction, and never a direction itself. */
  lemma ReverseIsOpposite(a: Direction, b: Direction)
    ensures IsReverse(a, b) <==> b == Opposite(a)
    ensures !IsReverse(a, a)
  {
  }

  /** The cell one step from `p` in direction `d`. */
  function Step(p: Pos, d: Direction): (r: Pos)
    ensures r != p
    ensures (if DX(d) < 0 then -DX(d) else DX(d)) + (if DY(d) < 0 then -DY(d) else DY(d)) == 1
  {
    Pos(p.x + DX(d), p.y + DY(d))
  }

  /** Inside `[0, COLS) x [0, ROWS)`. */
  predicate InBounds(p: Pos)
  {
    0 <= p.x < COLS && 0 <= p.y < ROWS
  }

  /** The centre cell, `(floor(COLS/2), floor(ROWS/2))`. */
  function Centre(): (c: Pos)
    ensures InBounds(c)
  {
    Pos(COLS / 2, ROWS / 2)
  }

  /**
   * The scan over the segments `cells` for one equal to `p`, stopping at the
   * first match.
   */
  method Occupies(cells: seq<Pos>, p: Pos) returns (found: bool)
    ensures found <==> p in cells
  {
    found := false;
    var i := 0;
    while i < |cells|
      invariant 0 <= i <= |cells|
      invariant p !in cells[..i]
    {
      if cells[i] == p {
        found := true;
        return;
      }
      assert cells[..i + 1] == cells[..i] + [cells[i]];
      i := i + 1;
    }
    assert cells[..i] == cells;
  }
}
