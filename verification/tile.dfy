/**
 * A tile: its value, its logical grid position and its pixel position.
 * The pixel position moves during a slide; the grid position is
 * recomputed from it after every step.
 */
module Tiles {
  import opened Geometry
  import opened Palette

  /** The fields of a tile at one moment, as a value. */
  datatype TileState = TileState(value: int, row: int, col: int, x: int, y: int)
  {
    function Cell(): Cell {
      (row, col)
    }
  }

  /** A pixel coordinate a tile can hold: a multiple of the step inside the window. */
  predicate OnTrack(p: int, limit: int) {
    0 <= p <= limit && p % MOVE_VEL == 0
  }

  /** A grid coordinate obtained from pixel coordinate p by one of the two roundings. */
  predicate Snapped(g: int, p: int, size: int)
    requires size > 0
  {
    g == FloorDiv(p, size) || g == CeilDiv(p, size)
  }

  /**
   * What holds of every tile on the board between steps: its value is a
   * power of two from 2 up, its pixel position lies on the track inside the
   * window, and its grid position is its pixel position rounded one way or
   * the other (floor after a slide right or down, ceiling after a slide left
   * or up).
   */
  predicate WellPlaced(s: TileState) {
    IsPow2(s.value) && s.value >= 2 &&
    OnTrack(s.x, (COLS - 1) * RECT_WIDTH) && OnTrack(s.y, (ROWS - 1) * RECT_HEIGHT) &&
    Snapped(s.col, s.x, RECT_WIDTH) && Snapped(s.row, s.y, RECT_HEIGHT)
  }

  /** A well-placed tile sits on a cell of the grid. */
  lemma WellPlacedInGrid(s: TileState)
    requires WellPlaced(s)
    ensures InGrid(s.Cell())
  {
    SnappedInRange(s.col, s.x);
    SnappedInRange(s.row, s.y);
  }

  /** A grid coordinate snapped from a pixel coordinate on the track lies on the grid. */
  lemma SnappedInRange(g: int, p: int)
    requires 0 <= p <= 3 * RECT_WIDTH && Snapped(g, p, RECT_WIDTH)
    ensures 0 <= g <= 3
  {
    var q, c := FloorDiv(p, RECT_WIDTH), CeilDiv(p, RECT_WIDTH);
    assert q * 200 <= p < q * 200 + 200;
    assert c * 200 - 200 < p <= c * 200;
  }

  /** A tile at rest on a grid cell, holding a power of two, is well placed. */
  lemma AtRestIsWellPlaced(value: int, row: int, col: int)
    requires InGrid((row, col)) && IsPow2(value) && value >= 2
    ensures WellPlaced(TileState(value, row, col, col * RECT_WIDTH, row * RECT_HEIGHT))
  {
    RestRecovers(row);
    RestRecovers(col);
    RestOnTrack(row);
    RestOnTrack(col);
  }

  /** The pixel coordinate of a grid coordinate is a whole number of steps. */
  lemma RestOnTrack(n: int)
    ensures (n * RECT_WIDTH) % MOVE_VEL == 0
  {
    var p := n * 200;
    assert p == (n * 10) * 20;
  }

  class Tile {
    var value: int
    var row: int
    var col: int
    var x: int
    var y: int

    /** A new tile is placed at rest on its cell. */
    constructor (value: int, row: int, col: int)
      ensures State() == TileState(value, row, col, col * RECT_WIDTH, row * RECT_HEIGHT)
    {
      this.value := value;
      this.row := row;
      this.col := col;
      this.x := col * RECT_WIDTH;
      this.y := row * RECT_HEIGHT;
    }

    function State(): TileState
      reads this
    {
      TileState(value, row, col, x, y)
    }

    function Cell(): Cell
      reads this
    {
      (row, col)
    }

    /** `get_color`: the palette entry picked by the tile's value. */
    function Color(): (c: Rgb)
      reads this
      requires value >= 1
      ensures value == 2 ==> c == COLORS[0]
      ensures value >= Pow2(|COLORS|) ==> c == COLORS[|COLORS| - 1]
    {
      ColorOfPowerOfTwo(1);
      COLORS[PaletteIndex(value)]
    }

    /** `set_pos`: recompute the grid position from the pixel position. */
    method SetPos(ceil: bool)
      modifies this`row, this`col
      ensures row == RoundDiv(y, RECT_HEIGHT, ceil)
      ensures col == RoundDiv(x, RECT_WIDTH, ceil)
    {
      if ceil {
        row := CeilDiv(y, RECT_HEIGHT);
        col := CeilDiv(x, RECT_WIDTH);
      } else {
        row := FloorDiv(y, RECT_HEIGHT);
        col := FloorDiv(x, RECT_WIDTH);
      }
    }

    /** `move`: shift the pixel position by a delta; nothing else changes. */
    method Move(dx: int, dy: int)
      modifies this`x, this`y
      ensures x == old(x) + dx && y == old(y) + dy
    {
      x := x + dx;
      y := y + dy;
    }
  }
}
