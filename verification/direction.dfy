/**
 * The per-direction policy of one slide: the sort key and order, the
 * pixel delta of one step, the edge test, the neighbour's cell, the
 * merge-distance and move-distance tests, and the rounding mode.
 */
module Directions {
  import opened Geometry
  import opened Tiles

  datatype Direction = Left | Right | Up | Down

  /** The tile field the slide sorts by (`sort_func`): the column for a horizontal slide, the row otherwise. */
  function SortKey(d: Direction, s: TileState): int {
    if d == Left || d == Right then s.col else s.row
  }

  /**
   * `reverse`: right and down slides process the tiles nearest the far edge
   * first; they are the slides whose step increases the coordinate.
   */
  predicate Descending(d: Direction)
    ensures Descending(d) <==> Delta(d).0 + Delta(d).1 > 0
  {
    d == Right || d == Down
  }

  /** Whether key `a` may come before key `b` in the slide's processing order. */
  predicate InOrder(d: Direction, a: int, b: int) {
    if Descending(d) then a >= b else a <= b
  }

  /** `delta`: the pixel displacement of one step, one step along the slide's axis. */
  function Delta(d: Direction): (r: (int, int))
    ensures (r.0 == 0) != (r.1 == 0)
    ensures r.0 + r.1 == MOVE_VEL || r.0 + r.1 == -MOVE_VEL
    ensures (d == Left || d == Right) <==> r.1 == 0
  {
    match d
    case Left => (-MOVE_VEL, 0)
    case Right => (MOVE_VEL, 0)
    case Up => (0, -MOVE_VEL)
    case Down => (0, MOVE_VEL)
  }

  /**
   * `ceil`: left and up slides round the grid position up, right and down
   * slides round it down; rounding up goes with steps that decrease the
   * coordinate.
   */
  predicate UsesCeil(d: Direction)
    ensures UsesCeil(d) <==> !Descending(d)
  {
    d == Left || d == Up
  }

  /**
   * `boundary_check`: the tile's grid position is on the edge the slide
   * heads to, which is the key that sorts first.
   */
  predicate AtEdge(d: Direction, s: TileState)
    ensures AtEdge(d, s) <==> SortKey(d, s) == if Descending(d) then COLS - 1 else 0
  {
    match d
    case Left => s.col == 0
    case Right => s.col == COLS - 1
    case Up => s.row == 0
    case Down => s.row == ROWS - 1
  }

  /**
   * The key `get_next_tile` looks up: the cell one step toward the edge.
   * For a cell of the grid, that cell lies off the grid exactly when the
   * tile is on the edge.
   */
  function NeighbourCell(d: Direction, s: TileState): (c: Cell)
    ensures c != s.Cell()
    ensures InGrid(s.Cell()) ==> (InGrid(c) <==> !AtEdge(d, s))
  {
    match d
    case Left => (s.row, s.col - 1)
    case Right => (s.row, s.col + 1)
    case Up => (s.row - 1, s.col)
    case Down => (s.row + 1, s.col)
  }

  /**
   * The processing order is total, and equal keys may come either way
   * round, so a stable sort keeps their order.
   */
  lemma ProcessingOrderTotal(d: Direction, a: int, b: int)
    ensures InOrder(d, a, b) || InOrder(d, b, a)
    ensures InOrder(d, a, b) && InOrder(d, b, a) <==> a == b
  {
  }

  /**
   * The cell a tile looks up sorts strictly ahead of the tile, so a tile's
   * neighbour is processed before it in the same tick.
   */
  lemma NeighbourSortsFirst(d: Direction, s: TileState)
    ensures var c := NeighbourCell(d, s);
      var nk := if d == Left || d == Right then c.1 else c.0;
      InOrder(d, nk, SortKey(d, s)) && nk != SortKey(d, s)
  {
  }

  /**
   * `merge_check`: the neighbour is still more than one step nearer the
   * edge than the tile, so move instead of merging.
   */
  predicate StillFar(d: Direction, t: TileState, n: TileState)
    ensures StillFar(d, t, n) <==> Dist(d, t) - Dist(d, n) > MOVE_VEL
  {
    match d
    case Left => t.x > n.x + MOVE_VEL
    case Right => t.x < n.x - MOVE_VEL
    case Up => t.y > n.y + MOVE_VEL
    case Down => t.y < n.y - MOVE_VEL
  }

  /** `move_check`: the tile is more than a cell plus one step farther from the edge than the neighbour. */
  predicate HasRoom(d: Direction, t: TileState, n: TileState)
    ensures HasRoom(d, t, n) <==> Dist(d, t) - Dist(d, n) > RECT_WIDTH + MOVE_VEL
  {
    match d
    case Left => t.x > n.x + RECT_WIDTH + MOVE_VEL
    case Right => t.x + RECT_WIDTH + MOVE_VEL < n.x
    case Up => t.y > n.y + RECT_HEIGHT + MOVE_VEL
    case Down => t.y + RECT_HEIGHT + MOVE_VEL < n.y
  }

  /** The grid position `set_pos` computes from a pixel position under the slide's rounding. */
  function Rounded(d: Direction, x: int, y: int): Cell {
    (RoundDiv(y, RECT_HEIGHT, UsesCeil(d)), RoundDiv(x, RECT_WIDTH, UsesCeil(d)))
  }

  /** A tile after `move(delta)` followed by `set_pos(ceil)`. */
  function Advanced(d: Direction, s: TileState): TileState {
    var x := s.x + Delta(d).0;
    var y := s.y + Delta(d).1;
    var c := Rounded(d, x, y);
    TileState(s.value, c.0, c.1, x, y)
  }

  /** A tile after `set_pos(ceil)` alone, as happens to the tile that merges away. */
  function Resnapped(d: Direction, s: TileState): TileState {
    var c := Rounded(d, s.x, s.y);
    TileState(s.value, c.0, c.1, s.x, s.y)
  }

  /** Pixels between the tile and the edge the slide heads to. */
  function Dist(d: Direction, s: TileState): int {
    match d
    case Left => s.x
    case Right => (COLS - 1) * RECT_WIDTH - s.x
    case Up => s.y
    case Down => (ROWS - 1) * RECT_HEIGHT - s.y
  }

  /**
   * A well-placed tile that is not on the edge can take one more step: it
   * stays well placed, still inside the window, and one step nearer the edge.
   */
  lemma AdvanceShortens(d: Direction, s: TileState)
    requires WellPlaced(s) && !AtEdge(d, s)
    ensures WellPlaced(Advanced(d, s))
    ensures Dist(d, s) >= MOVE_VEL
    ensures Dist(d, Advanced(d, s)) == Dist(d, s) - MOVE_VEL
  {
    match d
    case Left =>
      LeavesLowEdge(s.x, s.col);
      StepOnTrack(s.x, -MOVE_VEL);
    case Right =>
      LeavesHighEdge(s.x, s.col);
      StepOnTrack(s.x, MOVE_VEL);
    case Up =>
      LeavesLowEdge(s.y, s.row);
      StepOnTrack(s.y, -MOVE_VEL);
    case Down =>
      LeavesHighEdge(s.y, s.row);
      StepOnTrack(s.y, MOVE_VEL);
  }

  /** One step from a multiple of the step is again a multiple of the step. */
  lemma StepOnTrack(p: int, delta: int)
    requires p % MOVE_VEL == 0 && (delta == MOVE_VEL || delta == -MOVE_VEL)
    ensures (p + delta) % MOVE_VEL == 0
  {
    var k := p / MOVE_VEL;
    assert p == k * MOVE_VEL;
    assert p + delta == (k + delta / MOVE_VEL) * MOVE_VEL;
  }

  /** A coordinate rounded to a grid position other than 0 is at least one step from 0. */
  lemma LeavesLowEdge(p: int, g: int)
    requires OnTrack(p, 3 * RECT_WIDTH) && Snapped(g, p, RECT_WIDTH) && g != 0
    ensures p >= MOVE_VEL
  {
    assert FloorDiv(0, RECT_WIDTH) == 0 && CeilDiv(0, RECT_WIDTH) == 0;
    assert p != 0;
    var k := p / MOVE_VEL;
    assert p == k * MOVE_VEL;
  }

  /** A coordinate rounded to a grid position other than 3 is at least one step from the far edge. */
  lemma LeavesHighEdge(p: int, g: int)
    requires OnTrack(p, 3 * RECT_WIDTH) && Snapped(g, p, RECT_WIDTH) && g != 3
    ensures p <= 3 * RECT_WIDTH - MOVE_VEL
  {
    assert FloorDiv(600, RECT_WIDTH) == 3 && CeilDiv(600, RECT_WIDTH) == 3;
    assert p != 600;
    var k := p / MOVE_VEL;
    assert p == k * MOVE_VEL;
  }

  /** Re-rounding a well-placed tile in place keeps it well placed. */
  lemma ResnapKeepsPlaced(d: Direction, s: TileState)
    requires WellPlaced(s)
    ensures WellPlaced(Resnapped(d, s))
  {
  }

  /** A well-placed tile is never farther from the edge than the window allows. */
  lemma DistInWindow(d: Direction, s: TileState)
    requires WellPlaced(s)
    ensures 0 <= Dist(d, s) <= (COLS - 1) * RECT_WIDTH
  {
  }
}
