/**
 * Board geometry of the 2048 window: the grid constants, the cells of the
 * grid, and the integer rounding that turns pixel coordinates back into
 * grid coordinates.
 */
module Geometry {

  const WIDTH: int := 800
  const HEIGHT: int := 800
  const ROWS: int := 4
  const COLS: int := 4
  const RECT_HEIGHT: int := HEIGHT / ROWS
  const RECT_WIDTH: int := WIDTH / COLS
  /** Pixels a sliding tile advances per tick. */
  const MOVE_VEL: int := 20

  /**
   * A board key. The source keys its dictionary by the string of the row
   * digit followed by the column digit; on a 4x4 grid that string is an
   * injective function of the pair, so the pair itself is the key here.
   */
  type Cell = (int, int)

  predicate InGrid(c: Cell) {
    0 <= c.0 < ROWS && 0 <= c.1 < COLS
  }

  /** The four cells of row r. */
  function RowCells(r: int): set<Cell> {
    {(r, 0), (r, 1), (r, 2), (r, 3)}
  }

  /** The sixteen cells of the grid, row by row. */
  const AllCells: set<Cell> := RowCells(0) + RowCells(1) + RowCells(2) + RowCells(3)

  lemma RowCellsFacts(r: int)
    ensures |RowCells(r)| == COLS
    ensures forall c: Cell :: c in RowCells(r) <==> c.0 == r && 0 <= c.1 < COLS
  {
    forall c: Cell | c.0 == r && 0 <= c.1 < COLS ensures c in RowCells(r) {
      assert c == (r, c.1);
    }
  }

  lemma DisjointCard(a: set<Cell>, b: set<Cell>)
    requires a !! b
    ensures |a + b| == |a| + |b|
  {
    assert (a + b) - a == b;
  }

  lemma AllCellsAreTheGrid()
    ensures forall c :: c in AllCells <==> InGrid(c)
    ensures |AllCells| == ROWS * COLS
  {
    RowCellsFacts(0);
    RowCellsFacts(1);
    RowCellsFacts(2);
    RowCellsFacts(3);
    DisjointCard(RowCells(0), RowCells(1));
    DisjointCard(RowCells(0) + RowCells(1), RowCells(2));
    DisjointCard(RowCells(0) + RowCells(1) + RowCells(2), RowCells(3));
  }

  /** `math.floor(a / b)` for a positive divisor: Dafny's `/` already floors then. */
  function FloorDiv(a: int, b: int): (q: int)
    requires b > 0
    ensures q * b <= a < q * b + b
  {
    a / b
  }

  /** `math.ceil(a / b)` for a positive divisor. */
  function CeilDiv(a: int, b: int): (q: int)
    requires b > 0
    ensures q * b - b < a <= q * b
  {
    (a + b - 1) / b
  }

  /** The rounding `Tile.set_pos` applies, selected by its `ceil` flag. */
  function RoundDiv(a: int, b: int, ceil: bool): int
    requires b > 0
  {
    if ceil then CeilDiv(a, b) else FloorDiv(a, b)
  }

  /**
   * Floor and ceiling division by the cell size agree exactly when the
   * cell size divides the pixel coordinate, and then either one recovers
   * the grid coordinate. (RECT_WIDTH and RECT_HEIGHT are both 200.)
   */
  lemma RoundingAgree(a: int)
    ensures FloorDiv(a, RECT_WIDTH) == CeilDiv(a, RECT_WIDTH) <==> a % RECT_WIDTH == 0
    ensures a % RECT_WIDTH == 0 ==> FloorDiv(a, RECT_WIDTH) * RECT_WIDTH == a
  {
    assert RECT_WIDTH == 200;
    var q := FloorDiv(a, 200);
    var c := CeilDiv(a, 200);
    if a % 200 == 0 {
      assert a == q * 200;
      assert c == q;
    } else {
      assert a != q * 200;
      assert c == q + 1;
    }
  }

  /** A tile at rest at grid coordinate n is mapped back to n by both roundings. */
  lemma RestRecovers(n: int)
    ensures FloorDiv(n * RECT_WIDTH, RECT_WIDTH) == n
    ensures CeilDiv(n * RECT_WIDTH, RECT_WIDTH) == n
  {
    var q := FloorDiv(n * 200, 200);
    var c := CeilDiv(n * 200, 200);
    assert (q - n) * 200 <= 0 < (q - n) * 200 + 200;
    assert (c - n) * 200 - 200 < 0 <= (c - n) * 200;
  }

  /** A board whose keys are grid cells holds at most ROWS * COLS tiles. */
  lemma KeysWithinGrid<T>(m: map<Cell, T>)
    requires forall c :: c in m ==> InGrid(c)
    ensures |m| <= ROWS * COLS
    ensures |m| < ROWS * COLS ==> exists c :: InGrid(c) && c !in m
  {
    AllCellsAreTheGrid();
    assert m.Keys <= AllCells;
    SubsetCard(m.Keys, AllCells);
    if |m| < ROWS * COLS {
      assert m.Keys != AllCells;
      assert AllCells - m.Keys != {};
      var c :| c in AllCells - m.Keys;
      assert InGrid(c) && c !in m;
    }
  }

  lemma SubsetCard<T>(a: set<T>, b: set<T>)
    requires a <= b
    ensures |a| <= |b|
  {
    assert b == a + (b - a);
  }
}
