/**
 * The board: the dictionary from grid cell to tile that the game loop
 * owns and the slide rebuilds, together with the operations that fill it
 * (the initial two tiles, the tile added after every slide, the choice of
 * a free cell).
 */
module Boards {
  import opened Geometry
  import opened Palette
  import opened Tiles
  import opened TileLists

  datatype Status = Continue | Lost

  /** The cells of a list of tiles, in list order. */
  function Cells(s: seq<Tile>): (cs: seq<Cell>)
    reads s
    ensures |cs| == |s| && forall i :: 0 <= i < |s| ==> cs[i] == s[i].Cell()
  {
    if s == [] then [] else Cells(s[..|s| - 1]) + [s[|s| - 1].Cell()]
  }

  /**
   * The dictionary built by storing `s[i]` under `cs[i]` for i in order: a
   * later entry under the same key overwrites an earlier one.
   */
  function MapFrom(cs: seq<Cell>, s: seq<Tile>): (m: map<Cell, Tile>)
    requires |cs| == |s|
    ensures forall k :: k in m <==> k in cs
    ensures forall k :: k in m ==> exists i :: 0 <= i < |s| && cs[i] == k && m[k] == s[i]
  {
    if cs == [] then map[]
    else MapFrom(cs[..|cs| - 1], s[..|s| - 1])[cs[|cs| - 1] := s[|s| - 1]]
  }

  /** The entry stored under a key is the one written last under it. */
  lemma {:induction false} LastWriteWins(cs: seq<Cell>, s: seq<Tile>, i: int)
    requires |cs| == |s| && 0 <= i < |cs| && cs[i] !in cs[i + 1..]
    ensures MapFrom(cs, s)[cs[i]] == s[i]
  {
    var n := |cs| - 1;
    if i < n {
      assert cs[n] in cs[i + 1..];
      assert cs[..n][i + 1..] == cs[i + 1..n];
      LastWriteWins(cs[..n], s[..n], i);
    }
  }

  /** A dictionary built from n writes has n keys exactly when the keys written are all different. */
  lemma {:induction false} MapFromSize(cs: seq<Cell>, s: seq<Tile>)
    requires |cs| == |s|
    ensures |MapFrom(cs, s)| <= |cs|
    ensures |MapFrom(cs, s)| == |cs| <==> Distinct(cs)
  {
    if cs != [] {
      var n := |cs| - 1;
      assert cs == cs[..n] + [cs[n]];
      DistinctSnoc(cs[..n], cs[n]);
      var m' := MapFrom(cs[..n], s[..n]);
      MapFromSize(cs[..n], s[..n]);
      if cs[n] in m' {
        assert |MapFrom(cs, s)| == |m'|;
      } else {
        assert |MapFrom(cs, s)| == |m'| + 1;
      }
    }
  }

  /**
   * The dictionary `updated_tiles` builds from a list of tiles: each tile
   * is stored under its own cell, and a later tile on the same cell
   * overwrites an earlier one.
   */
  function BoardOf(s: seq<Tile>): (m: map<Cell, Tile>)
    reads s
    ensures forall k :: k in m <==> k in Cells(s)
    ensures forall k :: k in m ==> m[k] in s && m[k].Cell() == k
  {
    MapFrom(Cells(s), s)
  }

  /**
   * The board as a value: the dictionary and the state of each tile on
   * it, as they stand between two ticks.
   */
  datatype Snap = Snap(tiles: map<Cell, Tile>, states: map<Tile, TileState>)

  /** The snapshot of the dictionary m in the current heap. */
  ghost function SnapOf(m: map<Cell, Tile>): Snap
    reads m.Values
  {
    Snap(m, map t | t in m.Values :: t.State())
  }

  /** The snapshot of a dictionary is unchanged exactly when the state of each of its tiles is. */
  twostate lemma SnapStates(new m: map<Cell, Tile>)
    requires old(allocated(m))
    ensures SnapOf(m) == old(SnapOf(m)) <==> forall t :: t in m.Values ==> t.State() == old(t.State())
  {
    if forall t :: t in m.Values ==> t.State() == old(t.State()) {
      assert SnapOf(m).states == old(SnapOf(m)).states;
    }
    if SnapOf(m) == old(SnapOf(m)) {
      forall t | t in m.Values ensures t.State() == old(t.State()) {
        assert SnapOf(m).states[t] == old(SnapOf(m)).states[t];
      }
    }
  }

  /**
   * The rebuilt dictionary holds one tile per survivor exactly when no two
   * survivors sit on the same cell; otherwise it holds fewer, so some
   * survivor is no longer on the board.
   */
  lemma BoardOfSize(s: seq<Tile>)
    ensures |BoardOf(s)| <= |s|
    ensures |BoardOf(s)| == |s| <==> Distinct(Cells(s))
  {
    MapFromSize(Cells(s), s);
  }

  /** A list with one more entry at the end is without repetitions exactly when both parts are and the entry is new. */
  lemma DistinctSnoc<T>(s: seq<T>, x: T)
    ensures Distinct(s + [x]) <==> Distinct(s) && x !in s
  {
    var t := s + [x];
    if Distinct(t) {
      forall i, j | 0 <= i < j < |s| ensures s[i] != s[j] {
        assert t[i] == s[i] && t[j] == s[j];
      }
      assert x !in s by {
        forall i | 0 <= i < |s| ensures s[i] != x {
          assert t[i] == s[i] && t[|s|] == x;
        }
      }
    }
  }

  /**
   * Rebuilding from an enumeration of a consistent dictionary (every tile
   * stored under its own cell), each tile listed once, gives that
   * dictionary back.
   */
  lemma BoardOfEnumeration(s: seq<Tile>, m: map<Cell, Tile>)
    requires Distinct(s)
    requires forall k :: k in m ==> m[k].Cell() == k
    requires forall t :: t in s <==> t in m.Values
    ensures BoardOf(s) == m
  {
    var b := BoardOf(s);
    forall k | k in m ensures k in b && b[k] == m[k] {
      EnumeratedEntry(s, m, k);
    }
    forall k | k in b ensures k in m {
      assert b[k] in m.Values;
    }
  }

  /** One entry of `BoardOfEnumeration`: the tile stored under k is stored there again. */
  lemma EnumeratedEntry(s: seq<Tile>, m: map<Cell, Tile>, k: Cell)
    requires Distinct(s)
    requires forall k :: k in m ==> m[k].Cell() == k
    requires forall t :: t in s <==> t in m.Values
    requires k in m
    ensures k in BoardOf(s) && BoardOf(s)[k] == m[k]
  {
    var cs := Cells(s);
    assert m[k] in m.Values;
    var i :| 0 <= i < |s| && s[i] == m[k];
    assert cs[i] == k;
    assert k !in cs[i + 1..] by {
      forall j | i < j < |s| ensures cs[j] != k {
        assert s[j] in m.Values;
        var k' :| k' in m && m[k'] == s[j];
      }
    }
    LastWriteWins(cs, s, i);
  }

  /** No tile is stored under two keys. */
  predicate Injective(m: map<Cell, Tile>) {
    forall k, k' :: k in m && k' in m && k != k' ==> m[k] != m[k']
  }

  class Board {
    var tiles: map<Cell, Tile>

    /** An empty board, as `generator_tiles` starts from. */
    constructor ()
      ensures tiles == map[]
    {
      tiles := map[];
    }

    /**
     * What holds between moves: every tile is stored under its own cell
     * and is well placed.
     */
    ghost predicate Valid()
      reads this, tiles.Values
    {
      forall k :: k in tiles ==> tiles[k].Cell() == k && WellPlaced(tiles[k].State())
    }

    /** A valid board lies on the grid, so it has at most sixteen tiles and a free cell unless full. */
    lemma ValidBounds()
      requires Valid()
      ensures forall k :: k in tiles ==> InGrid(k)
      ensures |tiles| <= ROWS * COLS
      ensures |tiles| < ROWS * COLS ==> exists c :: InGrid(c) && c !in tiles
    {
      forall k | k in tiles ensures InGrid(k) {
        WellPlacedInGrid(tiles[k].State());
      }
      KeysWithinGrid(tiles);
    }

    /** On a valid board no tile is stored under two cells. */
    lemma ValidInjective()
      requires Valid()
      ensures Injective(tiles)
    {
    }

    /** `tiles.values()`: every tile of the board, each once. */
    method Values() returns (s: seq<Tile>)
      ensures |s| == |tiles|
      ensures forall t :: t in s <==> t in tiles.Values
      ensures Injective(tiles) ==> Distinct(s)
    {
      var m := tiles;
      s := [];
      var todo := m.Keys;
      ghost var ks: seq<Cell> := [];
      while todo != {}
        invariant todo <= m.Keys
        invariant |s| == |ks| && |s| + |todo| == |m|
        invariant forall i :: 0 <= i < |ks| ==> ks[i] in m && ks[i] !in todo && s[i] == m[ks[i]]
        invariant forall k :: k in m && k !in todo ==> m[k] in s
        invariant Distinct(ks)
        decreases |todo|
      {
        var k :| k in todo;
        s := s + [m[k]];
        ks := ks + [k];
        todo := todo - {k};
      }
      forall t | t in m.Values ensures t in s {
        var k :| k in m && m[k] == t;
      }
      if Injective(m) {
        forall i, j | 0 <= i < j < |s| ensures s[i] != s[j] {
          assert ks[i] != ks[j];
        }
      }
    }

    /**
     * `updated_tiles` applied to the board: the dictionary is replaced by
     * the one rebuilt from the survivors; it holds only survivors.
     */
    method Rebuild(survivors: seq<Tile>)
      requires forall t :: t in survivors ==> WellPlaced(t.State())
      modifies this
      ensures tiles == old(BoardOf(survivors)) && tiles == BoardOf(survivors) && Valid()
      ensures SnapOf(tiles) == old(SnapOf(BoardOf(survivors)))
      ensures forall t: Tile :: old(allocated(t)) ==> t.State() == old(t.State())
      ensures forall t :: t in tiles.Values ==> t in survivors
    {
      ghost var cells := Cells(survivors);
      tiles := UpdatedTiles(survivors);
      assert Cells(survivors) == cells;
    }

    /**
     * `end_tiles`: a full board loses and is left as it is; otherwise one
     * new tile of value 2 or 4 is placed at rest on a free cell and the
     * game continues.
     */
    method EndTiles() returns (status: Status, ghost c: Cell)
      requires Valid()
      modifies this
      ensures Valid()
      ensures old(|tiles|) == ROWS * COLS ==> status == Lost && tiles == old(tiles)
      ensures old(|tiles|) != ROWS * COLS ==>
        status == Continue && c in tiles && c !in old(tiles) && InGrid(c) &&
        tiles == old(tiles)[c := tiles[c]] && fresh(tiles[c]) &&
        (tiles[c].value == 2 || tiles[c].value == 4) &&
        tiles[c].State() == TileState(tiles[c].value, c.0, c.1, c.1 * RECT_WIDTH, c.0 * RECT_HEIGHT)
      ensures forall t: Tile :: old(allocated(t)) ==> t.State() == old(t.State())
    {
      ValidBounds();
      c := (0, 0);
      if |tiles| == ROWS * COLS {
        return Lost, c;
      }
      var pos := RandomPos(tiles);
      var v :| v in {2, 4};
      assert IsPow2(v) by {
        assert IsPow2(2);
        assert IsPow2(4 / 2);
      }
      AtRestIsWellPlaced(v, pos.0, pos.1);
      var t := new Tile(v, pos.0, pos.1);
      tiles := tiles[pos := t];
      status, c := Continue, pos;
    }
  }

  /**
   * `updated_tiles`: the dictionary cleared and refilled with every
   * surviving tile under its current cell, in list order.
   */
  method UpdatedTiles(survivors: seq<Tile>) returns (m: map<Cell, Tile>)
    ensures m == BoardOf(survivors)
  {
    ghost var cs := Cells(survivors);
    m := map[];
    for i := 0 to |survivors|
      invariant m == MapFrom(cs[..i], survivors[..i])
    {
      var t := survivors[i];
      assert cs[..i + 1][..i] == cs[..i] && survivors[..i + 1][..i] == survivors[..i];
      assert cs[i] == t.Cell();
      m := m[t.Cell() := t];
    }
    assert cs[..|survivors|] == cs && survivors[..|survivors|] == survivors;
  }

  /**
   * `get_random_pos`: some cell of the grid that the board leaves free.
   * The source draws cells at random until one is free; here the cell is
   * any free one, so every property holds whichever is drawn.
   */
  method RandomPos(occupied: map<Cell, Tile>) returns (c: Cell)
    requires forall k :: k in occupied ==> InGrid(k)
    requires |occupied| < ROWS * COLS
    ensures InGrid(c) && c !in occupied
  {
    KeysWithinGrid(occupied);
    AllCellsAreTheGrid();
    c :| c in AllCells && c !in occupied;
  }

  /** `generator_tiles`: a new board with two tiles of value 2, at rest on two different cells. */
  method Generate() returns (board: Board)
    ensures fresh(board) && board.Valid()
    ensures |board.tiles| == 2
    ensures forall k :: k in board.tiles ==>
      fresh(board.tiles[k]) && board.tiles[k].State() == TileState(2, k.0, k.1, k.1 * RECT_WIDTH, k.0 * RECT_HEIGHT)
  {
    board := new Board();
    for i := 0 to 2
      invariant fresh(board) && |board.tiles| == i && board.Valid()
      invariant forall k :: k in board.tiles ==>
        fresh(board.tiles[k]) && board.tiles[k].State() == TileState(2, k.0, k.1, k.1 * RECT_WIDTH, k.0 * RECT_HEIGHT)
    {
      board.ValidBounds();
      var c := RandomPos(board.tiles);
      assert IsPow2(2);
      AtRestIsWellPlaced(2, c.0, c.1);
      var t := new Tile(2, c.0, c.1);
      board.tiles := board.tiles[c := t];
    }
  }
}
