/**
 * A whole move (`move_tiles`): ticks repeat while the last one moved
 * something, then `end_tiles` adds a tile or reports the game lost. The
 * loop ends because every tick that moves something takes a tile off the
 * board or brings one nearer the edge, and no tick takes any tile farther.
 */
module Moves {
  import opened Geometry
  import opened Tiles
  import opened Directions
  import opened TileLists
  import opened Boards
  import opened Engine

  /** Some list of the tiles of a set, each once. */
  ghost function Enumerate(s: set<Tile>): (r: seq<Tile>)
    ensures multiset(r) == multiset(s)
  {
    if s == {} then []
    else
      var t :| t in s;
      [t] + Enumerate(s - {t})
  }

  /** The list holds exactly the tiles of the set. */
  lemma EnumerateMembers(s: set<Tile>)
    ensures forall t :: t in Enumerate(s) <==> t in s
  {
    var r := Enumerate(s);
    forall t ensures t in r <==> t in s {
      assert t in r <==> t in multiset(r);
    }
  }

  /**
   * A tile's share of the termination measure: its distance to the edge
   * plus one while it is on the board, nothing once it has left.
   */
  function Weights(d: Direction, all: seq<Tile>, live: set<Tile>): (ws: seq<int>)
    reads all
    ensures |ws| == |all|
    ensures forall j :: 0 <= j < |all| ==> ws[j] == if all[j] in live then Dist(d, all[j].State()) + 1 else 0
  {
    if all == [] then [] else [if all[0] in live then Dist(d, all[0].State()) + 1 else 0] + Weights(d, all[1..], live)
  }

  /** The termination measure of the `while updated` loop. */
  function Measure(d: Direction, all: seq<Tile>, live: set<Tile>): int
    reads all
  {
    Sum(Weights(d, all, live))
  }

  /** On a board of well-placed tiles the measure is never negative. */
  lemma MeasureNonNegative(d: Direction, all: seq<Tile>, live: set<Tile>)
    requires forall j :: 0 <= j < |all| && all[j] in live ==> WellPlaced(all[j].State())
    ensures Measure(d, all, live) >= 0
  {
    var ws := Weights(d, all, live);
    forall j | 0 <= j < |ws| ensures ws[j] >= 0 {
      if all[j] in live {
        DistInWindow(d, all[j].State());
      }
    }
    SumNonNegative(ws);
  }

  /**
   * One tick inside the loop of a move. Tiles are drawn from `all`, the
   * tiles on the board when the move began, whose values then were `v0`;
   * a tile's value is doubled exactly when it is in `blocks`, so no tile
   * merges twice in one move. A tick that moved something lowers the
   * measure.
   */
  method LoopTick(board: Board, d: Direction, blocks: set<Tile>, ghost all: seq<Tile>, ghost v0: seq<int>)
    returns (updated: bool, blocks': set<Tile>, ghost order: seq<Tile>, ghost s0: Snap, ghost s1: Snap)
    requires board.Valid()
    requires forall t :: t in board.tiles.Values ==> t in all
    requires |v0| == |all| && forall t :: t in blocks ==> t in all
    requires forall j :: 0 <= j < |all| ==> all[j].value == if all[j] in blocks then 2 * v0[j] else v0[j]
    modifies board, board.tiles.Values
    ensures board.Valid()
    ensures forall t :: t in board.tiles.Values ==> t in all
    ensures blocks <= blocks' && forall t :: t in blocks' ==> t in all
    ensures forall j :: 0 <= j < |all| ==> all[j].value == if all[j] in blocks' then 2 * v0[j] else v0[j]
    ensures Measure(d, all, board.tiles.Values) >= 0
    ensures updated ==> Measure(d, all, board.tiles.Values) < old(Measure(d, all, board.tiles.Values))
    ensures !updated ==> Settled(d, board.tiles, blocks')
    ensures s0 == old(SnapOf(board.tiles)) && s1 == SnapOf(board.tiles) && ListsFor(d, s0, order)
    ensures TickOn(d, s0, order, blocks) == TickResult(s1, blocks', updated)
    ensures old(Settled(d, board.tiles, blocks)) ==> !updated
    ensures !updated ==> blocks' == blocks && board.tiles == old(board.tiles)
    ensures !updated ==> forall t :: t in board.tiles.Values ==> t.State() == old(t.State())
  {
    ghost var live := board.tiles.Values;
    ghost var vs := StateValues(StatesOf(all));
    updated, blocks', order, s0, s1 := Tick(board, d, blocks);
    MeasureFalls(d, all, live, board.tiles.Values, updated);
    forall j | 0 <= j < |all|
      ensures all[j].value == if all[j] in blocks' then 2 * v0[j] else v0[j]
    {
      if all[j] !in live {
        assert all[j].value == vs[j];
      }
    }
  }

  /**
   * A tick that takes no tile farther from the edge and, when it moved
   * something, took a tile off the board or nearer the edge, lowers the
   * measure.
   */
  // Every parameter is `new`, for the reason given at Engine.TickShrinks.
  twostate lemma MeasureFalls(new d: Direction, new all: seq<Tile>, new live: set<Tile>, new live': set<Tile>,
                              new updated: bool)
    requires old(allocated(all)) && old(allocated(live))
    requires forall t :: t in live ==> t in all && old(WellPlaced(t.State()))
    requires forall t :: t in live' ==> WellPlaced(t.State())
    requires forall t :: t in live' ==> t in live && Dist(d, t.State()) <= old(Dist(d, t.State()))
    requires updated ==> exists t :: t in live && (t !in live' || Dist(d, t.State()) < old(Dist(d, t.State())))
    ensures Measure(d, all, live') >= 0
    ensures updated ==> Measure(d, all, live') < old(Measure(d, all, live))
  {
    ghost var w := old(Weights(d, all, live));
    ghost var w' := Weights(d, all, live');
    MeasureNonNegative(d, all, live');
    if updated {
      forall j | 0 <= j < |all| ensures w'[j] <= w[j] {
        if all[j] in live {
          DistInWindow(d, old(all[j].State()));
        }
      }
      ghost var t :| t in live && (t !in live' || Dist(d, t.State()) < old(Dist(d, t.State())));
      ghost var k :| 0 <= k < |all| && all[k] == t;
      DistInWindow(d, old(t.State()));
      PointwiseDecrease(w, w', k);
    }
  }

  /**
   * One tick of the reference: `order` is a processing order for the
   * snapshot s, and `TickOn` takes s and the merged-into set `blocks` to
   * s' and blocks', moving something exactly when `moved` holds.
   */
  ghost predicate TickStep(d: Direction, s: Snap, order: seq<Tile>, blocks: set<Tile>, s': Snap, blocks': set<Tile>, moved: bool)
  {
    ListsFor(d, s, order) && TickOn(d, s, order, blocks) == TickResult(s', blocks', moved)
  }

  /**
   * The reference for the ticks of a move, on values: `trace[k + 1]` and
   * `bs[k + 1]` are the snapshot and the merged-into set that `TickOn`
   * makes of `trace[k]` and `bs[k]` in the processing order `orders[k]`.
   * Every tick but the last moved something; the last did exactly when
   * `last` holds.
   */
  ghost predicate Ticks(d: Direction, trace: seq<Snap>, orders: seq<seq<Tile>>, bs: seq<set<Tile>>, last: bool)
  {
    |trace| == |orders| + 1 && |bs| == |orders| + 1 &&
    forall k :: 0 <= k < |orders| ==> TickStep(d, trace[k], orders[k], bs[k], trace[k + 1], bs[k + 1], k < |orders| - 1 || last)
  }

  /** A reference run whose last tick moved something goes on with the next tick. */
  lemma TicksExtend(d: Direction, trace: seq<Snap>, orders: seq<seq<Tile>>, bs: seq<set<Tile>>,
                    order: seq<Tile>, s: Snap, blocks: set<Tile>, moved: bool)
    requires Ticks(d, trace, orders, bs, true)
    requires TickStep(d, trace[|orders|], order, bs[|orders|], s, blocks, moved)
    ensures Ticks(d, trace + [s], orders + [order], bs + [blocks], moved)
  {
    var trace', orders', bs' := trace + [s], orders + [order], bs + [blocks];
    forall k | 0 <= k < |orders'|
      ensures TickStep(d, trace'[k], orders'[k], bs'[k], trace'[k + 1], bs'[k + 1], k < |orders'| - 1 || moved)
    {
      if k < |orders| {
        assert trace'[k] == trace[k] && trace'[k + 1] == trace[k + 1];
        assert orders'[k] == orders[k] && bs'[k] == bs[k] && bs'[k + 1] == bs[k + 1];
      }
    }
  }

  /**
   * The `while updated` loop of `move_tiles`: tick until a tick moves
   * nothing. The tiles on the board stay among `all`, the tiles there when
   * the loop began; `blocks` collects the tiles merged into, each of which
   * holds twice the value it had then (`v0`) while every other tile holds
   * that value; and the loop stops on a settled board.
   */
  method TickUntilStill(board: Board, d: Direction, ghost all: seq<Tile>, ghost v0: seq<int>)
    returns (blocks: set<Tile>, ghost trace: seq<Snap>, ghost orders: seq<seq<Tile>>, ghost bs: seq<set<Tile>>)
    requires board.Valid()
    requires forall t :: t in board.tiles.Values ==> t in all
    requires |v0| == |all| && forall j :: 0 <= j < |all| ==> all[j].value == v0[j]
    modifies board, all
    ensures board.Valid()
    ensures forall t :: t in board.tiles.Values ==> t in all
    ensures forall t :: t in blocks ==> t in all
    ensures forall j :: 0 <= j < |all| ==> all[j].value == if all[j] in blocks then 2 * v0[j] else v0[j]
    ensures Settled(d, board.tiles, blocks)
    ensures Ticks(d, trace, orders, bs, false) && |orders| > 0
    ensures trace[0] == old(SnapOf(board.tiles)) && trace[|orders|] == SnapOf(board.tiles)
    ensures bs[0] == {} && bs[|orders|] == blocks
    ensures old(Settled(d, board.tiles, {})) ==>
      |orders| == 1 && blocks == {} && board.tiles == old(board.tiles) &&
      forall t :: t in board.tiles.Values ==> t.State() == old(t.State())
  {
    ghost var settled := Settled(d, board.tiles, {});
    var updated := true;
    blocks := {};
    trace, orders, bs := [SnapOf(board.tiles)], [], [{}];
    while updated
      invariant board.Valid()
      invariant forall t :: t in board.tiles.Values ==> t in all
      invariant forall t :: t in blocks ==> t in all
      invariant forall j :: 0 <= j < |all| ==> all[j].value == if all[j] in blocks then 2 * v0[j] else v0[j]
      invariant !updated ==> Settled(d, board.tiles, blocks)
      invariant Ticks(d, trace, orders, bs, updated) && (!updated ==> |orders| > 0)
      invariant trace[0] == old(SnapOf(board.tiles)) && trace[|orders|] == SnapOf(board.tiles)
      invariant bs[0] == {} && bs[|orders|] == blocks
      invariant settled ==> blocks == {} && if updated then |orders| == 0 else |orders| == 1 && trace[1] == trace[0]
      decreases updated, Measure(d, all, board.tiles.Values)
    {
      if settled {
        SettledSnap(d, board.tiles, blocks);
      }
      label ticked:
      ghost var order, s0, s1;
      updated, blocks, order, s0, s1 := LoopTick(board, d, blocks, all, v0);
      if settled {
        SnapStates@ticked(board.tiles);
      }
      assert TickStep(d, trace[|orders|], order, bs[|orders|], s1, blocks, updated);
      TicksExtend(d, trace, orders, bs, order, s1, blocks, updated);
      trace, orders, bs := trace + [s1], orders + [order], bs + [blocks];
    }
    if settled {
      SnapStates(board.tiles);
    }
  }

  /** A settled dictionary whose snapshot did not change is still settled. */
  // Every parameter is `new`, for the reason given at Engine.TickShrinks.
  twostate lemma SettledSnap(new d: Direction, new m: map<Cell, Tile>, new blocks: set<Tile>)
    requires old(allocated(m)) && old(allocated(blocks)) && old(Settled(d, m, blocks))
    requires SnapOf(m) == old(SnapOf(m))
    ensures Settled(d, m, blocks)
  {
    SnapStates(m);
    SettledKept(d, m, blocks);
  }

  /**
   * The ticks of `move_tiles`, on the board as it stands: every tile left
   * was on the board before, the tiles of the old board merged into
   * (`blocks`) hold twice their old value and the others their old value,
   * and the board is left settled.
   */
  method Slide(board: Board, d: Direction)
    returns (blocks: set<Tile>, ghost trace: seq<Snap>, ghost orders: seq<seq<Tile>>, ghost bs: seq<set<Tile>>)
    requires board.Valid()
    modifies board, board.tiles.Values
    ensures board.Valid()
    ensures forall t :: t in blocks ==> t in old(board.tiles).Values
    ensures forall t :: t in old(board.tiles).Values ==> t.value == if t in blocks then 2 * old(t.value) else old(t.value)
    ensures forall t :: t in board.tiles.Values ==> t in old(board.tiles).Values
    ensures Settled(d, board.tiles, blocks)
    ensures Ticks(d, trace, orders, bs, false) && |orders| > 0
    ensures trace[0] == old(SnapOf(board.tiles)) && trace[|orders|] == SnapOf(board.tiles)
    ensures bs[0] == {} && bs[|orders|] == blocks
    ensures old(Settled(d, board.tiles, {})) ==>
      |orders| == 1 && blocks == {} && board.tiles == old(board.tiles) &&
      forall t :: t in board.tiles.Values ==> t.State() == old(t.State())
  {
    ghost var all := Enumerate(board.tiles.Values);
    EnumerateMembers(board.tiles.Values);
    ghost var v0 := StateValues(StatesOf(all));
    blocks, trace, orders, bs := TickUntilStill(board, d, all, v0);
    forall t | t in old(board.tiles).Values
      ensures t.value == if t in blocks then 2 * old(t.value) else old(t.value)
    {
      var j :| 0 <= j < |all| && all[j] == t;
    }
  }

  /**
   * `move_tiles`: tick until a tick moves nothing, then `end_tiles`. The
   * board the ticks leave (`slid`) is settled and holds only tiles of the
   * old board; the tiles merged into (`blocks`) hold twice their old value
   * and the others their old value. A full slid board loses the game and
   * stays as it is; otherwise exactly one new tile, of value 2 or 4 and at
   * rest, is added on a cell the slid board left free.
   */
  method MoveTiles(board: Board, d: Direction)
    returns (status: Status, ghost slid: map<Cell, Tile>, ghost blocks: set<Tile>, ghost c: Cell,
             ghost trace: seq<Snap>, ghost orders: seq<seq<Tile>>, ghost bs: seq<set<Tile>>)
    requires board.Valid()
    modifies board, board.tiles.Values
    ensures board.Valid()
    ensures Settled(d, slid, blocks)
    ensures forall t :: t in slid.Values ==> t in old(board.tiles).Values
    ensures forall t :: t in blocks ==> t in old(board.tiles).Values
    ensures forall t :: t in old(board.tiles).Values ==> t.value == if t in blocks then 2 * old(t.value) else old(t.value)
    ensures |slid| == ROWS * COLS ==> status == Lost && board.tiles == slid
    ensures |slid| != ROWS * COLS ==>
      status == Continue && c in board.tiles && c !in slid && InGrid(c) && board.tiles == slid[c := board.tiles[c]] &&
      fresh(board.tiles[c]) && (board.tiles[c].value == 2 || board.tiles[c].value == 4) &&
      board.tiles[c].State() == TileState(board.tiles[c].value, c.0, c.1, c.1 * RECT_WIDTH, c.0 * RECT_HEIGHT)
    ensures Ticks(d, trace, orders, bs, false) && |orders| > 0
    ensures trace[0] == old(SnapOf(board.tiles)) && trace[|orders|].tiles == slid
    ensures forall t :: t in slid.Values ==> t in trace[|orders|].states && t.State() == trace[|orders|].states[t]
    ensures bs[0] == {} && bs[|orders|] == blocks
    ensures old(Settled(d, board.tiles, {})) ==>
      |orders| == 1 && blocks == {} && slid == old(board.tiles) &&
      forall t :: t in slid.Values ==> t.State() == old(t.State())
  {
    blocks, trace, orders, bs := Slide(board, d);
    slid := board.tiles;
    label slidden:
    status, c := board.EndTiles();
    SettledKept@slidden(d, slid, blocks);
  }
}
