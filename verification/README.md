# 2048 slide engine in Dafny

This project models the game engine of a pygame 2048 clone (`main.py`). The board
is a 4x4 grid drawn in an 800x800 window, so each cell is 200 pixels wide. The
board is a dictionary from cell to tile, and tiles are objects holding a value,
a grid position (`row`, `col`) and a pixel position (`x`, `y`).

A slide (`move_tiles`) repeats *ticks* until a tick moves nothing. Each tick:

1. sorts the tiles in the slide's processing order;
2. lets each tile in turn stay, move 20 pixels towards the edge, or merge into
   its neighbour. A merge doubles the neighbour, and the neighbour joins
   `blocks`, the set of tiles merged into during this slide;
3. drops the tiles that merged away;
4. rebuilds the dictionary from the rest (`updated_tiles`).

After the last tick, `end_tiles` either reports a lost game on a full board or
adds a tile of value 2 or 4 on a free cell. `generator_tiles` builds the
starting board with two tiles of value 2.

Modules, one per file:

- `Geometry` (geometry.dfy): the grid constants, cells, and the floor and
  ceiling division `set_pos` uses.
- `Palette` (palette.dfy): the colour table and the exact integer logarithm
  that picks a colour.
- `Tiles` (tile.dfy): the `Tile` class (`__init__`, `get_color`, `set_pos`,
  `move`). It also defines `TileState`, a value snapshot of a tile's fields,
  and `WellPlaced`, the invariant every tile on the board keeps between
  ticks:
  - the value is a power of two, at least 2;
  - `x` and `y` are multiples of 20 inside the window;
  - `row` and `col` are the floor or the ceiling of the pixel position over
    200.
- `Directions` (direction.dfy): the per-direction policy bundle of
  `move_tiles`. That is the sort key and order, the step, the edge test, the
  neighbour lookup, the merge and move distance tests, and the rounding mode.
- `TileLists` (tilelists.dfy): the stable sort of the tiles, the removal loop
  over `tiles_to_remove`, and sums.
- `Boards` (board.dfy): the `Board` class (the dictionary, shared by
  reference), `updated_tiles`, `end_tiles`, `get_random_pos` and
  `generator_tiles`.
- `Engine` (engine.dfy): one tick. `Step` is one iteration of the
  `for tile in sorted_tiles` loop, `Pass` the whole loop, and `Tick` the
  sort, the pass, the removal and the rebuild.
- `Moves` (moves.dfy): the `while updated` loop and `move_tiles`.

The loop terminates because of a measure: the sum, over the tiles present at
the start of the slide, of each tile's distance to the edge plus one, or zero
once the tile has left the board. A tick never raises it, and a tick that
moved something lowers it.

The Python program keeps one dictionary object, mutates tiles in place, and
reads neighbours from the dictionary as it stood at the start of the tick.
The model does the same:

- `Board.tiles` is a `map` field that the rebuild reassigns;
- tiles are heap objects whose fields `Step` updates;
- during a pass, neighbour lookups go to the map captured when the tick
  began. A tile that merged away therefore stays visible to later tiles of
  the same tick.

Randomness is modelled as nondeterministic choice:

- `get_random_pos` returns some free cell;
- `random.choice([2, 4])` picks some value in {2, 4}.

Every contract therefore holds whichever cell and value are drawn.

## Model

| member | source | states |
|---|---|---|
| Geometry.FloorDiv | main.py:65-66 | `math.floor(a / b)` for a positive cell size: the quotient q with q*b <= a < q*b + b |
| Geometry.CeilDiv | main.py:62-63 | `math.ceil(a / b)` for a positive cell size: the quotient q with q*b - b < a <= q*b |
| Geometry.RoundingAgree | main.py:60-66 | floor and ceiling division by the cell size agree exactly when the cell size divides the coordinate, and then they recover the grid coordinate exactly |
| Geometry.RestRecovers | main.py:60-66 | for a tile at rest at grid coordinate n (pixel n*200), both roundings give back n |
| Geometry.AllCellsAreTheGrid | main.py:93-98 | the cells `get_random_pos` can draw (row and column each in range(4)) are exactly the 16 grid cells |
| Geometry.KeysWithinGrid | main.py:185-189 | a board keyed by grid cells has at most 16 entries, and with fewer than 16 some grid cell is free |
| Palette.Log2 | main.py:45 | the integer log of a positive value v is the l with 2^l <= v < 2^(l+1) |
| Palette.Log2OfPow2 | main.py:45 | on a power of two 2^k the logarithm is exactly k |
| Palette.Log2Threshold | main.py:46 | a value reaches 2^k exactly when its logarithm reaches k, which makes the clamp test a threshold on the value |
| Palette.PaletteIndex | main.py:44-46 | the colour index is always a valid palette index; it is log2(value) - 1 below 512 and the last entry (8) from 512 on; value 1 (index -1) selects the last entry, as Python's negative indexing does |
| Palette.ColorOfPowerOfTwo | main.py:44-46 | a tile of value 2^k (k >= 1) gets palette entry min(k - 1, 8) |
| Palette.DoubleIsPow2 | main.py:165 | doubling a power of two (a merge) gives a power of two |
| Tiles.Tile.constructor | main.py:37-42 | a new tile holds the given value and grid position and is at rest: x = col*200, y = row*200 |
| Tiles.AtRestIsWellPlaced | main.py:37-42 | a tile at rest on a grid cell with a power-of-two value of at least 2 meets the board invariant |
| Tiles.WellPlacedInGrid | main.py:60-66 | a tile meeting the invariant lies on a cell of the 4x4 grid |
| Tiles.Tile.Color | main.py:44-46 | `get_color`: value 2 gives the first colour, and every value of 2^9 = 512 or more gives the last |
| Tiles.Tile.SetPos | main.py:60-66 | `set_pos` sets row to y/200 and col to x/200, rounded up when `ceil` is set and down otherwise; only row and col change |
| Tiles.Tile.Move | main.py:68-70 | `move` adds the delta to x and y; only x and y change |
| Directions.NeighbourCell | main.py:113 | the cell `get_next_tile` looks up is never the tile's own cell, and for a grid cell it is off the grid exactly when the tile is on the edge the slide heads to (lines 113, 123, 133, 143) |
| Directions.Delta | main.py:111-141 | the step moves 20 pixels along exactly one axis, horizontally exactly for left and right |
| Directions.Descending | main.py:110-140 | `reverse` is set exactly for the directions whose step is positive (right and down) |
| Directions.ProcessingOrderTotal | main.py:109-140 | the processing order on sort keys is total, and two keys sort both ways round exactly when equal, so the stable sort keeps ties in listing order |
| Directions.NeighbourSortsFirst | main.py:109-143 | the cell `get_next_tile` looks up has a sort key strictly ahead of the tile's own, so a neighbour is processed before the tile |
| Directions.UsesCeil | main.py:116-146 | `ceil` is set exactly when the sort is not reversed (left and up) |
| Directions.AtEdge | main.py:112-142 | `boundary_check`: the tile's column (row) is 0 for left (up) and 3 for right (down) |
| Directions.StillFar | main.py:114-144 | `merge_check`: the neighbour is more than one step (20 pixels) nearer the edge than the tile |
| Directions.HasRoom | main.py:115-145 | `move_check`: the neighbour is more than a cell width plus one step nearer the edge than the tile |
| Directions.AdvanceShortens | main.py:159-173 | a tile that meets the invariant and is not on the edge still meets it after one step and re-rounding (lines 160 and 173), and the step brings it exactly 20 pixels nearer the edge |
| Directions.ResnapKeepsPlaced | main.py:173 | re-rounding a tile in place (the tile that merges away) keeps the invariant |
| Directions.DistInWindow | main.py:108-146 | a tile meeting the invariant is between 0 and 600 pixels from the edge the slide heads to |
| TileLists.InsertKeyed | main.py:151 | inserting one entry into a list sorted for the slide keeps it sorted, and the result has exactly the old entries plus the new one |
| TileLists.SortKeyed | main.py:151 | insertion sort on precomputed keys gives a sorted permutation |
| TileLists.SortKeepsTiles | main.py:151 | sorting on the keys neither loses nor duplicates a tile |
| TileLists.SortTiles | main.py:151 | `sorted(..., key=sort_func, reverse=...)`: the result is ascending by column (row) for left (up) and descending for right (down), and is a permutation of the input |
| TileLists.Without | main.py:176-178 | what the removal loop leaves: only tiles of the list that were not marked, every unmarked tile kept, no longer than the list, and no repeats if the list had none |
| TileLists.WithoutMembers | main.py:176-178 | every tile the removal loop leaves was in the list and unmarked, every unmarked tile of the list is left, and a list without repeats leaves one without repeats |
| TileLists.RemoveFirst | main.py:178 | `list.remove(x)` drops exactly one occurrence of x |
| TileLists.RemoveFromWithout | main.py:177-178 | on a list without repeats, removing a tile that is still present is the same as marking it, and a tile already gone is skipped by the `if t in sorted_tiles` guard |
| TileLists.DropMarked | main.py:176-178 | the removal loop leaves exactly the unmarked tiles in their sorted order |
| TileLists.WithoutSum | main.py:176-178 | the tiles left by the removal loop sum to the values of the unmarked tiles |
| TileLists.MaskedGone | main.py:166 | marking one more tile of a list without repeats takes exactly its value out of the sum of the unmarked tiles |
| Boards.MapFrom | main.py:196-197 | storing the tiles one by one under their cells gives a dictionary whose keys are exactly those cells, each holding a tile stored under it |
| Boards.LastWriteWins | main.py:196-197 | a cell written for the last time at position i holds the i-th tile |
| Boards.MapFromSize | main.py:195-197 | n writes give at most n keys, and exactly n precisely when the n cells are distinct |
| Boards.BoardOf | main.py:194-197 | the rebuilt dictionary keys every tile by its own cell and holds only tiles from the surviving list |
| Boards.BoardOfSize | main.py:194-197 | the rebuilt dictionary holds every survivor exactly when no two survivors share a cell |
| Boards.BoardOfEnumeration | main.py:194-197 | rebuilding from any repeat-free listing of a dictionary whose tiles are keyed by their own cells gives that dictionary back |
| Boards.UpdatedTiles | main.py:194-197 | the clear-and-refill loop builds exactly the dictionary `BoardOf` describes |
| Boards.Board.Rebuild | main.py:194-197 | after `updated_tiles` the board keys every tile by its own cell, holds only survivors, and meets the board invariant; no tile's fields change, so the new dictionary's snapshot (entries plus tile fields) is the snapshot `BoardOf(survivors)` had before the call |
| Boards.SnapStates | main.py:194-197 | a dictionary's snapshot is unchanged exactly when every tile in it keeps its fields |
| Boards.Board.Values | main.py:151 | `tiles.values()` lists every tile of the board, one per entry, without repeats when no tile is stored twice |
| Boards.Board.ValidBounds | main.py:186 | a board meeting the invariant has all keys on the grid, at most 16 tiles, and a free cell unless it has 16 |
| Boards.Board.EndTiles | main.py:185-191 | with 16 tiles: `Lost` and the board unchanged; otherwise `Continue`, with exactly one new entry at a previously free grid cell (the ghost result `c`), holding a new tile of value 2 or 4 at rest there, and the invariant kept; no existing tile's fields change |
| Boards.RandomPos | main.py:93-98 | `get_random_pos` returns a grid cell not on the board |
| Boards.Board.constructor | main.py:202 | the board starts empty |
| Boards.Generate | main.py:201-206 | `generator_tiles` gives a board meeting the invariant with exactly two entries, hence two distinct cells, each a new tile of value 2 at rest on its cell |
| Engine.Decide | main.py:155-171 | a tile on the edge stays; a tile not on the edge whose neighbour cell is empty moves; a merge needs equal values, neither tile in `blocks`, and the neighbour within one step; a tile not on the edge stays only when the neighbour is too close and cannot be merged with |
| Engine.Step | main.py:154-173 | one loop iteration: the tile reaches the state its outcome gives (a step plus re-rounding, a re-rounding only, or unchanged); the neighbour doubles on a merge and is otherwise unchanged |
| Engine.StepTile | main.py:155-173 | the neighbour is exactly the tile the dictionary of the tick's start holds at the looked-up cell, or none when that cell is empty (line 158); the branch taken is `Choice`, that is `Decide` on the tile's state, that neighbour's state and the current `blocks`; only the tile and its neighbour change |
| Engine.NbrIdx | main.py:158 | the position in the processing order of the tile `get_next_tile` finds, and -1 exactly when the looked-up cell is empty or holds a tile not in the processing order |
| Engine.StepKeepsQuiet | main.py:154-174 | while no tile has moved, the states are still those the tick started with, so the next tile's choice is the one it would make at the start of the tick |
| Engine.QuietSettled | main.py:154-174 | if every tile chose `Stay` on the states the tick started with, the board is settled |
| Engine.StepKeepsConserved | main.py:161-167 | a merge doubles the neighbour and marks the mover, so the unmarked tiles keep their total value (unless a marked tile was merged into) |
| Engine.StepStateFacts | main.py:155-173 | one step of the reference `StepState` takes the tile to the state its `Choice` gives and doubles the neighbour exactly on a merge, which needs equal values and neither tile in `blocks`; an edge tile stays, and no other state changes |
| Engine.PassFromKeepsInv | main.py:154-174 | the reference `PassFrom`, run from position i of the order in a state meeting the pass invariant, ends in a state meeting it for the whole order, with the outcomes of the remaining tiles appended |
| Engine.MovedFrom | main.py:154-174 | once a tile has moved, `updated` stays set to the end of the pass |
| Engine.UnmovedFrom | main.py:154-174 | a rest of the pass that sets nothing moved changes nothing at all |
| Engine.QuietFrom | main.py:154-174 | when every remaining tile chooses `Stay`, the rest of the pass leaves the states, `blocks` and the removal list as they were |
| Engine.StepAt | main.py:154-174 | one iteration keeps the pass invariant: processed tiles sit where their outcomes put them, exactly the merged-away tiles are marked, and each newly merged-into tile has doubled once. The outcome recorded is the tile's `Choice` at that point of the pass, and while nothing has moved every tile so far chose `Stay` on the states the tick started with |
| Engine.TargetKeepsPlaced | main.py:159-173 | a tile that did not merge away keeps the invariant through the tick, even after being doubled |
| Engine.PassSummary | main.py:154-174 | after the whole `for` loop:<br>- edge tiles neither moved nor were marked;<br>- unmarked tiles keep the invariant and are no farther from the edge;<br>- `updated` means some tile was marked or came nearer, and otherwise nothing changed;<br>- each newly merged-into tile has doubled once, and as many tiles were marked as merged into;<br>- the unmarked tiles hold the total value (unless a marked tile was merged into) |
| Engine.PassOfEffect | main.py:154-174 | the reference pass `PassOf` from a well-placed tick start has every effect `PassSummary` lists (`TickEffect`): edge tiles stay, unmarked tiles come no farther, `updated` exactly reflects a removal or an advance, and each newly merged-into tile doubles once |
| Engine.SettledQuiet | main.py:148-174 | on a settled board the reference pass changes no state, no `blocks` and removes nothing |
| Engine.QuietWhenSettled | main.py:148-174 | on a settled board the pass sets nothing moved, and a pass that sets nothing moved leaves states, `blocks` and the removal list untouched |
| Engine.Pass | main.py:154-174 | the `for tile in sorted_tiles` loop processes every tile once with the effect `PassSummary` states. When nothing moved, every tile is still keyed by its own cell and the board is settled: for each tile, `Decide` on its dictionary neighbour and the final `blocks` gives `Stay` |
| Engine.PassLoop | main.py:154-174 | the loop ends in exactly the state the reference `PassOf` gives for the tick-start dictionary, order and states: the tiles' new states, the new `blocks`, the removal list and `updated` |
| Engine.Order | main.py:151 | the board's tiles, each once, sorted in the slide's processing order, each stored under its own cell and meeting the invariant; the list is a processing order (`ListsFor`) of the board's snapshot |
| Engine.RankedIff | main.py:151 | the recursive processing-order predicate holds exactly when the list has no repeats, every tile in it has a recorded state, and each tile's sort key comes no later than that of every tile after it |
| Engine.SortedLists | main.py:151 | a repeat-free, sorted listing of exactly a dictionary's tiles is a processing order of its snapshot |
| Engine.Survivors | main.py:176-180 | the survivors all meet the invariant, and after a tick that moved nothing the rebuild gives the same dictionary back |
| Engine.TickShrinks | main.py:148-178 | every survivor was on the board and is no farther from the edge; a tick that moved something removed a tile or brought one nearer; a value doubled exactly when its tile was newly merged into |
| Engine.PassAndDrop | main.py:151-178 | the pass and the removal loop: the survivors meet the invariant and the `TickShrinks` facts hold of them. The snapshot of `BoardOf(survivors)`, the new `blocks` and `updated` are exactly what the reference tick `TickOn` gives for the starting snapshot and order. A quiet tick leaves every tile's fields as they were, the board settled, and a list that rebuilds the same dictionary |
| Engine.TickInOrder | main.py:151-180 | the pass, the removal and the rebuild over a given processing order: the new board's snapshot, `blocks` and `updated` are exactly `TickOn` of the starting snapshot and order, and the facts `Engine.Tick` states hold |
| Engine.SettledKept | main.py:194-197 | settledness depends only on the dictionary and its tiles' fields, so a rebuild or an insertion that leaves those tiles alone keeps it |
| Engine.Tick | main.py:148-180 | one `while updated` pass: for some processing order of the starting snapshot (the ghost `order`), the snapshots before and after (`s0`, `s1`), the new `blocks` and `updated` are exactly `TickOn`. A pass on a settled board moves nothing. It keeps the board invariant; tiles left on the board were on it before and are no farther from the edge; if it moved something, a tile left the board or came nearer the edge; `blocks` only grows, and a value doubled exactly when its tile newly joined `blocks`. A pass that moved nothing leaves `blocks`, the dictionary and every tile's fields as they were, and the board settled |
| Engine.TickShown | main.py:151-197 | the heap effect of the pass, the removal and the rebuild, read on snapshots, is exactly `TickOn` of the old snapshot |
| Engine.RebuiltIs | main.py:176-197 | the reference rebuild `Rebuilt` of a pass is the snapshot of the dictionary `updated_tiles` builds from the unmarked tiles |
| Engine.RowCollision | main.py:148-197 | the row 2, 2, 4, 4 slid left, at its tenth tick, computed by the reference `TickOn`: the list is a processing order of the snapshot; the first 2 stays, the second 2 merges into it, the first 4 stays because the merged-away 2 is still in the dictionary, and the second 4 steps onto the first 4's cell; the result is the dictionary {(0,0): first 2, now 4; (0,2): second 4}, `blocks` = {first 2}, and `updated` set |
| Engine.RowPass | main.py:154-174 | the reference pass over that row ends with the states 4@0, 2@20 (merged away), 4@240 and 4@400, `blocks` = {first 2}, the second 2 marked, and `updated` set |
| Moves.MeasureNonNegative | main.py:148 | the loop's termination measure is never negative |
| Moves.LoopTick | main.py:148-180 | one pass inside the slide: it is one `TickOn` step between the snapshots before and after, for some processing order; on a settled board it moves nothing, and a pass that moved nothing leaves the board, `blocks` and every tile's fields unchanged and the board settled. Every tile present at the start of the slide holds its starting value, or twice that exactly when it is in `blocks`; a pass that moved something lowers the measure |
| Moves.MeasureFalls | main.py:148 | when survivors are old tiles no farther from the edge, the measure stays non-negative, and a tick that removed a tile or brought one nearer lowers it |
| Moves.TicksExtend | main.py:148-180 | a run of ticks that all moved, followed by one more `TickOn` step, is a run of ticks; the run is finished (its last tick quiet) exactly when that step moved nothing |
| Moves.SettledSnap | main.py:148-197 | settledness depends only on the snapshot: a dictionary whose snapshot is unchanged stays settled |
| Moves.TickUntilStill | main.py:148-180 | the `while updated` loop terminates and keeps the invariant. The ghost `trace` is a run of `TickOn` steps from the starting snapshot to the final one, every tick but the last moving something and the last moving nothing, with `blocks` growing from {} to the result. On a settled board exactly one tick runs and nothing changes. `blocks` holds only tiles of the starting board, and each of those ends with twice its starting value exactly when it is in `blocks` and with its starting value otherwise, so no tile merges twice in one slide. The loop ends on a settled board: every tile's `Decide` gives `Stay` |
| Moves.Slide | main.py:104-180 | the ticks of one slide: the same run of `TickOn` steps as `TickUntilStill`, and nothing changes on a settled board. The board keeps the invariant and tiles only leave it. The returned `blocks` holds only old tiles, and an old tile ends with twice its value exactly when it is in `blocks`. The board the slide leaves is settled |
| Moves.MoveTiles | main.py:104-191 | `move_tiles`: the board keeps the invariant. The ghost result `slid` is the board the slide leaves before `end_tiles`: the last snapshot of a run of `TickOn` steps from the starting board, each tile holding the state recorded there; on a settled board `slid` is the old board and no tile changed. `slid` is settled under `blocks` and holds only old tiles. An old tile ends with twice its value exactly when it is in `blocks`. If `slid` has 16 entries, `Lost` and the board is `slid`; otherwise `Continue`, and the board is `slid` plus exactly one entry at a cell free in `slid` (the ghost result `c`), a new tile of value 2 or 4 at rest there |

## Left out

- Drawing (`Tile.draw`, `draw_grid`, `draw`), the `draw` call at the end of
  `updated_tiles`, the frame clock (`clock.tick(FPS)`), fonts and windows:
  pygame I/O with no effect on the board.
- `main`, `start_screen` and `game_over_screen`: event polling and screen
  flow.
- The probability distributions of `random.randrange` and `random.choice`,
  and the `while True` retry loop of `get_random_pos`. The cell is any free
  cell and the value any of {2, 4}. Whether the retry loop terminates is
  therefore not modelled.
- Palette.PaletteIndex: the floating-point `math.log2` is replaced by the
  exact integer logarithm rounded down. The two agree on the powers of two
  that tiles hold; for huge non-powers of two the float can round up.
- String keys `f'{row}{col}'`: the key is the pair (row, col). On a 4x4 grid
  the string is an injective function of the pair.
- Direction strings other than `'left'`, `'right'`, `'up'` and `'down'`: the
  source fails on them (its policy variables stay unbound). The model's
  direction is an enumeration of the four.
- Dictionary insertion order. Python's `sorted` is stable over the order in
  which `tiles.values()` lists the tiles. The model sorts stably over some
  listing of the board, not necessarily the insertion order. Which tile wins
  when two survivors share a cell can therefore differ from the source.
  The reference tick `Engine.TickOn` and the run `Moves.Ticks` therefore
  take the processing order as a parameter: any listing that
  `Engine.ListsFor` accepts.
- Engine.Pass: value conservation is stated only for the surviving list of
  the tick, and only when no tile marked for removal was itself merged into
  later in the same tick. It is not stated for the rebuilt board.
  `Boards.BoardOfSize` shows why: the rebuild keeps only the last survivor
  listed under a cell, and two survivors can end a tick on the same cell.
  `Engine.RowCollision` proves such a tick: a row 2, 2, 4, 4 at rest, slid
  left. At the tenth tick the second 2 merges into the first, and the first
  4 is blocked by the merged-away 2, which is still in the dictionary. The
  second 4 steps to x = 400, which rounds to column 2, the first 4's cell.
  The rebuild keeps only the second 4, so the board's total drops from 12
  to 8. The model keeps this behaviour as written rather than correcting it,
  since the source does not settle which tile should win.
- Moves.MoveTiles: for the same reason, it does not claim that a slide keeps
  the board's total value. It claims that every tile keeps its value or
  doubles it, and that no tile doubles twice in one slide.
- Tiles.Tile.Color: requires a value of at least 1. `math.log2` fails on 0
  and negative values, and board tiles always hold at least 2.
