/**
 * One tick of a slide (`move_tiles`, one pass of its `while updated`
 * loop): sort the tiles, let each in turn move one step, merge into its
 * neighbour or stay, drop the tiles that merged away, and rebuild the
 * dictionary from the rest. The loop around the ticks is in `Moves`.
 */
module Engine {
  import opened Geometry
  import opened Palette
  import opened Tiles
  import opened Directions
  import opened TileLists
  import opened Boards

  datatype Option<T> = None | Some(value: T)

  /** What one tile does in one tick. */
  datatype Outcome = Stay | Slide | Merge

  /**
   * The branch one tile takes in a tick, from its own state, its
   * neighbour's state (if the neighbouring cell holds a tile), and whether
   * each of the two has already been merged into during this slide.
   */
  function Decide(d: Direction, s: TileState, next: Option<TileState>, blocked: bool, nextBlocked: bool): (o: Outcome)
    ensures AtEdge(d, s) ==> o == Stay
    ensures !AtEdge(d, s) && next.None? ==> o == Slide
    ensures o == Merge ==>
      next.Some? && next.value.value == s.value && !blocked && !nextBlocked && !StillFar(d, s, next.value)
    ensures o == Stay && !AtEdge(d, s) ==>
      next.Some? && !HasRoom(d, s, next.value) &&
      (next.value.value != s.value || blocked || nextBlocked)
  {
    if AtEdge(d, s) then Stay
    else match next
      case None => Slide
      case Some(n) =>
        if s.value == n.value && !blocked && !nextBlocked then
          if StillFar(d, s, n) then Slide else Merge
        else if HasRoom(d, s, n) then Slide
        else Stay
  }

  /** The tile a neighbour lookup found, as a frame. */
  function Maybe(t: Tile?): set<Tile> {
    if t == null then {} else {t}
  }

  function StateOf(t: Tile?): Option<TileState>
    reads Maybe(t)
  {
    if t == null then None else Some(t.State())
  }

  /** Two tile states at the same pixel and grid position (values aside). */
  predicate SamePlace(a: TileState, b: TileState) {
    a.x == b.x && a.y == b.y && a.row == b.row && a.col == b.col
  }

  /** The state a tile reaches from `s` by the given outcome. */
  function Target(d: Direction, s: TileState, o: Outcome): TileState {
    match o
    case Stay => s
    case Slide => Advanced(d, s)
    case Merge => Resnapped(d, s)
  }

  /**
   * The body of the `for tile in sorted_tiles` loop for one tile `t` whose
   * neighbour lookup gave `next`: stay, move one step and re-round, or
   * double the neighbour and re-round in place.
   */
  method Step(d: Direction, t: Tile, next: Tile?, blocks: set<Tile>) returns (o: Outcome)
    requires next != t
    modifies t, Maybe(next)
    ensures o == Decide(d, old(t.State()), old(StateOf(next)), t in blocks, next != null && next in blocks)
    ensures t.State() == Target(d, old(t.State()), o)
    ensures next != null ==>
      next.State() == old(next.State()).(value := if o == Merge then 2 * old(next.value) else old(next.value))
  {
    o := Decide(d, t.State(), StateOf(next), t in blocks, next != null && next in blocks);
    match o
    case Stay =>
    case Slide =>
      t.Move(Delta(d).0, Delta(d).1);
      t.SetPos(UsesCeil(d));
    case Merge =>
      next.value := next.value * 2;
      t.SetPos(UsesCeil(d));
  }

  function StatesOf(ts: seq<Tile>): (ss: seq<TileState>)
    reads ts
    ensures |ss| == |ts| && forall j :: 0 <= j < |ts| ==> ss[j] == ts[j].State()
  {
    if ts == [] then [] else [ts[0].State()] + StatesOf(ts[1..])
  }

  function StateValues(ss: seq<TileState>): (vs: seq<int>)
    ensures |vs| == |ss| && forall j :: 0 <= j < |ss| ==> vs[j] == ss[j].value
  {
    if ss == [] then [] else [ss[0].value] + StateValues(ss[1..])
  }

  /** The states of a list of tiles, read off one by one. */
  lemma StatesOfMatch(ts: seq<Tile>, ss: seq<TileState>)
    requires |ss| == |ts| && forall j :: 0 <= j < |ts| ==> ts[j].State() == ss[j]
    ensures StatesOf(ts) == ss
  {
  }

  /** The first position of x in s. */
  function IndexOf<T(==)>(s: seq<T>, x: T): (r: int)
    requires x in s
    ensures 0 <= r < |s| && s[r] == x
  {
    if s[0] == x then 0 else 1 + IndexOf(s[1..], x)
  }

  /**
   * The position in the processing order of the tile `get_next_tile`
   * finds in the dictionary `tiles` for a tile in state s, or -1 when the
   * cell it looks up is empty.
   */
  function NbrIdx(d: Direction, tiles: map<Cell, Tile>, order: seq<Tile>, s: TileState): (r: int)
    ensures -1 <= r < |order|
    ensures r >= 0 ==> NeighbourCell(d, s) in tiles && order[r] == tiles[NeighbourCell(d, s)]
    ensures r < 0 ==> NeighbourCell(d, s) !in tiles || tiles[NeighbourCell(d, s)] !in order
  {
    var c := NeighbourCell(d, s);
    if c in tiles && tiles[c] in order then IndexOf(order, tiles[c]) else -1
  }

  /**
   * The branch tile j takes (`Decide`) when the tiles' states are `states`,
   * its neighbour is looked up in `tiles`, and `blocks` holds the tiles
   * merged into so far.
   */
  function Choice(d: Direction, tiles: map<Cell, Tile>, order: seq<Tile>, states: seq<TileState>,
                  blocks: set<Tile>, j: int): Outcome
    requires |states| == |order| && 0 <= j < |order|
  {
    var r := NbrIdx(d, tiles, order, states[j]);
    Decide(d, states[j], if r >= 0 then Some(states[r]) else None, order[j] in blocks, r >= 0 && order[r] in blocks)
  }

  /**
   * The tile `get_next_tile` finds for t in the dictionary m, or null.
   */
  function NeighbourOf(d: Direction, m: map<Cell, Tile>, t: Tile): (n: Tile?)
    reads t
    ensures n != null ==> n in m.Values
  {
    var c := NeighbourCell(d, t.State());
    if c in m then m[c] else null
  }

  /**
   * A settled board: with `blocks` the tiles merged into so far, every tile
   * of the dictionary would stay where it is in one more tick, neither
   * moving nor merging.
   */
  ghost predicate Settled(d: Direction, m: map<Cell, Tile>, blocks: set<Tile>)
    reads m.Values
  {
    forall k {:trigger StaysPut(d, m, blocks, k)} :: k in m ==> StaysPut(d, m, blocks, k)
  }

  /** The tile under key k would take the branch `Stay`. */
  ghost predicate StaysPut(d: Direction, m: map<Cell, Tile>, blocks: set<Tile>, k: Cell)
    requires k in m
    reads m.Values
  {
    var n := NeighbourOf(d, m, m[k]);
    Decide(d, m[k].State(), StateOf(n), m[k] in blocks, n != null && n in blocks) == Stay
  }

  /**
   * If every tile of a listing of the dictionary takes the branch `Stay`
   * in the tiles' current states, the dictionary is settled.
   */
  lemma QuietSettled(d: Direction, m: map<Cell, Tile>, order: seq<Tile>, states: seq<TileState>, blocks: set<Tile>)
    requires forall t :: t in order <==> t in m.Values
    requires |states| == |order| && forall j :: 0 <= j < |order| ==> order[j].State() == states[j]
    requires forall j :: 0 <= j < |order| ==> Choice(d, m, order, states, blocks, j) == Stay
    ensures Settled(d, m, blocks)
  {
    forall k | k in m ensures StaysPut(d, m, blocks, k) {
      assert m[k] in m.Values;
      var j :| 0 <= j < |order| && order[j] == m[k];
      var n := NeighbourOf(d, m, m[k]);
      var r := NbrIdx(d, m, order, states[j]);
      if n != null {
        assert r >= 0;
        assert states[r] == n.State();
      }
      assert Choice(d, m, order, states, blocks, j) == Stay;
    }
  }

  /** Two positions holding the same entry of a list without repetitions are one. */
  lemma DistinctIndex<T>(s: seq<T>, a: int, b: int)
    requires Distinct(s) && 0 <= a < |s| && 0 <= b < |s| && s[a] == s[b]
    ensures a == b
  {
  }

  /*
   * The state of a tick after its first i tiles, as values: `before` and
   * `now` are the tiles' states at the start of the tick and at this point,
   * `outcomes` what each processed tile did, `removed` the tiles marked for
   * removal, `cur` the tiles merged into so far in this slide (starting
   * from `blocks`), `moved` the tick's `updated` flag.
   */

  /** Processed tiles are where their outcome put them; the rest have not moved. */
  ghost predicate Placed(d: Direction, before: seq<TileState>, i: int, now: seq<TileState>, outcomes: seq<Outcome>)
    requires 0 <= i <= |before| == |now| && |outcomes| == i
  {
    (forall j :: 0 <= j < i ==> SamePlace(now[j], Target(d, before[j], outcomes[j]))) &&
    (forall j :: 0 <= j < i ==> AtEdge(d, before[j]) ==> outcomes[j] == Stay) &&
    (forall j :: 0 <= j < i ==> outcomes[j] == Slide ==> !AtEdge(d, before[j])) &&
    (forall j :: i <= j < |now| ==> SamePlace(now[j], before[j]))
  }

  /** Exactly the processed tiles that merged away are marked for removal. */
  ghost predicate Marked(order: seq<Tile>, i: int, outcomes: seq<Outcome>, removed: seq<Tile>)
    requires 0 <= i <= |order| && |outcomes| == i
  {
    (forall j :: 0 <= j < i ==> (order[j] in removed <==> outcomes[j] == Merge)) &&
    (forall j :: i <= j < |order| ==> order[j] !in removed) &&
    (forall r :: 0 <= r < |removed| ==> removed[r] in order)
  }

  /** Each tile merged into during this tick has been doubled once; no other value changed. */
  ghost predicate Doubled(order: seq<Tile>, blocks: set<Tile>, before: seq<TileState>, now: seq<TileState>,
                          removed: seq<Tile>, cur: set<Tile>)
    requires |order| == |before| == |now|
  {
    (forall j :: 0 <= j < |order| ==>
      now[j].value == if order[j] in cur - blocks then 2 * before[j].value else before[j].value) &&
    blocks <= cur && (forall t :: t in cur - blocks ==> t in order) && |cur - blocks| == |removed|
  }

  /**
   * Unless a tile marked for removal was merged into, the tiles not marked
   * hold the total value the tick started with.
   */
  ghost predicate Conserved(order: seq<Tile>, before: seq<TileState>, now: seq<TileState>,
                            removed: seq<Tile>, cur: set<Tile>)
    requires |order| == |before| == |now|
  {
    (forall r :: 0 <= r < |removed| ==> removed[r] !in cur) ==>
      MaskedSum(StateValues(now), order, removed) == Sum(StateValues(before))
  }

  ghost predicate PassInv(d: Direction, order: seq<Tile>, blocks: set<Tile>, before: seq<TileState>, i: int,
                          now: seq<TileState>, outcomes: seq<Outcome>, removed: seq<Tile>, cur: set<Tile>, moved: bool)
  {
    0 <= i <= |order| && |order| == |before| == |now| && |outcomes| == i &&
    Placed(d, before, i, now, outcomes) &&
    Marked(order, i, outcomes, removed) &&
    Doubled(order, blocks, before, now, removed, cur) &&
    Conserved(order, before, now, removed, cur) &&
    (moved <==> exists j :: 0 <= j < i && outcomes[j] != Stay)
  }

  /** A tick starts with nothing processed. */
  lemma PassInvInit(d: Direction, order: seq<Tile>, blocks: set<Tile>, before: seq<TileState>)
    requires |order| == |before|
    ensures PassInv(d, order, blocks, before, 0, before, [], [], blocks, false)
  {
    MaskedNone(StateValues(before), order);
  }

  /*
   * What one call of `Step` does to the tick's values: tile i reaches its
   * target, its neighbour m (if any) is doubled on a merge, nothing else
   * changes, and a merge happened only under the conditions `Decide` sets.
   */
  ghost predicate StepFacts(d: Direction, order: seq<Tile>, cur: set<Tile>, i: int, now: seq<TileState>,
                            o: Outcome, hasNext: bool, m: int, now': seq<TileState>)
  {
    0 <= i < |order| == |now| == |now'| &&
    (hasNext ==> 0 <= m < |order| && m != i) &&
    (o == Merge ==> hasNext && now[i].value == now[m].value && order[i] !in cur && order[m] !in cur) &&
    (AtEdge(d, now[i]) ==> o == Stay) &&
    now'[i] == Target(d, now[i], o) &&
    (hasNext ==> now'[m] == now[m].(value := if o == Merge then 2 * now[m].value else now[m].value)) &&
    (forall j :: 0 <= j < |now| && j != i && (!hasNext || j != m) ==> now'[j] == now[j])
  }

  lemma StepKeepsPlaced(d: Direction, before: seq<TileState>, i: int, now: seq<TileState>, outcomes: seq<Outcome>,
                        order: seq<Tile>, cur: set<Tile>, o: Outcome, hasNext: bool, m: int, now': seq<TileState>)
    requires 0 <= i < |before| == |now| && |outcomes| == i
    requires Placed(d, before, i, now, outcomes)
    requires StepFacts(d, order, cur, i, now, o, hasNext, m, now')
    ensures Placed(d, before, i + 1, now', outcomes + [o])
  {
    var os := outcomes + [o];
    forall j | 0 <= j < i + 1 ensures SamePlace(now'[j], Target(d, before[j], os[j])) {
      if j == i {
        assert SamePlace(now[i], before[i]);
      }
    }
  }

  lemma StepKeepsMarked(order: seq<Tile>, i: int, outcomes: seq<Outcome>, removed: seq<Tile>, o: Outcome)
    requires Distinct(order) && 0 <= i < |order| && |outcomes| == i
    requires Marked(order, i, outcomes, removed)
    ensures Marked(order, i + 1, outcomes + [o], if o == Merge then removed + [order[i]] else removed)
  {
  }

  lemma StepKeepsDoubled(d: Direction, order: seq<Tile>, blocks: set<Tile>, before: seq<TileState>,
                         removed: seq<Tile>, cur: set<Tile>, i: int, now: seq<TileState>,
                         o: Outcome, hasNext: bool, m: int, now': seq<TileState>)
    requires |order| == |before| == |now| && Distinct(order)
    requires Doubled(order, blocks, before, now, removed, cur)
    requires StepFacts(d, order, cur, i, now, o, hasNext, m, now')
    ensures Doubled(order, blocks, before, now',
                    if o == Merge then removed + [order[i]] else removed,
                    if o == Merge then cur + {order[m]} else cur)
  {
    if o == Merge {
      assert (cur + {order[m]}) - blocks == (cur - blocks) + {order[m]};
    }
  }

  lemma StepKeepsConserved(d: Direction, order: seq<Tile>, before: seq<TileState>, outcomes: seq<Outcome>,
                           removed: seq<Tile>, cur: set<Tile>, i: int, now: seq<TileState>,
                           o: Outcome, hasNext: bool, m: int, now': seq<TileState>)
    requires |order| == |before| == |now| && Distinct(order) && 0 <= i <= |order| && |outcomes| == i
    requires Marked(order, i, outcomes, removed)
    requires Conserved(order, before, now, removed, cur)
    requires StepFacts(d, order, cur, i, now, o, hasNext, m, now')
    ensures Conserved(order, before, now',
                      if o == Merge then removed + [order[i]] else removed,
                      if o == Merge then cur + {order[m]} else cur)
  {
    var vals := StateValues(now);
    if o == Merge {
      var removed', cur' := removed + [order[i]], cur + {order[m]};
      if forall r :: 0 <= r < |removed'| ==> removed'[r] !in cur' {
        forall r | 0 <= r < |removed| ensures removed[r] !in cur && removed[r] != order[m] {
          assert removed'[r] == removed[r];
        }
        assert order[i] !in removed;
        var vals' := vals[m := 2 * vals[m]];
        assert StateValues(now') == vals';
        MaskedUpdate(vals, order, removed, m, 2 * vals[m]);
        MaskedGone(vals', order, removed, i);
        assert MaskedSum(vals', order, removed') == MaskedSum(vals, order, removed) + vals[m] - vals[i];
      }
    } else {
      assert StateValues(now') == vals;
    }
  }

  lemma StepKeepsPassInv(d: Direction, order: seq<Tile>, blocks: set<Tile>, before: seq<TileState>, i: int,
                         now: seq<TileState>, outcomes: seq<Outcome>, removed: seq<Tile>, cur: set<Tile>, moved: bool,
                         o: Outcome, hasNext: bool, m: int, now': seq<TileState>)
    requires Distinct(order) && i < |order|
    requires PassInv(d, order, blocks, before, i, now, outcomes, removed, cur, moved)
    requires StepFacts(d, order, cur, i, now, o, hasNext, m, now')
    ensures PassInv(d, order, blocks, before, i + 1, now', outcomes + [o],
                    if o == Merge then removed + [order[i]] else removed,
                    if o == Merge then cur + {order[m]} else cur,
                    moved || o != Stay)
  {
    StepKeepsPlaced(d, before, i, now, outcomes, order, cur, o, hasNext, m, now');
    StepKeepsMarked(order, i, outcomes, removed, o);
    StepKeepsDoubled(d, order, blocks, before, removed, cur, i, now, o, hasNext, m, now');
    StepKeepsConserved(d, order, before, outcomes, removed, cur, i, now, o, hasNext, m, now');
    var os := outcomes + [o];
    assert (moved || o != Stay) <==> exists j :: 0 <= j < i + 1 && os[j] != Stay by {
      if o != Stay {
        assert os[i] != Stay;
      }
      if moved {
        var j :| 0 <= j < i && outcomes[j] != Stay;
        assert os[j] != Stay;
      }
    }
  }

  /** One call of `Step` determines the tiles' states after it. */
  lemma StepFactsUnique(d: Direction, order: seq<Tile>, cur: set<Tile>, i: int, now: seq<TileState>,
                        o: Outcome, hasNext: bool, m: int, now1: seq<TileState>, now2: seq<TileState>)
    requires StepFacts(d, order, cur, i, now, o, hasNext, m, now1)
    requires StepFacts(d, order, cur, i, now, o, hasNext, m, now2)
    ensures now1 == now2
  {
    forall j | 0 <= j < |now1| ensures now1[j] == now2[j] {
    }
  }

  /**
   * Where a tick stands after some of its tiles: the tiles' states, the
   * tiles merged into so far in the slide, the tiles marked for removal,
   * and whether anything has happened yet (`updated`).
   */
  datatype PassState = PassState(states: seq<TileState>, cur: set<Tile>, removed: seq<Tile>, moved: bool)

  /**
   * The reference for one iteration of the `for tile in sorted_tiles`
   * loop, on values: tile i takes its branch (`Choice`, with its neighbour
   * looked up in the dictionary `tiles` of the tick's start) and reaches
   * that branch's target; on a merge the neighbour doubles and joins the
   * merged-into set, and the tile is marked for removal.
   */
  function StepState(d: Direction, tiles: map<Cell, Tile>, order: seq<Tile>, p: PassState, i: int): (q: PassState)
    requires |p.states| == |order| && 0 <= i < |order|
    ensures |q.states| == |order|
  {
    var o := Choice(d, tiles, order, p.states, p.cur, i);
    var r := NbrIdx(d, tiles, order, p.states[i]);
    var states := p.states[i := Target(d, p.states[i], o)];
    if o == Merge && r >= 0 then
      PassState(states[r := p.states[r].(value := 2 * p.states[r].value)], p.cur + {order[r]}, p.removed + [order[i]], true)
    else
      PassState(states, p.cur, p.removed, p.moved || o != Stay)
  }

  /** The reference for the loop from tile i of the processing order on. */
  function PassFrom(d: Direction, tiles: map<Cell, Tile>, order: seq<Tile>, p: PassState, i: int): (q: PassState)
    requires |p.states| == |order| && 0 <= i <= |order|
    ensures |q.states| == |order|
    decreases |order| - i
  {
    if i == |order| then p else PassFrom(d, tiles, order, StepState(d, tiles, order, p, i), i + 1)
  }

  /**
   * The reference for the whole loop of one tick: from the states the
   * tiles had when the tick began (`before`, in processing order) and the
   * tiles merged into earlier in the slide (`blocks`).
   */
  function PassOf(d: Direction, tiles: map<Cell, Tile>, order: seq<Tile>, before: seq<TileState>, blocks: set<Tile>): PassState
    requires |before| == |order|
  {
    PassFrom(d, tiles, order, PassState(before, blocks, [], false), 0)
  }

  /**
   * The reference step does what one call of `Step` does on the tile's
   * neighbour in the dictionary, as long as the tile is still where the
   * tick found it.
   */
  lemma StepStateFacts(d: Direction, tiles: map<Cell, Tile>, order: seq<Tile>, before: seq<TileState>, p: PassState, i: int)
    requires Injective(tiles) && |before| == |order| == |p.states| && 0 <= i < |order|
    requires forall j :: 0 <= j < |order| ==> before[j].Cell() in tiles && tiles[before[j].Cell()] == order[j]
    requires SamePlace(p.states[i], before[i])
    ensures var r := NbrIdx(d, tiles, order, p.states[i]);
      StepFacts(d, order, p.cur, i, p.states, Choice(d, tiles, order, p.states, p.cur, i), r >= 0, if r >= 0 then r else i,
                StepState(d, tiles, order, p, i).states)
  {
    var r := NbrIdx(d, tiles, order, p.states[i]);
    if r >= 0 {
      assert p.states[i].Cell() == before[i].Cell();
      assert NeighbourCell(d, p.states[i]) != before[i].Cell();
    }
  }

  /**
   * While nothing has moved, each tile processed so far took the branch
   * `Stay` as `Decide` judges it on the states and the merged-into set the
   * tick started with, its neighbour looked up in the tick's dictionary.
   */
  ghost predicate QuietSoFar(d: Direction, tiles: map<Cell, Tile>, order: seq<Tile>, before: seq<TileState>,
                             blocks: set<Tile>, i: int, moved: bool)
    requires |before| == |order|
  {
    !moved ==> forall j :: 0 <= j < i && j < |order| ==> Choice(d, tiles, order, before, blocks, j) == Stay
  }

  /**
   * A quiet tick has changed nothing yet, so the next tile's choice is the
   * one it would make at the start of the tick.
   */
  lemma StepKeepsQuiet(d: Direction, tiles: map<Cell, Tile>, order: seq<Tile>, blocks: set<Tile>, before: seq<TileState>,
                       i: int, now: seq<TileState>, outcomes: seq<Outcome>, removed: seq<Tile>, cur: set<Tile>, moved: bool,
                       o: Outcome)
    requires i < |order|
    requires PassInv(d, order, blocks, before, i, now, outcomes, removed, cur, moved)
    requires QuietSoFar(d, tiles, order, before, blocks, i, moved)
    requires o == Choice(d, tiles, order, now, cur, i)
    ensures QuietSoFar(d, tiles, order, before, blocks, i + 1, moved || o != Stay)
  {
    if !moved && o == Stay {
      MarkedAreMerges(order, i, outcomes, removed);
      assert cur - blocks == {};
      forall j | 0 <= j < |order| ensures now[j] == before[j] {
        if j < i {
          assert outcomes[j] == Stay;
        }
      }
      assert now == before;
    }
  }

  /**
   * One iteration of the `for tile in sorted_tiles` loop: look up the
   * neighbour (`get_next_tile`), take the step, and on a merge mark the
   * tile for removal and the neighbour as merged; `moved` records whether
   * anything happened.
   */
  method StepAt(d: Direction, tiles: map<Cell, Tile>, order: seq<Tile>, blocks: set<Tile>, i: int,
                cur: set<Tile>, removed: seq<Tile>, moved: bool,
                ghost before: seq<TileState>, ghost now: seq<TileState>, ghost outcomes: seq<Outcome>)
    returns (cur': set<Tile>, removed': seq<Tile>, moved': bool, ghost now': seq<TileState>, ghost outcomes': seq<Outcome>)
    requires Distinct(order) && Injective(tiles) && |before| == |order|
    requires forall t :: t in order <==> t in tiles.Values
    requires forall j :: 0 <= j < |order| ==> before[j].Cell() in tiles && tiles[before[j].Cell()] == order[j]
    requires 0 <= i < |order|
    requires PassInv(d, order, blocks, before, i, now, outcomes, removed, cur, moved)
    requires forall j :: 0 <= j < |order| ==> order[j].State() == now[j]
    requires QuietSoFar(d, tiles, order, before, blocks, i, moved)
    modifies order
    ensures PassInv(d, order, blocks, before, i + 1, now', outcomes', removed', cur', moved')
    ensures forall j :: 0 <= j < |order| ==> order[j].State() == now'[j]
    ensures outcomes' == outcomes + [Choice(d, tiles, order, now, cur, i)]
    ensures QuietSoFar(d, tiles, order, before, blocks, i + 1, moved')
    ensures PassState(now', cur', removed', moved') == StepState(d, tiles, order, PassState(now, cur, removed, moved), i)
  {
    assert SamePlace(now[i], before[i]);
    var o, next;
    ghost var m;
    o, next, m, now' := StepTile(d, tiles, order, cur, i, now);
    outcomes' := outcomes + [o];
    cur', removed', moved' := cur, removed, moved || o != Stay;
    if o == Merge {
      removed' := removed + [order[i]];
      cur' := cur + {next};
    }
    StepKeepsPassInv(d, order, blocks, before, i, now, outcomes, removed, cur, moved, o, next != null, m, now');
    StepKeepsQuiet(d, tiles, order, blocks, before, i, now, outcomes, removed, cur, moved, o);
    StepStateFacts(d, tiles, order, before, PassState(now, cur, removed, moved), i);
    StepFactsUnique(d, order, cur, i, now, o, next != null, m, now', StepState(d, tiles, order, PassState(now, cur, removed, moved), i).states);
  }

  /**
   * The heap side of one iteration: tile i of the processing order steps
   * towards its neighbour on the board, if any; every other tile is left
   * as it was.
   */
  method StepTile(d: Direction, tiles: map<Cell, Tile>, order: seq<Tile>, cur: set<Tile>, i: int,
                  ghost now: seq<TileState>)
    returns (o: Outcome, next: Tile?, ghost m: int, ghost now': seq<TileState>)
    requires Distinct(order) && Injective(tiles) && |now| == |order| && 0 <= i < |order|
    requires forall t :: t in order <==> t in tiles.Values
    requires order[i].Cell() in tiles && tiles[order[i].Cell()] == order[i]
    requires forall j :: 0 <= j < |order| ==> order[j].State() == now[j]
    modifies order
    ensures StepFacts(d, order, cur, i, now, o, next != null, m, now')
    ensures next != null ==> next == order[m]
    ensures forall j :: 0 <= j < |order| ==> order[j].State() == now'[j]
    ensures next == (if NeighbourCell(d, now[i]) in tiles then tiles[NeighbourCell(d, now[i])] else null)
    ensures o == Choice(d, tiles, order, now, cur, i)
    ensures (next != null) == (NbrIdx(d, tiles, order, now[i]) >= 0)
    ensures next != null ==> m == NbrIdx(d, tiles, order, now[i])
  {
    var t := order[i];
    var nc := NeighbourCell(d, t.State());
    next := if nc in tiles then tiles[nc] else null;
    m := i;
    if next != null {
      assert next in tiles.Values;
      m :| 0 <= m < |order| && order[m] == next;
      DistinctIndex(order, m, NbrIdx(d, tiles, order, now[i]));
    }
    assert Decide(d, t.State(), StateOf(next), t in cur, next != null && next in cur) == Choice(d, tiles, order, now, cur, i);
    o := Step(d, t, next, cur);
    now' := now[i := t.State()];
    if next != null {
      now' := now'[m := next.State()];
    }
    forall j | 0 <= j < |order| ensures order[j].State() == now'[j] {
      if j != i && j != m {
        assert order[j] != t && (next == null || order[j] != next);
      }
    }
  }

  /**
   * A tile that stays on the board through a tick stays well placed: its
   * value at most doubles, and a step is taken only away from the edge.
   */
  lemma TargetKeepsPlaced(d: Direction, s: TileState, o: Outcome, s2: TileState)
    requires WellPlaced(s) && o != Merge && (o == Slide ==> !AtEdge(d, s))
    requires SamePlace(s2, Target(d, s, o)) && (s2.value == s.value || s2.value == 2 * s.value)
    ensures WellPlaced(s2)
  {
    if s2.value != s.value {
      DoubleIsPow2(s.value);
    }
    if o == Slide {
      AdvanceShortens(d, s);
    }
  }

  /** A tick marks only tiles whose outcome was a merge. */
  lemma MarkedAreMerges(order: seq<Tile>, i: int, outcomes: seq<Outcome>, removed: seq<Tile>)
    requires 0 <= i <= |order| && |outcomes| == i && Marked(order, i, outcomes, removed)
    ensures removed != [] ==> exists j :: 0 <= j < i && order[j] == removed[0] && outcomes[j] == Merge
  {
    if removed != [] {
      assert removed[0] in order;
    }
  }

  /**
   * What a whole tick does, from each tile's state before (`before`) and
   * after (`after`) it, the tiles marked for removal and the merged-into
   * set growing from `blocks` to `cur`:
   *  - a tile on the edge neither moves nor is marked;
   *  - a tile not marked stays well placed and is no farther from the edge;
   *  - if the tick moved anything, some tile was marked or came strictly
   *    nearer the edge; if it moved nothing, nothing changed at all;
   *  - each tile newly merged into has doubled, no other value changed, and
   *    each merge marks exactly one tile;
   *  - unless a marked tile was itself merged into, the tiles not marked
   *    hold the total value of the tiles before.
   */
  ghost predicate TickEffect(d: Direction, order: seq<Tile>, blocks: set<Tile>, before: seq<TileState>,
                             after: seq<TileState>, removed: seq<Tile>, cur: set<Tile>, moved: bool)
  {
    |before| == |order| && |after| == |order| &&
    (forall j :: 0 <= j < |order| && AtEdge(d, before[j]) ==> SamePlace(after[j], before[j]) && order[j] !in removed) &&
    (forall j :: 0 <= j < |order| && order[j] !in removed ==>
      WellPlaced(after[j]) && Dist(d, after[j]) <= Dist(d, before[j])) &&
    (moved ==> exists j :: 0 <= j < |order| && (order[j] in removed || Dist(d, after[j]) < Dist(d, before[j]))) &&
    (!moved ==> removed == [] && after == before && cur == blocks) &&
    (forall j :: 0 <= j < |order| ==>
      after[j].value == if order[j] in cur - blocks then 2 * before[j].value else before[j].value) &&
    blocks <= cur && (forall t :: t in cur - blocks ==> t in order) && |cur - blocks| == |removed| &&
    (forall r :: 0 <= r < |removed| ==> removed[r] in order) &&
    ((forall r :: 0 <= r < |removed| ==> removed[r] !in cur) ==>
      MaskedSum(StateValues(after), order, removed) == Sum(StateValues(before)))
  }

  /** A tick that processed every tile of well-placed tiles has the effect `TickEffect` states. */
  lemma PassSummary(d: Direction, order: seq<Tile>, blocks: set<Tile>, before: seq<TileState>, after: seq<TileState>,
                    outcomes: seq<Outcome>, removed: seq<Tile>, cur: set<Tile>, moved: bool)
    requires PassInv(d, order, blocks, before, |order|, after, outcomes, removed, cur, moved)
    requires forall j :: 0 <= j < |order| ==> WellPlaced(before[j])
    ensures TickEffect(d, order, blocks, before, after, removed, cur, moved)
  {
    forall j | 0 <= j < |order| && order[j] !in removed
      ensures WellPlaced(after[j]) && Dist(d, after[j]) <= Dist(d, before[j])
    {
      TargetKeepsPlaced(d, before[j], outcomes[j], after[j]);
      if outcomes[j] == Slide {
        AdvanceShortens(d, before[j]);
      }
    }
    if moved {
      var j :| 0 <= j < |order| && outcomes[j] != Stay;
      if outcomes[j] == Slide {
        AdvanceShortens(d, before[j]);
      }
    } else {
      MarkedAreMerges(order, |order|, outcomes, removed);
      assert cur - blocks == {};
      forall j | 0 <= j < |order| ensures after[j] == before[j] {
        assert outcomes[j] == Stay;
      }
    }
  }

  /**
   * The `for tile in sorted_tiles` loop of one tick, over the tiles in
   * processing order: every tile is processed once, with the effect
   * `TickEffect` states; `after` holds the tiles' states at the end, and
   * the result is the one the reference `PassOf` gives.
   */
  method Pass(board: Board, d: Direction, order: seq<Tile>, blocks: set<Tile>)
    returns (moved: bool, cur: set<Tile>, removed: seq<Tile>, ghost before: seq<TileState>, ghost after: seq<TileState>)
    requires Distinct(order) && Injective(board.tiles)
    requires forall t :: t in order <==> t in board.tiles.Values
    requires forall j :: 0 <= j < |order| ==> order[j].Cell() in board.tiles && board.tiles[order[j].Cell()] == order[j]
    requires forall j :: 0 <= j < |order| ==> WellPlaced(order[j].State())
    modifies order
    ensures before == old(StatesOf(order))
    ensures |after| == |order| && forall j :: 0 <= j < |order| ==> order[j].State() == after[j]
    ensures TickEffect(d, order, blocks, before, after, removed, cur, moved)
    ensures !moved ==> forall j :: 0 <= j < |order| ==> order[j].Cell() in board.tiles && board.tiles[order[j].Cell()] == order[j]
    ensures !moved ==> Settled(d, board.tiles, cur)
    ensures PassState(after, cur, removed, moved) == PassOf(d, board.tiles, order, before, blocks)
    ensures StatesOf(order) == after
  {
    var tiles := board.tiles;
    before := StatesOf(order);
    ghost var outcomes;
    moved, cur, removed, after, outcomes := PassLoop(d, tiles, order, blocks, before);
    StatesOfMatch(order, after);
    PassSummary(d, order, blocks, before, after, outcomes, removed, cur, moved);
    if !moved {
      QuietKeepsKeys(order, tiles, before, after);
      QuietSettled(d, tiles, order, before, blocks);
    }
  }

  /** The loop of `Pass`, with the invariants it keeps. */
  method PassLoop(d: Direction, tiles: map<Cell, Tile>, order: seq<Tile>, blocks: set<Tile>, ghost before: seq<TileState>)
    returns (moved: bool, cur: set<Tile>, removed: seq<Tile>, ghost after: seq<TileState>, ghost outcomes: seq<Outcome>)
    requires Distinct(order) && Injective(tiles)
    requires forall t :: t in order <==> t in tiles.Values
    requires |before| == |order| && forall j :: 0 <= j < |order| ==> order[j].State() == before[j]
    requires forall j :: 0 <= j < |order| ==> before[j].Cell() in tiles && tiles[before[j].Cell()] == order[j]
    modifies order
    ensures PassInv(d, order, blocks, before, |order|, after, outcomes, removed, cur, moved)
    ensures forall j :: 0 <= j < |order| ==> order[j].State() == after[j]
    ensures QuietSoFar(d, tiles, order, before, blocks, |order|, moved)
    ensures PassState(after, cur, removed, moved) == PassOf(d, tiles, order, before, blocks)
  {
    outcomes := [];
    moved := false;
    cur := blocks;
    removed := [];
    after := before;
    PassInvInit(d, order, blocks, before);
    for i := 0 to |order|
      invariant PassInv(d, order, blocks, before, i, after, outcomes, removed, cur, moved)
      invariant forall j :: 0 <= j < |order| ==> order[j].State() == after[j]
      invariant QuietSoFar(d, tiles, order, before, blocks, i, moved)
      invariant PassFrom(d, tiles, order, PassState(after, cur, removed, moved), i) == PassOf(d, tiles, order, before, blocks)
    {
      cur, removed, moved, after, outcomes := StepAt(d, tiles, order, blocks, i, cur, removed, moved, before, after, outcomes);
    }
  }

  /** One reference step keeps the invariant of the loop. */
  lemma StepStateKeepsInv(d: Direction, tiles: map<Cell, Tile>, order: seq<Tile>, blocks: set<Tile>,
                          before: seq<TileState>, i: int, now: seq<TileState>, outcomes: seq<Outcome>,
                          removed: seq<Tile>, cur: set<Tile>, moved: bool)
    requires Distinct(order) && Injective(tiles) && |before| == |order|
    requires forall j :: 0 <= j < |order| ==> before[j].Cell() in tiles && tiles[before[j].Cell()] == order[j]
    requires PassInv(d, order, blocks, before, i, now, outcomes, removed, cur, moved) && i < |order|
    ensures var q := StepState(d, tiles, order, PassState(now, cur, removed, moved), i);
      PassInv(d, order, blocks, before, i + 1, q.states, outcomes + [Choice(d, tiles, order, now, cur, i)], q.removed, q.cur, q.moved)
  {
    var p := PassState(now, cur, removed, moved);
    var o := Choice(d, tiles, order, now, cur, i);
    var r := NbrIdx(d, tiles, order, now[i]);
    var q := StepState(d, tiles, order, p, i);
    StepStateFacts(d, tiles, order, before, p, i);
    StepKeepsPassInv(d, order, blocks, before, i, now, outcomes, removed, cur, moved, o, r >= 0, if r >= 0 then r else i, q.states);
  }

  lemma AppendAssoc<T>(a: seq<T>, b: seq<T>, c: seq<T>)
    ensures a + (b + c) == (a + b) + c
  {
  }

  /** The branches the reference loop takes from tile i on. */
  function OutcomesFrom(d: Direction, tiles: map<Cell, Tile>, order: seq<Tile>, p: PassState, i: int): (os: seq<Outcome>)
    requires |p.states| == |order| && 0 <= i <= |order|
    ensures |os| == |order| - i
    decreases |order| - i
  {
    if i == |order| then []
    else [Choice(d, tiles, order, p.states, p.cur, i)] + OutcomesFrom(d, tiles, order, StepState(d, tiles, order, p, i), i + 1)
  }

  /**
   * The invariant of the loop holds of the reference: from any point of a
   * tick where it holds, the reference loop reaches its end with it.
   */
  lemma {:induction false} PassFromKeepsInv(d: Direction, tiles: map<Cell, Tile>, order: seq<Tile>, blocks: set<Tile>,
                                            before: seq<TileState>, i: int, now: seq<TileState>, outcomes: seq<Outcome>,
                                            removed: seq<Tile>, cur: set<Tile>, moved: bool)
    requires Distinct(order) && Injective(tiles) && |before| == |order|
    requires forall j :: 0 <= j < |order| ==> before[j].Cell() in tiles && tiles[before[j].Cell()] == order[j]
    requires PassInv(d, order, blocks, before, i, now, outcomes, removed, cur, moved)
    ensures var p := PassState(now, cur, removed, moved);
      var q := PassFrom(d, tiles, order, p, i);
      PassInv(d, order, blocks, before, |order|, q.states, outcomes + OutcomesFrom(d, tiles, order, p, i), q.removed, q.cur, q.moved)
    decreases |order| - i
  {
    var p := PassState(now, cur, removed, moved);
    if i < |order| {
      var o := Choice(d, tiles, order, now, cur, i);
      var q := StepState(d, tiles, order, p, i);
      StepStateKeepsInv(d, tiles, order, blocks, before, i, now, outcomes, removed, cur, moved);
      assert q == PassState(q.states, q.cur, q.removed, q.moved);
      PassFromKeepsInv(d, tiles, order, blocks, before, i + 1, q.states, outcomes + [o], q.removed, q.cur, q.moved);
      var rest := OutcomesFrom(d, tiles, order, q, i + 1);
      assert OutcomesFrom(d, tiles, order, p, i) == [o] + rest;
      AppendAssoc(outcomes, [o], rest);
      assert PassFrom(d, tiles, order, p, i) == PassFrom(d, tiles, order, q, i + 1);
    }
  }

  /**
   * The reference loop, run on well-placed tiles each stored under its own
   * cell, has the effect `TickEffect` states.
   */
  lemma PassOfEffect(d: Direction, tiles: map<Cell, Tile>, order: seq<Tile>, before: seq<TileState>, blocks: set<Tile>)
    requires Distinct(order) && Injective(tiles) && |before| == |order|
    requires forall j :: 0 <= j < |order| ==>
      before[j].Cell() in tiles && tiles[before[j].Cell()] == order[j] && WellPlaced(before[j])
    ensures var q := PassOf(d, tiles, order, before, blocks);
      TickEffect(d, order, blocks, before, q.states, q.removed, q.cur, q.moved)
  {
    PassInvInit(d, order, blocks, before);
    PassFromKeepsInv(d, tiles, order, blocks, before, 0, before, [], [], blocks, false);
    var q := PassOf(d, tiles, order, before, blocks);
    var outs := OutcomesFrom(d, tiles, order, PassState(before, blocks, [], false), 0);
    assert [] + outs == outs;
    PassSummary(d, order, blocks, before, q.states, outs, q.removed, q.cur, q.moved);
  }

  /** While every tile still to come takes `Stay`, the reference loop changes nothing. */
  lemma {:induction false} QuietFrom(d: Direction, tiles: map<Cell, Tile>, order: seq<Tile>, before: seq<TileState>,
                                     blocks: set<Tile>, i: int)
    requires |before| == |order| && 0 <= i <= |order|
    requires forall j :: i <= j < |order| ==> Choice(d, tiles, order, before, blocks, j) == Stay
    ensures PassFrom(d, tiles, order, PassState(before, blocks, [], false), i) == PassState(before, blocks, [], false)
    decreases |order| - i
  {
    if i < |order| {
      var p := PassState(before, blocks, [], false);
      assert before[i := Target(d, before[i], Stay)] == before;
      assert StepState(d, tiles, order, p, i) == p;
      QuietFrom(d, tiles, order, before, blocks, i + 1);
    }
  }

  /**
   * On a settled dictionary every tile takes `Stay`, so a tick moves,
   * marks and merges nothing (the converse of `QuietSettled`).
   */
  lemma SettledQuiet(d: Direction, m: map<Cell, Tile>, order: seq<Tile>, before: seq<TileState>, blocks: set<Tile>)
    requires forall t :: t in order <==> t in m.Values
    requires |before| == |order| && forall j :: 0 <= j < |order| ==> order[j].State() == before[j]
    requires Settled(d, m, blocks)
    ensures PassOf(d, m, order, before, blocks) == PassState(before, blocks, [], false)
  {
    forall j | 0 <= j < |order| ensures Choice(d, m, order, before, blocks, j) == Stay {
      assert order[j] in m.Values;
      var k :| k in m && m[k] == order[j];
      assert StaysPut(d, m, blocks, k);
      var n := NeighbourOf(d, m, m[k]);
      var r := NbrIdx(d, m, order, before[j]);
      if n != null {
        assert r >= 0;
        assert before[r] == n.State();
      }
    }
    QuietFrom(d, m, order, before, blocks, 0);
  }

  /**
   * The pass from a settled dictionary moves nothing, and a pass that
   * moved nothing left the states, the merged-into set and the removal
   * list as they were.
   */
  lemma QuietWhenSettled(d: Direction, m: map<Cell, Tile>, order: seq<Tile>, before: seq<TileState>, blocks: set<Tile>)
    requires forall t :: t in order <==> t in m.Values
    requires |before| == |order| && forall j :: 0 <= j < |order| ==> order[j].State() == before[j]
    ensures Settled(d, m, blocks) ==> !PassOf(d, m, order, before, blocks).moved
    ensures !PassOf(d, m, order, before, blocks).moved ==> PassOf(d, m, order, before, blocks) == PassState(before, blocks, [], false)
  {
    UnmovedFrom(d, m, order, PassState(before, blocks, [], false), 0);
    if Settled(d, m, blocks) {
      SettledQuiet(d, m, order, before, blocks);
    }
  }

  /** Once a step of the pass has moved something, the pass has moved something. */
  lemma {:induction false} MovedFrom(d: Direction, tiles: map<Cell, Tile>, order: seq<Tile>, p: PassState, i: int)
    requires |p.states| == |order| && 0 <= i <= |order| && p.moved
    ensures PassFrom(d, tiles, order, p, i).moved
    decreases |order| - i
  {
    if i < |order| {
      MovedFrom(d, tiles, order, StepState(d, tiles, order, p, i), i + 1);
    }
  }

  /**
   * A pass that moved nothing changed nothing: every tile took `Stay`, so
   * the states, the merged-into set and the removal list are as they were.
   */
  lemma {:induction false} UnmovedFrom(d: Direction, tiles: map<Cell, Tile>, order: seq<Tile>, p: PassState, i: int)
    requires |p.states| == |order| && 0 <= i <= |order| && !p.moved
    ensures !PassFrom(d, tiles, order, p, i).moved ==> PassFrom(d, tiles, order, p, i) == p
    decreases |order| - i
  {
    if i < |order| {
      var q := StepState(d, tiles, order, p, i);
      if q.moved {
        MovedFrom(d, tiles, order, q, i + 1);
      } else {
        assert p.states[i := Target(d, p.states[i], Stay)] == p.states;
        assert q == p;
        UnmovedFrom(d, tiles, order, q, i + 1);
      }
    }
  }

  /** When nothing moved, every tile is still stored under its own cell. */
  lemma QuietKeepsKeys(order: seq<Tile>, m: map<Cell, Tile>, before: seq<TileState>, after: seq<TileState>)
    requires |before| == |order| && forall j :: 0 <= j < |order| ==> before[j].Cell() in m && m[before[j].Cell()] == order[j]
    requires after == before && forall j :: 0 <= j < |order| ==> order[j].State() == after[j]
    ensures forall j :: 0 <= j < |order| ==> order[j].Cell() in m && m[order[j].Cell()] == order[j]
  {
    forall j | 0 <= j < |order| ensures order[j].Cell() in m && m[order[j].Cell()] == order[j] {
      assert order[j].Cell() == after[j].Cell();
    }
  }

  /**
   * A list holding the same tiles as an enumeration of a consistent
   * dictionary (every tile well placed under its own cell) lists each tile
   * of the dictionary, under its own cell.
   */
  lemma EnumerationFacts(m: map<Cell, Tile>, all: seq<Tile>, sorted: seq<Tile>)
    requires forall k :: k in m ==> m[k].Cell() == k && WellPlaced(m[k].State())
    requires forall t :: t in all <==> t in m.Values
    requires multiset(sorted) == multiset(all)
    ensures forall t :: t in sorted <==> t in m.Values
    ensures forall j :: 0 <= j < |sorted| ==>
      sorted[j].Cell() in m && m[sorted[j].Cell()] == sorted[j] && WellPlaced(sorted[j].State())
  {
    forall t ensures t in sorted <==> t in all {
      assert t in sorted <==> t in multiset(sorted);
      assert t in all <==> t in multiset(all);
    }
    forall j | 0 <= j < |sorted|
      ensures sorted[j].Cell() in m && m[sorted[j].Cell()] == sorted[j] && WellPlaced(sorted[j].State())
    {
      assert sorted[j] in multiset(sorted);
      assert sorted[j] in all;
      var k :| k in m && m[k] == sorted[j];
    }
  }

  /**
   * `sorted(tiles.values(), key=sort_func, reverse=reverse)`: the tiles of a
   * valid board, each once, in the slide's processing order, each stored
   * under its own cell.
   */
  method Order(board: Board, d: Direction) returns (sorted: seq<Tile>)
    requires board.Valid()
    ensures ListsFor(d, SnapOf(board.tiles), sorted) && Injective(board.tiles)
    ensures forall t :: t in sorted <==> t in board.tiles.Values
    ensures forall j :: 0 <= j < |sorted| ==>
      sorted[j].Cell() in board.tiles && board.tiles[sorted[j].Cell()] == sorted[j] && WellPlaced(sorted[j].State())
    ensures StatesOf(sorted) == old(StatesOf(sorted))
  {
    var all := board.Values();
    board.ValidInjective();
    sorted := SortTiles(d, all);
    PermutationDistinct(all, sorted);
    EnumerationFacts(board.tiles, all, sorted);
    SortedLists(d, board.tiles, sorted);
  }

  /** The tiles left after dropping the marked ones are well placed. */
  lemma SurvivorsPlaced(order: seq<Tile>, removed: seq<Tile>, after: seq<TileState>, survivors: seq<Tile>)
    requires |after| == |order| && forall j :: 0 <= j < |order| ==> order[j].State() == after[j]
    requires forall j :: 0 <= j < |order| && order[j] !in removed ==> WellPlaced(after[j])
    requires survivors == Without(order, removed)
    ensures forall t :: t in survivors ==> WellPlaced(t.State())
  {
    WithoutMembers(order, removed);
    forall t | t in survivors ensures WellPlaced(t.State()) {
      var r :| 0 <= r < |survivors| && survivors[r] == t;
      var j :| 0 <= j < |order| && order[j] == t;
    }
  }

  /**
   * Rebuilding from an enumeration of a dictionary whose tiles are all
   * still on the cells they were stored under gives the dictionary back.
   */
  lemma SameBoard(order: seq<Tile>, m: map<Cell, Tile>)
    requires Distinct(order) && Injective(m) && forall t :: t in order <==> t in m.Values
    requires forall j :: 0 <= j < |order| ==> order[j].Cell() in m && m[order[j].Cell()] == order[j]
    ensures BoardOf(order) == m
  {
    forall k | k in m ensures m[k].Cell() == k {
      assert m[k] in m.Values;
      var j :| 0 <= j < |order| && order[j] == m[k];
      assert m[order[j].Cell()] == m[k];
    }
    BoardOfEnumeration(order, m);
  }

  /**
   * What the dictionary is rebuilt from: well-placed tiles only, and when
   * the tick moved nothing, exactly the tiles of the old dictionary under
   * their old keys.
   */
  lemma Survivors(d: Direction, order: seq<Tile>, blocks: set<Tile>, before: seq<TileState>, after: seq<TileState>,
                  removed: seq<Tile>, cur: set<Tile>, moved: bool, m: map<Cell, Tile>, survivors: seq<Tile>)
    requires Distinct(order) && Injective(m) && forall t :: t in order <==> t in m.Values
    requires |after| == |order| && forall j :: 0 <= j < |order| ==> order[j].State() == after[j]
    requires TickEffect(d, order, blocks, before, after, removed, cur, moved)
    requires !moved ==> forall j :: 0 <= j < |order| ==> order[j].Cell() in m && m[order[j].Cell()] == order[j]
    requires survivors == Without(order, removed)
    ensures forall t :: t in survivors ==> WellPlaced(t.State())
    ensures !moved ==> BoardOf(survivors) == m
  {
    SurvivorsPlaced(order, removed, after, survivors);
    if !moved {
      WithoutNothing(order);
      SameBoard(order, m);
    }
  }

  /**
   * The tick's facts about its own list, restated for every tile of the
   * board: each tile left was on the board before and is no farther from
   * the edge; if the tick moved anything some tile of the old board left it
   * or came nearer the edge; a tile's value doubled exactly when it was
   * newly merged into.
   */
  // Every parameter is `new`: with two or more value parameters left
  // without it, the verifier names two proof obligations of a call alike
  // and the solver rejects the query.
  twostate lemma TickShrinks(new d: Direction, new order: seq<Tile>, new removed: seq<Tile>, new blocks: set<Tile>,
                             new cur: set<Tile>, new before: seq<TileState>, new after: seq<TileState>, new updated: bool,
                             new survivors: seq<Tile>)
    requires old(allocated(order)) && before == old(StatesOf(order)) && |after| == |order|
    requires forall j :: 0 <= j < |order| ==> order[j].State() == after[j]
    requires survivors == Without(order, removed)
    requires TickEffect(d, order, blocks, before, after, removed, cur, updated)
    ensures forall t :: t in survivors ==> t in order && Dist(d, t.State()) <= old(Dist(d, t.State()))
    ensures updated ==> exists t :: t in order && (t !in survivors || Dist(d, t.State()) < old(Dist(d, t.State())))
    ensures forall t :: t in order ==> t.value == if t in cur - blocks then 2 * old(t.value) else old(t.value)
    ensures blocks <= cur && forall t :: t in cur - blocks ==> t in order
    ensures !updated ==> forall t :: t in order ==> t.State() == old(t.State())
  {
    WithoutMembers(order, removed);
    forall t | t in survivors
      ensures t in order && Dist(d, t.State()) <= old(Dist(d, t.State()))
    {
      var j :| 0 <= j < |order| && order[j] == t;
    }
    if updated {
      var j :| 0 <= j < |order| && (order[j] in removed || Dist(d, after[j]) < Dist(d, before[j]));
      assert order[j] in order;
    }
    forall t | t in order
      ensures t.value == if t in cur - blocks then 2 * old(t.value) else old(t.value)
      ensures !updated ==> t.State() == old(t.State())
    {
      var j :| 0 <= j < |order| && order[j] == t;
    }
  }

  /**
   * One pass of the `while updated` loop: sort the tiles for the slide,
   * process them in that order, drop the tiles that merged away, and
   * rebuild the dictionary from the rest (`updated_tiles`). Every tile left
   * on the board was on it before and is no farther from the edge; if the
   * pass moved anything, some tile left the board or came nearer the edge;
   * a tile's value doubled exactly when it was newly merged into; if the
   * pass moved nothing, the board is as it was.
   */
  method Tick(board: Board, d: Direction, blocks: set<Tile>) returns (updated: bool, blocks': set<Tile>, ghost order: seq<Tile>, ghost s0: Snap, ghost s1: Snap)
    requires board.Valid()
    modifies board, board.tiles.Values
    ensures board.Valid()
    ensures s0 == old(SnapOf(board.tiles)) && s1 == SnapOf(board.tiles) && ListsFor(d, s0, order)
    ensures TickOn(d, s0, order, blocks) == TickResult(s1, blocks', updated)
    ensures old(Settled(d, board.tiles, blocks)) ==> !updated
    ensures !updated ==> blocks' == blocks
    ensures forall t :: t in board.tiles.Values ==> t in old(board.tiles).Values && Dist(d, t.State()) <= old(Dist(d, t.State()))
    ensures updated ==> exists t :: t in old(board.tiles).Values && (t !in board.tiles.Values || Dist(d, t.State()) < old(Dist(d, t.State())))
    ensures blocks <= blocks' && forall t :: t in blocks' - blocks ==> t in old(board.tiles).Values
    ensures forall t :: t in old(board.tiles).Values ==> t.value == if t in blocks' - blocks then 2 * old(t.value) else old(t.value)
    ensures !updated ==> board.tiles == old(board.tiles)
    ensures !updated ==> Settled(d, board.tiles, blocks') && forall t :: t in board.tiles.Values ==> t.State() == old(t.State())
  {
    var sorted := Order(board, d);
    order := sorted;
    ghost var before := StatesOf(order);
    QuietWhenSettled(d, board.tiles, order, before, blocks);
    ListsDistinct(d, SnapOf(board.tiles), order);
    s0 := old(SnapOf(board.tiles));
    updated, blocks' := TickInOrder(board, d, blocks, sorted, SnapOf(board.tiles));
    s1 := SnapOf(board.tiles);
  }

  /** `Tick` once the tiles are listed in processing order. */
  method TickInOrder(board: Board, d: Direction, blocks: set<Tile>, order: seq<Tile>, ghost s0: Snap)
    returns (updated: bool, blocks': set<Tile>)
    requires Distinct(order) && Injective(board.tiles) && s0 == SnapOf(board.tiles)
    requires forall t :: t in order <==> t in board.tiles.Values
    requires forall j :: 0 <= j < |order| ==>
      order[j].Cell() in board.tiles && board.tiles[order[j].Cell()] == order[j] && WellPlaced(order[j].State())
    modifies board, order
    ensures board.Valid()
    ensures forall t :: t in board.tiles.Values ==> t in order && Dist(d, t.State()) <= old(Dist(d, t.State()))
    ensures updated ==> exists t :: t in order && (t !in board.tiles.Values || Dist(d, t.State()) < old(Dist(d, t.State())))
    ensures blocks <= blocks' && forall t :: t in blocks' - blocks ==> t in order
    ensures forall t :: t in order ==> t.value == if t in blocks' - blocks then 2 * old(t.value) else old(t.value)
    ensures !updated ==> board.tiles == old(board.tiles)
    ensures !updated ==> Settled(d, board.tiles, blocks')
    ensures !updated ==> forall t :: t in order ==> t.State() == old(t.State())
    ensures var q := PassOf(d, old(board.tiles), order, old(StatesOf(order)), blocks);
      updated == q.moved && blocks' == q.cur && board.tiles == BoardOf(Without(order, q.removed)) &&
      |q.states| == |order| && forall j :: 0 <= j < |order| ==> order[j].State() == q.states[j]
    ensures TickOn(d, s0, order, blocks) == TickResult(SnapOf(board.tiles), blocks', updated)
  {
    var survivors;
    updated, blocks', survivors := PassAndDrop(board, d, blocks, order, s0);
    ghost var m := board.tiles;
    label passed:
    board.Rebuild(survivors);
    assert forall t :: t in order ==> t.State() == old@passed(t.State());
    if !updated {
      SettledKept@passed(d, m, blocks');
    }
  }

  /** Settledness depends on the tiles of the dictionary only. */
  twostate lemma SettledKept(new d: Direction, new m: map<Cell, Tile>, new blocks: set<Tile>)
    requires old(allocated(m)) && old(allocated(blocks)) && old(Settled(d, m, blocks))
    requires forall t :: t in m.Values ==> t.State() == old(t.State())
    ensures Settled(d, m, blocks)
  {
    forall k | k in m ensures m[k].State() == old(m[k].State()) {
      assert m[k] in m.Values;
    }
    forall k | k in m ensures StaysPut(d, m, blocks, k) {
      assert m[k] in m.Values;
      assert old(StaysPut(d, m, blocks, k));
      assert NeighbourOf(d, m, m[k]) == old(NeighbourOf(d, m, m[k]));
      var n := NeighbourOf(d, m, m[k]);
      if n != null {
        assert n.State() == old(n.State());
      }
    }
  }

  /** The states the snapshot records for a list of its tiles. */
  function StatesIn(states: map<Tile, TileState>, ts: seq<Tile>): (ss: seq<TileState>)
    requires forall t :: t in ts ==> t in states
    ensures |ss| == |ts| && forall j :: 0 <= j < |ts| ==> ss[j] == states[ts[j]]
  {
    if ts == [] then [] else [states[ts[0]]] + StatesIn(states, ts[1..])
  }

  /** The cells of the states recorded for a list of tiles. */
  function CellsIn(states: map<Tile, TileState>, ts: seq<Tile>): (cs: seq<Cell>)
    requires forall t :: t in ts ==> t in states
    ensures |cs| == |ts| && forall j :: 0 <= j < |ts| ==> cs[j] == states[ts[j]].Cell()
  {
    if ts == [] then [] else [states[ts[0]].Cell()] + CellsIn(states, ts[1..])
  }

  /** The states of a list of tiles, keyed by tile, the first entry for a tile counting. */
  function StatesMap(order: seq<Tile>, ss: seq<TileState>): (m: map<Tile, TileState>)
    requires |ss| == |order|
    ensures forall j :: 0 <= j < |order| ==> order[j] in m
    ensures forall t :: t in m ==> t in order
  {
    if order == [] then map[] else StatesMap(order[1..], ss[1..])[order[0] := ss[0]]
  }

  /** For a list of distinct tiles, each tile is keyed to its own entry. */
  lemma {:induction false} StatesMapAt(order: seq<Tile>, ss: seq<TileState>)
    requires Distinct(order) && |ss| == |order|
    ensures forall j :: 0 <= j < |order| ==> StatesMap(order, ss)[order[j]] == ss[j]
  {
    if order != [] {
      assert Distinct(order[1..]) by {
        forall i, j | 0 <= i < j < |order[1..]| ensures order[1..][i] != order[1..][j] {
          assert order[1..][i] == order[i + 1] && order[1..][j] == order[j + 1];
        }
      }
      StatesMapAt(order[1..], ss[1..]);
      forall j | 1 <= j < |order| ensures StatesMap(order, ss)[order[j]] == ss[j] {
        assert order[j] == order[1..][j - 1] && order[j] != order[0];
      }
    }
  }

  /** The recorded states of the tiles of a dictionary. */
  function Recorded(states: map<Tile, TileState>, m: map<Cell, Tile>): map<Tile, TileState>
  {
    map t | t in m.Values && t in states :: states[t]
  }

  /**
   * Each tile of the list is recorded, comes once, and is no later in
   * processing order than any tile after it, judged by the recorded
   * states.
   */
  ghost predicate Ranked(d: Direction, states: map<Tile, TileState>, order: seq<Tile>)
    decreases |order|
  {
    order == [] ||
    (order[0] in states &&
     (forall j :: 1 <= j < |order| ==>
        order[j] != order[0] && order[j] in states && InOrder(d, SortKey(d, states[order[0]]), SortKey(d, states[order[j]]))) &&
     Ranked(d, states, order[1..]))
  }

  /** `Ranked` is a list of distinct recorded tiles sorted for the slide, and nothing more. */
  lemma {:induction false} RankedIff(d: Direction, states: map<Tile, TileState>, order: seq<Tile>)
    ensures Ranked(d, states, order) <==>
      (forall j :: 0 <= j < |order| ==> order[j] in states) && Distinct(order) &&
      forall i, j :: 0 <= i < j < |order| ==> InOrder(d, SortKey(d, states[order[i]]), SortKey(d, states[order[j]]))
    decreases |order|
  {
    if order != [] {
      RankedIff(d, states, order[1..]);
      if Ranked(d, states, order) {
        forall i, j | 0 <= i < j < |order| ensures order[i] != order[j] {
          if i > 0 {
            assert order[i] == order[1..][i - 1] && order[j] == order[1..][j - 1];
          }
        }
        forall i, j | 0 <= i < j < |order|
          ensures InOrder(d, SortKey(d, states[order[i]]), SortKey(d, states[order[j]]))
        {
          if i > 0 {
            assert order[i] == order[1..][i - 1] && order[j] == order[1..][j - 1];
          }
        }
      }
      if (forall j :: 0 <= j < |order| ==> order[j] in states) && Distinct(order) &&
         forall i, j :: 0 <= i < j < |order| ==> InOrder(d, SortKey(d, states[order[i]]), SortKey(d, states[order[j]]))
      {
        var r := order[1..];
        assert forall j :: 0 <= j < |r| ==> r[j] == order[j + 1];
        assert forall i, j :: 0 <= i < j < |r| ==> r[i] != r[j] by {
          forall i, j | 0 <= i < j < |r| ensures r[i] != r[j] {
            assert r[i] == order[i + 1] && r[j] == order[j + 1];
          }
        }
      }
    }
  }

  /** A processing order lists each tile once. */
  lemma ListsDistinct(d: Direction, s: Snap, order: seq<Tile>)
    requires ListsFor(d, s, order)
    ensures Distinct(order)
  {
    RankedIff(d, s.states, order);
  }

  /**
   * `order` is a processing order for the snapshot: each tile of its
   * dictionary once, sorted for the slide by the recorded states.
   */
  ghost predicate ListsFor(d: Direction, s: Snap, order: seq<Tile>)
  {
    Ranked(d, s.states, order) && (forall k :: k in s.tiles ==> s.tiles[k] in order) &&
    forall j :: 0 <= j < |order| ==> order[j] in s.tiles.Values && order[j] in s.states
  }

  /** What one tick makes of a snapshot, with the merged-into set and whether anything moved. */
  datatype TickResult = TickResult(snap: Snap, blocks: set<Tile>, moved: bool)

  /**
   * The reference for one tick on values: the pass `PassOf` from the
   * recorded states in processing order, then the dictionary rebuilt from
   * the tiles not marked, each stored under the cell of its new state, a
   * later tile of the list overwriting an earlier one on the same cell.
   */
  ghost function TickOn(d: Direction, s: Snap, order: seq<Tile>, blocks: set<Tile>): TickResult
    requires forall j :: 0 <= j < |order| ==> order[j] in s.states
  {
    var q := PassOf(d, s.tiles, order, StatesIn(s.states, order), blocks);
    TickResult(Rebuilt(order, q), q.cur, q.moved)
  }

  /**
   * The rebuild of the dictionary after the pass `q` (`updated_tiles`):
   * the tiles not marked, each stored under the cell of its new state, a
   * later tile of the list overwriting an earlier one on the same cell.
   */
  function Rebuilt(order: seq<Tile>, q: PassState): Snap
    requires |q.states| == |order|
  {
    var states := StatesMap(order, q.states);
    var survivors := Without(order, q.removed);
    WithoutWithin(order, q.removed);
    var tiles := MapFrom(CellsIn(states, survivors), survivors);
    Snap(tiles, Recorded(states, tiles))
  }

  /**
   * What `Tick` states of the heap, read on values: the tick took the
   * snapshot of the old dictionary to the snapshot of the new one, as
   * `TickOn` says.
   */
  // Every parameter is `new`, for the reason given at `TickShrinks`.
  twostate lemma TickShown(new d: Direction, new m0: map<Cell, Tile>, new order: seq<Tile>, new blocks: set<Tile>,
                           new m1: map<Cell, Tile>, new cur: set<Tile>, new moved: bool)
    requires old(allocated(m0)) && old(allocated(order)) && Distinct(order)
    requires forall j :: 0 <= j < |order| ==> order[j] in m0.Values
    requires var q := PassOf(d, m0, order, old(StatesOf(order)), blocks);
      moved == q.moved && cur == q.cur && m1 == BoardOf(Without(order, q.removed)) &&
      |q.states| == |order| && forall j :: 0 <= j < |order| ==> order[j].State() == q.states[j]
    ensures TickOn(d, old(SnapOf(m0)), order, blocks) == TickResult(SnapOf(m1), cur, moved)
  {
    ghost var s := old(SnapOf(m0));
    assert StatesIn(s.states, order) == old(StatesOf(order));
    ghost var q := PassOf(d, m0, order, old(StatesOf(order)), blocks);
    TickOnIs(d, s, order, blocks, q, m1);
  }

  /**
   * When the pass from the snapshot ends in `q` and the tiles now hold
   * q's states, `TickOn` yields the snapshot of the dictionary rebuilt
   * from the tiles q did not mark.
   */
  lemma TickOnIs(d: Direction, s: Snap, order: seq<Tile>, blocks: set<Tile>, q: PassState, m1: map<Cell, Tile>)
    requires Distinct(order) && forall j :: 0 <= j < |order| ==> order[j] in s.states
    requires q == PassOf(d, s.tiles, order, StatesIn(s.states, order), blocks)
    requires |q.states| == |order| && forall j :: 0 <= j < |order| ==> order[j].State() == q.states[j]
    requires m1 == BoardOf(Without(order, q.removed))
    ensures TickOn(d, s, order, blocks) == TickResult(SnapOf(m1), q.cur, q.moved)
  {
    RebuiltIs(order, q, m1);
  }

  /** The rebuild after the pass is the snapshot of the dictionary `updated_tiles` builds. */
  lemma RebuiltIs(order: seq<Tile>, q: PassState, m1: map<Cell, Tile>)
    requires Distinct(order) && |q.states| == |order| && forall j :: 0 <= j < |order| ==> order[j].State() == q.states[j]
    requires m1 == BoardOf(Without(order, q.removed))
    ensures Rebuilt(order, q) == SnapOf(m1)
  {
    RebuiltSnap(order, q.states, q.removed, m1);
  }

  /**
   * A list of the dictionary's tiles, each once and sorted for the slide,
   * is a processing order for its snapshot.
   */
  lemma SortedLists(d: Direction, m: map<Cell, Tile>, order: seq<Tile>)
    requires Distinct(order) && (forall t :: t in order <==> t in m.Values) && SortedFor(d, order)
    ensures ListsFor(d, SnapOf(m), order)
  {
    var s := SnapOf(m);
    forall i, j | 0 <= i < j < |order|
      ensures InOrder(d, SortKey(d, s.states[order[i]]), SortKey(d, s.states[order[j]]))
    {
      assert InOrder(d, Key(d, order[i]), Key(d, order[j]));
    }
    RankedIff(d, s.states, order);
  }

  /**
   * The dictionary rebuilt from the tiles not marked, each stored under the
   * cell of its state, and the states of its tiles, are what `TickOn`
   * computes from the states after the pass.
   */
  lemma RebuiltSnap(order: seq<Tile>, ss: seq<TileState>, removed: seq<Tile>, m1: map<Cell, Tile>)
    requires Distinct(order) && |ss| == |order| && forall j :: 0 <= j < |order| ==> order[j].State() == ss[j]
    requires m1 == BoardOf(Without(order, removed))
    ensures var states := StatesMap(order, ss);
      var survivors := Without(order, removed);
      (forall t :: t in survivors ==> t in states) &&
      MapFrom(CellsIn(states, survivors), survivors) == m1 &&
      Recorded(states, m1) == SnapOf(m1).states
  {
    var states := StatesMap(order, ss);
    StatesMapShows(order, ss);
    var survivors := Without(order, removed);
    WithoutMembers(order, removed);
    RebuiltCells(order, states, survivors);
    RebuiltStates(order, states, survivors, m1);
  }

  /** Each tile of the list holds the state recorded for it. */
  lemma StatesMapShows(order: seq<Tile>, ss: seq<TileState>)
    requires Distinct(order) && |ss| == |order| && forall j :: 0 <= j < |order| ==> order[j].State() == ss[j]
    ensures forall t :: t in order ==> t in StatesMap(order, ss) && StatesMap(order, ss)[t] == t.State()
  {
    StatesMapAt(order, ss);
    forall t | t in order ensures t in StatesMap(order, ss) && StatesMap(order, ss)[t] == t.State() {
      var j := IndexOf(order, t);
    }
  }

  /** Cells read from recorded states that the tiles hold are the tiles' own cells. */
  lemma RebuiltCells(order: seq<Tile>, states: map<Tile, TileState>, survivors: seq<Tile>)
    requires forall t :: t in order ==> t in states && states[t] == t.State()
    requires forall i :: 0 <= i < |survivors| ==> survivors[i] in order
    ensures (forall t :: t in survivors ==> t in states) && CellsIn(states, survivors) == Cells(survivors)
  {
  }

  /** The recorded states of the tiles of the rebuilt dictionary are their states. */
  lemma RebuiltStates(order: seq<Tile>, states: map<Tile, TileState>, survivors: seq<Tile>, m1: map<Cell, Tile>)
    requires forall t :: t in order ==> t in states && states[t] == t.State()
    requires forall i :: 0 <= i < |survivors| ==> survivors[i] in order
    requires m1 == BoardOf(survivors)
    ensures Recorded(states, m1) == SnapOf(m1).states
  {
    RebuiltRecorded(order, states, survivors, m1);
  }

  /** The tiles of the rebuilt dictionary hold the states recorded for them. */
  lemma RebuiltRecorded(order: seq<Tile>, states: map<Tile, TileState>, survivors: seq<Tile>, m1: map<Cell, Tile>)
    requires forall t :: t in order ==> t in states && states[t] == t.State()
    requires forall i :: 0 <= i < |survivors| ==> survivors[i] in order
    requires m1 == BoardOf(survivors)
    ensures forall t :: t in m1.Values ==> t in states && states[t] == t.State()
  {
    forall t | t in m1.Values ensures t in states && states[t] == t.State() {
      var k :| k in m1 && m1[k] == t;
      assert t in survivors;
    }
  }

  /**
   * `Tick` up to the rebuild of the dictionary: the tiles that stay on the
   * board, with the same facts stated of them.
   */
  method PassAndDrop(board: Board, d: Direction, blocks: set<Tile>, order: seq<Tile>, ghost s0: Snap)
    returns (updated: bool, blocks': set<Tile>, survivors: seq<Tile>)
    requires Distinct(order) && Injective(board.tiles) && s0 == SnapOf(board.tiles)
    requires forall t :: t in order <==> t in board.tiles.Values
    requires forall j :: 0 <= j < |order| ==>
      order[j].Cell() in board.tiles && board.tiles[order[j].Cell()] == order[j] && WellPlaced(order[j].State())
    modifies order
    ensures forall t :: t in survivors ==> WellPlaced(t.State())
    ensures !updated ==> BoardOf(survivors) == board.tiles
    ensures forall t :: t in survivors ==> t in order && Dist(d, t.State()) <= old(Dist(d, t.State()))
    ensures updated ==> exists t :: t in order && (t !in survivors || Dist(d, t.State()) < old(Dist(d, t.State())))
    ensures blocks <= blocks' && forall t :: t in blocks' - blocks ==> t in order
    ensures forall t :: t in order ==> t.value == if t in blocks' - blocks then 2 * old(t.value) else old(t.value)
    ensures !updated ==> Settled(d, board.tiles, blocks') && forall t :: t in order ==> t.State() == old(t.State())
    ensures var q := PassOf(d, old(board.tiles), order, old(StatesOf(order)), blocks);
      updated == q.moved && blocks' == q.cur && survivors == Without(order, q.removed) &&
      |q.states| == |order| && forall j :: 0 <= j < |order| ==> order[j].State() == q.states[j]
    ensures TickOn(d, s0, order, blocks) == TickResult(SnapOf(BoardOf(survivors)), blocks', updated)
  {
    var removed;
    ghost var before, after;
    updated, blocks', removed, before, after := Pass(board, d, order, blocks);
    survivors := DropMarked(order, removed);
    Survivors(d, order, blocks, before, after, removed, blocks', updated, board.tiles, survivors);
    TickShrinks(d, order, removed, blocks, blocks', before, after, updated, survivors);
    TickShown(d, old(board.tiles), order, blocks, BoardOf(survivors), blocks', updated);
  }
  /**
   * The tenth tick of the row 2, 2, 4, 4 slid left from rest, tile by tile,
   * as the pass processes it. The first 2 is on the edge and stays; the
   * second 2 merges into it; the first 4 finds the merged-away 2 still in
   * the dictionary and stays; the second 4 finds the first 4 and steps
   * onto its cell. The rebuilt dictionary keeps only the second 4, so the
   * board's total drops from 12 to 8.
   */
  lemma RowCollision(a: Tile, b: Tile, c: Tile, e: Tile)
    requires Distinct([a, b, c, e])
    ensures forall j :: 0 <= j < 4 ==> WellPlaced(RowBefore()[j])
    ensures ListsFor(Left, RowSnap(a, b, c, e), [a, b, c, e])
    ensures TickOn(Left, RowSnap(a, b, c, e), [a, b, c, e], {}) ==
      TickResult(Snap(map[(0, 0) := a, (0, 2) := e], map[a := RowAfter()[0], e := RowAfter()[3]]), {a}, true)
  {
    RowPlaced();
    RowListed(a, b, c, e);
    RowStatesIn(a, b, c, e);
    RowPass(a, b, c, e);
    RowRebuilt(a, b, c, e);
  }

  /** The row at the start of the tenth tick, as a snapshot. */
  function RowSnap(a: Tile, b: Tile, c: Tile, e: Tile): Snap {
    Snap(RowTiles(a, b, c, e), map[a := RowBefore()[0], b := RowBefore()[1], c := RowBefore()[2], e := RowBefore()[3]])
  }

  /** Left to right is a processing order for a left slide of the row. */
  lemma RowListed(a: Tile, b: Tile, c: Tile, e: Tile)
    requires Distinct([a, b, c, e])
    ensures ListsFor(Left, RowSnap(a, b, c, e), [a, b, c, e])
  {
    var order, s := [a, b, c, e], RowSnap(a, b, c, e);
    assert forall j :: 0 <= j < 4 ==> s.states[order[j]] == RowBefore()[j];
    RankedIff(Left, s.states, order);
    assert s.tiles.Values == {a, b, c, e} by {
      assert s.tiles[(0, 0)] == a && s.tiles[(0, 1)] == b && s.tiles[(0, 2)] == c && s.tiles[(0, 3)] == e;
    }
  }

  /**
   * The pass of the tenth tick: the second 2 merges into the first, the
   * first 4 stays and the second 4 steps to x = 400, in column 2.
   */
  lemma RowPass(a: Tile, b: Tile, c: Tile, e: Tile)
    requires Distinct([a, b, c, e])
    ensures PassOf(Left, RowTiles(a, b, c, e), [a, b, c, e], RowBefore(), {}) == PassState(RowAfter(), {a}, [b], true)
  {
    RowFirstSteps(a, b, c, e);
    RowLastSteps(a, b, c, e);
    FourSteps(Left, RowTiles(a, b, c, e), [a, b, c, e], PassState(RowBefore(), {}, [], false),
              PassState(RowMerged(), {a}, [b], true), PassState(RowAfter(), {a}, [b], true));
  }

  /** A pass over four tiles whose steps go p0, p0, p2, p2, p4 ends in p4. */
  lemma FourSteps(d: Direction, tiles: map<Cell, Tile>, order: seq<Tile>, p0: PassState, p2: PassState, p4: PassState)
    requires |order| == 4 && |p0.states| == 4 && |p2.states| == 4
    requires StepState(d, tiles, order, p0, 0) == p0 && StepState(d, tiles, order, p0, 1) == p2
    requires StepState(d, tiles, order, p2, 2) == p2 && StepState(d, tiles, order, p2, 3) == p4
    ensures PassFrom(d, tiles, order, p0, 0) == p4
  {
    assert PassFrom(d, tiles, order, p0, 0) == PassFrom(d, tiles, order, p0, 1);
    assert PassFrom(d, tiles, order, p0, 1) == PassFrom(d, tiles, order, p2, 2);
    assert PassFrom(d, tiles, order, p2, 2) == PassFrom(d, tiles, order, p2, 3);
    assert PassFrom(d, tiles, order, p2, 3) == PassFrom(d, tiles, order, p4, 4);
  }

  /** The recorded states of the row's snapshot, in processing order. */
  lemma RowStatesIn(a: Tile, b: Tile, c: Tile, e: Tile)
    requires Distinct([a, b, c, e])
    ensures StatesIn(RowSnap(a, b, c, e).states, [a, b, c, e]) == RowBefore()
  {
    var order := [a, b, c, e];
    assert order[0] != order[1] && order[0] != order[2] && order[0] != order[3];
    assert order[1] != order[2] && order[1] != order[3] && order[2] != order[3];
  }

  /** The first 2 stays and the second 2 merges into it. */
  lemma RowFirstSteps(a: Tile, b: Tile, c: Tile, e: Tile)
    requires Distinct([a, b, c, e])
    ensures var p0 := PassState(RowBefore(), {}, [], false);
      StepState(Left, RowTiles(a, b, c, e), [a, b, c, e], p0, 0) == p0 &&
      StepState(Left, RowTiles(a, b, c, e), [a, b, c, e], p0, 1) == PassState(RowMerged(), {a}, [b], true)
  {
    RowLookups(a, b, c, e);
    RowMergeStep(a, b, c, e);
    RowStates();
  }

  /** The first 4 stays and the second 4 steps to x = 400. */
  lemma RowLastSteps(a: Tile, b: Tile, c: Tile, e: Tile)
    requires Distinct([a, b, c, e])
    ensures var p2 := PassState(RowMerged(), {a}, [b], true);
      StepState(Left, RowTiles(a, b, c, e), [a, b, c, e], p2, 2) == p2 &&
      StepState(Left, RowTiles(a, b, c, e), [a, b, c, e], p2, 3) == PassState(RowAfter(), {a}, [b], true)
  {
    RowBlockedStep(a, b, c, e);
    RowChaseStep(a, b, c, e);
    RowStates();
  }

  /** The rebuild after the tenth tick keeps the first 2, now a 4, and the second 4 only. */
  lemma RowRebuilt(a: Tile, b: Tile, c: Tile, e: Tile)
    requires Distinct([a, b, c, e])
    ensures Rebuilt([a, b, c, e], PassState(RowAfter(), {a}, [b], true)) ==
      Snap(map[(0, 0) := a, (0, 2) := e], map[a := RowAfter()[0], e := RowAfter()[3]])
  {
    RowStatesMap(a, b, c, e);
    RowWithout(a, b, c, e);
    RowCells(a, b, c, e);
    RowRebuild(a, c, e);
    RowRecorded(a, b, c, e);
  }

  /** The states after the pass, by tile, as a map. */
  function RowAfterMap(a: Tile, b: Tile, c: Tile, e: Tile): map<Tile, TileState> {
    map[e := RowAfter()[3]][c := RowAfter()[2]][b := RowAfter()[1]][a := RowAfter()[0]]
  }

  /** The survivors' cells after the pass: both 4s on column 2. */
  lemma RowCells(a: Tile, b: Tile, c: Tile, e: Tile)
    requires Distinct([a, b, c, e])
    ensures CellsIn(RowAfterMap(a, b, c, e), [a, c, e]) == [(0, 0), (0, 2), (0, 2)]
  {
    var order := [a, b, c, e];
    assert order[0] != order[2] && order[0] != order[3] && order[1] != order[2] && order[1] != order[3] && order[2] != order[3];
    var m := RowAfterMap(a, b, c, e);
    assert m[a] == RowAfter()[0] && m[c] == RowAfter()[2] && m[e] == RowAfter()[3];
  }

  /** The recorded states of the rebuilt dictionary. */
  lemma RowRecorded(a: Tile, b: Tile, c: Tile, e: Tile)
    requires Distinct([a, b, c, e])
    ensures Recorded(RowAfterMap(a, b, c, e), map[(0, 0) := a, (0, 2) := e]) == map[a := RowAfter()[0], e := RowAfter()[3]]
  {
    var order := [a, b, c, e];
    assert order[0] != order[1] && order[0] != order[2] && order[0] != order[3];
    assert order[1] != order[3] && order[2] != order[3];
    var m := RowAfterMap(a, b, c, e);
    assert m[a] == RowAfter()[0] && m[e] == RowAfter()[3];
    var tiles := map[(0, 0) := a, (0, 2) := e];
    assert tiles.Values == {a, e} by {
      assert tiles[(0, 0)] == a && tiles[(0, 2)] == e;
    }
  }

  /** The states after the pass, by tile. */
  lemma RowStatesMap(a: Tile, b: Tile, c: Tile, e: Tile)
    ensures StatesMap([a, b, c, e], RowAfter()) == RowAfterMap(a, b, c, e)
  {
    var ss := RowAfter();
    assert StatesMap([e], ss[3..]) == map[e := ss[3]] by {
      assert [e][1..] == [] && ss[3..][1..] == [];
    }
    assert StatesMap([c, e], ss[2..]) == map[e := ss[3]][c := ss[2]] by {
      assert [c, e][1..] == [e] && ss[2..][1..] == ss[3..];
    }
    assert StatesMap([b, c, e], ss[1..]) == map[e := ss[3]][c := ss[2]][b := ss[1]] by {
      assert [b, c, e][1..] == [c, e] && ss[1..][1..] == ss[2..];
    }
    assert [a, b, c, e][1..] == [b, c, e];
  }

  /** Dropping the merged-away 2 leaves the other three tiles in order. */
  lemma RowWithout(a: Tile, b: Tile, c: Tile, e: Tile)
    requires Distinct([a, b, c, e])
    ensures Without([a, b, c, e], [b]) == [a, c, e]
  {
    var order := [a, b, c, e];
    assert order[0] != order[1] && order[2] != order[1] && order[3] != order[1];
    assert Without([e], [b]) == [e] by {
      assert [e][1..] == [];
    }
    assert Without([c, e], [b]) == [c, e] by {
      assert [c, e][1..] == [e];
    }
    assert Without([b, c, e], [b]) == [c, e] by {
      assert [b, c, e][1..] == [c, e];
    }
    assert order[1..] == [b, c, e];
  }

  /** The row's states after the tenth tick's pass. */
  function RowAfter(): seq<TileState> {
    [TileState(4, 0, 0, 0, 0), TileState(2, 0, 1, 20, 0), TileState(4, 0, 2, 240, 0), TileState(4, 0, 2, 400, 0)]
  }

  /** The dictionary at the start of the tenth tick: each tile under its own cell. */
  function RowTiles(a: Tile, b: Tile, c: Tile, e: Tile): map<Cell, Tile> {
    map[(0, 0) := a, (0, 1) := b, (0, 2) := c, (0, 3) := e]
  }

  /** The 2 on the edge stays and the second 2 merges into it. */
  lemma RowMergeStep(a: Tile, b: Tile, c: Tile, e: Tile)
    requires Distinct([a, b, c, e])
    ensures Choice(Left, RowTiles(a, b, c, e), [a, b, c, e], RowBefore(), {}, 0) == Stay
    ensures Choice(Left, RowTiles(a, b, c, e), [a, b, c, e], RowBefore(), {}, 1) == Merge
  {
    RowLookups(a, b, c, e);
  }

  /** The first 4 is held back by the merged-away 2, still in the dictionary. */
  lemma RowBlockedStep(a: Tile, b: Tile, c: Tile, e: Tile)
    requires Distinct([a, b, c, e])
    ensures Choice(Left, RowTiles(a, b, c, e), [a, b, c, e], RowMerged(), {a}, 2) == Stay
  {
    RowLookups(a, b, c, e);
    var order := [a, b, c, e];
    assert order[0] != order[2] && order[0] != order[1];
  }

  /** The second 4 steps towards the first, which has not moved. */
  lemma RowChaseStep(a: Tile, b: Tile, c: Tile, e: Tile)
    requires Distinct([a, b, c, e])
    ensures Choice(Left, RowTiles(a, b, c, e), [a, b, c, e], RowMerged(), {a}, 3) == Slide
  {
    RowLookups(a, b, c, e);
    var order := [a, b, c, e];
    assert order[0] != order[3] && order[0] != order[2];
  }

  /** The row's states at the start of the tenth tick (value, row, col, x, y). */
  function RowBefore(): seq<TileState> {
    [TileState(2, 0, 0, 0, 0), TileState(2, 0, 1, 20, 0), TileState(4, 0, 2, 240, 0), TileState(4, 0, 3, 420, 0)]
  }

  /** The row's states once the second 2 has merged into the first. */
  function RowMerged(): seq<TileState> {
    [TileState(4, 0, 0, 0, 0), TileState(2, 0, 1, 20, 0), TileState(4, 0, 2, 240, 0), TileState(4, 0, 3, 420, 0)]
  }

  /** The row's states are well placed. */
  lemma RowPlaced()
    ensures forall j :: 0 <= j < 4 ==> WellPlaced(RowBefore()[j])
  {
    assert IsPow2(2) && IsPow2(4) by {
      assert IsPow2(4 / 2);
    }
    assert FloorDiv(20, 200) == 0 && CeilDiv(20, 200) == 1;
    assert FloorDiv(240, 200) == 1 && CeilDiv(240, 200) == 2;
    assert FloorDiv(420, 200) == 2 && CeilDiv(420, 200) == 3;
  }

  /**
   * The merge doubles the first 2 and leaves the merged-away 2 in column 1
   * (`Target` of a merge); the second 4's step lands in column 2.
   */
  lemma RowStates()
    ensures RowMerged() == RowBefore()[0 := RowBefore()[0].(value := 2 * RowBefore()[0].value)]
                                      [1 := Target(Left, RowBefore()[1], Merge)]
    ensures Advanced(Left, RowMerged()[3]) == TileState(4, 0, 2, 400, 0)
  {
    assert CeilDiv(20, 200) == 1 && CeilDiv(400, 200) == 2 && CeilDiv(0, 200) == 0;
  }

  /** Where each tile of the row finds its neighbour in the processing order. */
  lemma RowLookups(a: Tile, b: Tile, c: Tile, e: Tile)
    requires Distinct([a, b, c, e])
    ensures NbrIdx(Left, RowTiles(a, b, c, e), [a, b, c, e], TileState(2, 0, 1, 20, 0)) == 0
    ensures NbrIdx(Left, RowTiles(a, b, c, e), [a, b, c, e], TileState(4, 0, 2, 240, 0)) == 1
    ensures NbrIdx(Left, RowTiles(a, b, c, e), [a, b, c, e], TileState(4, 0, 3, 420, 0)) == 2
  {
    var order := [a, b, c, e];
    assert order[0] != order[1] && order[0] != order[2] && order[1] != order[2];
    assert IndexOf(order, a) == 0;
    assert IndexOf(order, b) == 1 by {
      assert order[1..] == [b, c, e];
    }
    assert IndexOf(order, c) == 2 by {
      assert order[1..] == [b, c, e] && order[1..][1..] == [c, e];
    }
  }

  /** The rebuild from the row's three survivors, two of them on column 2. */
  lemma RowRebuild(a: Tile, c: Tile, e: Tile)
    ensures MapFrom([(0, 0), (0, 2), (0, 2)], [a, c, e]) == map[(0, 0) := a, (0, 2) := e]
  {
    assert [(0, 0), (0, 2), (0, 2)][..2] == [(0, 0), (0, 2)] && [a, c, e][..2] == [a, c];
    assert [(0, 0), (0, 2)][..1] == [(0, 0)] && [a, c][..1] == [a];
    assert [(0, 0)][..0] == [] && [a][..0] == [];
  }
}
