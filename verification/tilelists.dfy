/**
 * Lists of tiles as one slide handles them: sorted into processing order,
 * thinned by the tiles that merged away, and summed.
 */
module TileLists {
  import opened Tiles
  import opened Directions

  predicate Distinct<T(==)>(s: seq<T>) {
    forall i, j :: 0 <= i < j < |s| ==> s[i] != s[j]
  }

  lemma {:induction false} DistinctCountsOnce<T>(s: seq<T>, x: T)
    requires Distinct(s)
    ensures multiset(s)[x] <= 1
  {
    if s != [] {
      assert s == [s[0]] + s[1..];
      assert Distinct(s[1..]) by {
        forall i, j | 0 <= i < j < |s[1..]| ensures s[1..][i] != s[1..][j] {
          assert s[1..][i] == s[i + 1] && s[1..][j] == s[j + 1];
        }
      }
      DistinctCountsOnce(s[1..], x);
      if x == s[0] {
        assert x !in s[1..] by {
          forall k | 0 <= k < |s[1..]| ensures s[1..][k] != x {
            assert s[1..][k] == s[k + 1];
          }
        }
      }
    }
  }

  /** A permutation of a list without repetitions has none either. */
  lemma PermutationDistinct<T>(a: seq<T>, b: seq<T>)
    requires multiset(a) == multiset(b) && Distinct(a)
    ensures Distinct(b)
  {
    forall i, j | 0 <= i < j < |b| ensures b[i] != b[j] {
      if b[i] == b[j] {
        var x := b[i];
        assert b == b[..i] + [x] + b[i + 1..j] + [x] + b[j + 1..];
        assert multiset(b)[x] >= 2;
        DistinctCountsOnce(a, x);
        assert false;
      }
    }
  }

  /**
   * The list without the tiles listed in `gone`, order kept: what the
   * removal loop leaves of the sorted tiles.
   */
  function Without(s: seq<Tile>, gone: seq<Tile>): (r: seq<Tile>)
    ensures |r| <= |s|
  {
    if s == [] then []
    else
      var rest := Without(s[1..], gone);
      if s[0] in gone then rest else [s[0]] + rest
  }

  /** Every tile the removal loop leaves was in the list. */
  lemma WithoutWithin(s: seq<Tile>, gone: seq<Tile>)
    ensures forall i :: 0 <= i < |Without(s, gone)| ==> Without(s, gone)[i] in s
  {
    WithoutMembers(s, gone);
  }

  /**
   * What the removal loop leaves: only tiles of the list that were not
   * marked, every unmarked tile, and no repeats if the list had none.
   */
  lemma {:induction false} WithoutMembers(s: seq<Tile>, gone: seq<Tile>)
    ensures forall i :: 0 <= i < |Without(s, gone)| ==> Without(s, gone)[i] in s && Without(s, gone)[i] !in gone
    ensures forall i :: 0 <= i < |s| && s[i] !in gone ==> s[i] in Without(s, gone)
    ensures Distinct(s) ==> Distinct(Without(s, gone))
  {
    if s != [] {
      WithoutMembers(s[1..], gone);
      assert Distinct(s) ==> s[0] !in s[1..] && Distinct(s[1..]) by {
        if Distinct(s) {
          forall k | 0 <= k < |s[1..]| ensures s[1..][k] != s[0] {
            assert s[1..][k] == s[k + 1];
          }
        }
      }
      forall i | 0 <= i < |s| && s[i] !in gone ensures s[i] in Without(s, gone) {
        if i > 0 {
          assert s[i] == s[1..][i - 1];
        }
      }
    }
  }

  lemma {:induction false} WithoutNothing(s: seq<Tile>)
    ensures Without(s, []) == s
  {
    if s != [] {
      WithoutNothing(s[1..]);
    }
  }

  /** Python's `list.remove(x)`: drop the first occurrence of x. */
  function RemoveFirst<T(==)>(s: seq<T>, x: T): (r: seq<T>)
    requires x in s
    ensures |r| == |s| - 1
    ensures multiset(r) == multiset(s) - multiset{x}
  {
    if s[0] == x then
      assert s == [s[0]] + s[1..];
      s[1..]
    else
      assert s == [s[0]] + s[1..];
      [s[0]] + RemoveFirst(s[1..], x)
  }

  /**
   * On a list without repetitions, removing a tile that is still in the
   * thinned list is the same as listing it among the tiles left out.
   */
  lemma {:induction false} RemoveFromWithout(s: seq<Tile>, gone: seq<Tile>, t: Tile)
    requires Distinct(s)
    ensures t in Without(s, gone) ==> RemoveFirst(Without(s, gone), t) == Without(s, gone + [t])
    ensures t !in Without(s, gone) ==> Without(s, gone) == Without(s, gone + [t])
  {
    if s != [] {
      assert Distinct(s[1..]) && s[0] !in s[1..] by {
        forall k | 0 <= k < |s[1..]| ensures s[1..][k] != s[0] {
          assert s[1..][k] == s[k + 1];
        }
      }
      RemoveFromWithout(s[1..], gone, t);
      WithoutMembers(s[1..], gone);
      if s[0] == t && t !in gone {
        assert t !in Without(s[1..], gone);
      }
    }
  }

  /**
   * The removal loop of a tick: `for t in tiles_to_remove: if t in
   * sorted_tiles: sorted_tiles.remove(t)`. On a list without repetitions
   * it leaves exactly the tiles that were not marked, in their order.
   */
  method DropMarked(sorted: seq<Tile>, marked: seq<Tile>) returns (r: seq<Tile>)
    requires Distinct(sorted)
    ensures r == Without(sorted, marked)
  {
    r := sorted;
    WithoutNothing(sorted);
    assert marked[..0] == [];
    for k := 0 to |marked|
      invariant r == Without(sorted, marked[..k])
    {
      var t := marked[k];
      DropOne(sorted, marked, k);
      if t in r {
        r := RemoveFirst(r, t);
      }
    }
    assert marked[..|marked|] == marked;
  }

  /** One round of the removal loop: removing the next marked tile, if present, marks it. */
  lemma DropOne(sorted: seq<Tile>, marked: seq<Tile>, k: int)
    requires Distinct(sorted) && 0 <= k < |marked|
    ensures marked[k] in Without(sorted, marked[..k]) ==>
      RemoveFirst(Without(sorted, marked[..k]), marked[k]) == Without(sorted, marked[..k + 1])
    ensures marked[k] !in Without(sorted, marked[..k]) ==>
      Without(sorted, marked[..k]) == Without(sorted, marked[..k + 1])
  {
    assert marked[..k + 1] == marked[..k] + [marked[k]];
    RemoveFromWithout(sorted, marked[..k], marked[k]);
  }

  /** The key a slide sorts a tile by. */
  function Key(d: Direction, t: Tile): int
    reads t
  {
    SortKey(d, t.State())
  }

  predicate SortedFor(d: Direction, s: seq<Tile>)
    reads s
  {
    forall i, j :: 0 <= i < j < |s| ==> InOrder(d, Key(d, s[i]), Key(d, s[j]))
  }

  /** A tile paired with its sort key, read once before sorting. */
  type Keyed = (Tile, int)

  predicate SortedKeys(d: Direction, es: seq<Keyed>) {
    forall i, j :: 0 <= i < j < |es| ==> InOrder(d, es[i].1, es[j].1)
  }

  /**
   * Insert e ahead of the first entry it may precede, which is ahead of any
   * entries with the same key: inserting the earlier entries last keeps
   * equal keys in their original order.
   */
  function InsertKeyed(d: Direction, e: Keyed, es: seq<Keyed>): (r: seq<Keyed>)
    requires SortedKeys(d, es)
    ensures SortedKeys(d, r)
    ensures multiset(r) == multiset(es) + multiset{e}
  {
    if es == [] || InOrder(d, e.1, es[0].1) then
      [e] + es
    else
      assert es == [es[0]] + es[1..];
      var rest := InsertKeyed(d, e, es[1..]);
      HeadPrecedes(d, e, es, rest);
      [es[0]] + rest
  }

  /**
   * The head of a sorted list may precede every entry of a reordering of
   * its tail with one entry added that the head may not follow.
   */
  lemma HeadPrecedes(d: Direction, e: Keyed, es: seq<Keyed>, rest: seq<Keyed>)
    requires SortedKeys(d, es) && es != [] && !InOrder(d, e.1, es[0].1)
    requires multiset(rest) == multiset(es[1..]) + multiset{e}
    ensures forall i :: 0 <= i < |rest| ==> InOrder(d, es[0].1, rest[i].1)
  {
    forall i | 0 <= i < |rest| ensures InOrder(d, es[0].1, rest[i].1) {
      assert rest[i] in multiset(rest);
      if rest[i] != e {
        assert rest[i] in multiset(es[1..]);
        var m :| 0 <= m < |es[1..]| && es[1..][m] == rest[i];
        assert es[1..][m] == es[m + 1];
      }
    }
  }

  /** Insertion sort on the keys; stable, since each entry goes ahead of later equal ones. */
  function SortKeyed(d: Direction, es: seq<Keyed>): (r: seq<Keyed>)
    ensures SortedKeys(d, r)
    ensures multiset(r) == multiset(es)
  {
    if es == [] then []
    else
      assert es == [es[0]] + es[1..];
      InsertKeyed(d, es[0], SortKeyed(d, es[1..]))
  }

  function KeyedBy(d: Direction, s: seq<Tile>): (es: seq<Keyed>)
    reads s
    ensures |es| == |s| && forall i :: 0 <= i < |s| ==> es[i] == (s[i], Key(d, s[i]))
  {
    if s == [] then [] else [(s[0], Key(d, s[0]))] + KeyedBy(d, s[1..])
  }

  function TilesOf(es: seq<Keyed>): (s: seq<Tile>)
    ensures |s| == |es| && forall i :: 0 <= i < |es| ==> s[i] == es[i].0
  {
    if es == [] then [] else [es[0].0] + TilesOf(es[1..])
  }

  lemma {:induction false} InsertKeepsTiles(d: Direction, e: Keyed, es: seq<Keyed>)
    requires SortedKeys(d, es)
    ensures multiset(TilesOf(InsertKeyed(d, e, es))) == multiset(TilesOf(es)) + multiset{e.0}
  {
    if es == [] || InOrder(d, e.1, es[0].1) {
      assert TilesOf([e] + es) == [e.0] + TilesOf(es);
    } else {
      InsertKeepsTiles(d, e, es[1..]);
      assert TilesOf([es[0]] + InsertKeyed(d, e, es[1..])) == [es[0].0] + TilesOf(InsertKeyed(d, e, es[1..]));
      assert TilesOf(es) == [es[0].0] + TilesOf(es[1..]);
    }
  }

  lemma {:induction false} SortKeepsTiles(d: Direction, es: seq<Keyed>)
    ensures multiset(TilesOf(SortKeyed(d, es))) == multiset(TilesOf(es))
  {
    if es != [] {
      SortKeepsTiles(d, es[1..]);
      InsertKeepsTiles(d, es[0], SortKeyed(d, es[1..]));
      assert TilesOf(es) == [es[0].0] + TilesOf(es[1..]);
    }
  }

  /**
   * `sorted(tiles, key=sort_func, reverse=...)`: the tiles in ascending key
   * order for a left or up slide, descending for right or down, and a
   * permutation of the input.
   */
  function SortTiles(d: Direction, s: seq<Tile>): (r: seq<Tile>)
    reads s
    ensures SortedFor(d, r)
    ensures multiset(r) == multiset(s)
  {
    SortTilesFacts(d, s);
    TilesOf(SortKeyed(d, KeyedBy(d, s)))
  }

  lemma SortTilesFacts(d: Direction, s: seq<Tile>)
    ensures SortedFor(d, TilesOf(SortKeyed(d, KeyedBy(d, s))))
    ensures multiset(TilesOf(SortKeyed(d, KeyedBy(d, s)))) == multiset(s)
  {
    var es := KeyedBy(d, s);
    var sorted := SortKeyed(d, es);
    assert TilesOf(es) == s;
    SortKeepsTiles(d, es);
    KeysStayPaired(d, s, sorted);
  }

  /** Every entry of a reordering of `KeyedBy(d, s)` still carries its own tile's key. */
  lemma KeysStayPaired(d: Direction, s: seq<Tile>, sorted: seq<Keyed>)
    requires multiset(sorted) == multiset(KeyedBy(d, s)) && SortedKeys(d, sorted)
    ensures SortedFor(d, TilesOf(sorted))
  {
    var es := KeyedBy(d, s);
    forall i | 0 <= i < |sorted| ensures sorted[i].1 == Key(d, sorted[i].0) {
      assert sorted[i] in multiset(es);
      var m :| 0 <= m < |es| && es[m] == sorted[i];
    }
  }

  function Sum(vs: seq<int>): int {
    if vs == [] then 0 else vs[0] + Sum(vs[1..])
  }

  /** The values of a list of tiles, summed. */
  function ValueSum(ts: seq<Tile>): int
    reads ts
  {
    if ts == [] then 0 else ts[0].value + ValueSum(ts[1..])
  }

  /** The sum of vs over the positions whose tile is not in `gone`. */
  function MaskedSum(vs: seq<int>, ts: seq<Tile>, gone: seq<Tile>): int
    requires |vs| == |ts|
  {
    if ts == [] then 0
    else (if ts[0] in gone then 0 else vs[0]) + MaskedSum(vs[1..], ts[1..], gone)
  }

  lemma {:induction false} MaskedNone(vs: seq<int>, ts: seq<Tile>)
    requires |vs| == |ts|
    ensures MaskedSum(vs, ts, []) == Sum(vs)
  {
    if ts != [] {
      MaskedNone(vs[1..], ts[1..]);
    }
  }

  /** Changing one value changes the masked sum by the difference, unless that tile is masked. */
  lemma {:induction false} MaskedUpdate(vs: seq<int>, ts: seq<Tile>, gone: seq<Tile>, j: int, w: int)
    requires |vs| == |ts| && 0 <= j < |ts|
    ensures MaskedSum(vs[j := w], ts, gone) ==
            MaskedSum(vs, ts, gone) + (if ts[j] in gone then 0 else w - vs[j])
  {
    if j == 0 {
      assert vs[j := w][1..] == vs[1..];
    } else {
      assert vs[j := w][1..] == vs[1..][j - 1 := w];
      MaskedUpdate(vs[1..], ts[1..], gone, j - 1, w);
    }
  }

  /** Masking one more tile of a list without repetitions subtracts its value. */
  lemma {:induction false} MaskedGone(vs: seq<int>, ts: seq<Tile>, gone: seq<Tile>, j: int)
    requires |vs| == |ts| && 0 <= j < |ts| && Distinct(ts) && ts[j] !in gone
    ensures MaskedSum(vs, ts, gone + [ts[j]]) == MaskedSum(vs, ts, gone) - vs[j]
  {
    assert Distinct(ts[1..]) by {
      forall a, b | 0 <= a < b < |ts[1..]| ensures ts[1..][a] != ts[1..][b] {
        assert ts[1..][a] == ts[a + 1] && ts[1..][b] == ts[b + 1];
      }
    }
    if j == 0 {
      MaskedSame(vs[1..], ts[1..], gone, ts[0]);
    } else {
      assert ts[0] != ts[j];
      MaskedGone(vs[1..], ts[1..], gone, j - 1);
    }
  }

  /** Masking a tile that is not in the list changes nothing. */
  lemma {:induction false} MaskedSame(vs: seq<int>, ts: seq<Tile>, gone: seq<Tile>, t: Tile)
    requires |vs| == |ts| && t !in ts
    ensures MaskedSum(vs, ts, gone + [t]) == MaskedSum(vs, ts, gone)
  {
    if ts != [] {
      assert ts == [ts[0]] + ts[1..];
      MaskedSame(vs[1..], ts[1..], gone, t);
    }
  }

  /** The tiles left after the removal loop sum to the masked sum of the values. */
  lemma {:induction false} WithoutSum(vs: seq<int>, ts: seq<Tile>, gone: seq<Tile>)
    requires |vs| == |ts| && forall j :: 0 <= j < |ts| ==> ts[j].value == vs[j]
    ensures ValueSum(Without(ts, gone)) == MaskedSum(vs, ts, gone)
  {
    if ts != [] {
      WithoutSum(vs[1..], ts[1..], gone);
    }
  }

  /** A sum of integers that is smaller at one place and nowhere larger is smaller. */
  lemma {:induction false} PointwiseDecrease(a: seq<int>, b: seq<int>, k: int)
    requires |a| == |b| && 0 <= k < |a|
    requires forall j :: 0 <= j < |a| ==> b[j] <= a[j]
    requires b[k] < a[k]
    ensures Sum(b) < Sum(a)
  {
    if k == 0 {
      PointwiseAtMost(a[1..], b[1..]);
    } else {
      PointwiseDecrease(a[1..], b[1..], k - 1);
    }
  }

  lemma {:induction false} PointwiseAtMost(a: seq<int>, b: seq<int>)
    requires |a| == |b|
    requires forall j :: 0 <= j < |a| ==> b[j] <= a[j]
    ensures Sum(b) <= Sum(a)
  {
    if a != [] {
      PointwiseAtMost(a[1..], b[1..]);
    }
  }

  lemma {:induction false} SumNonNegative(a: seq<int>)
    requires forall j :: 0 <= j < |a| ==> a[j] >= 0
    ensures Sum(a) >= 0
  {
    if a != [] {
      SumNonNegative(a[1..]);
    }
  }
}
