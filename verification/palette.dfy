/**
 * The tile palette: a tile's colour is chosen by the base-2 logarithm of
 * its value. The source takes the logarithm in floating point; here it is
 * the exact integer logarithm (rounded down), which is what the source's
 * `int(math.log2(value))` yields on the powers of two that tiles hold.
 */
module Palette {

  type Rgb = (int, int, int)

  const COLORS: seq<Rgb> := [
    (237, 229, 218),
    (238, 225, 201),
    (243, 178, 122),
    (246, 150, 101),
    (247, 124, 95),
    (247, 95, 59),
    (237, 208, 115),
    (237, 204, 99),
    (236, 202, 80)
  ]

  function Pow2(k: nat): (p: nat)
    ensures p >= 1
  {
    if k == 0 then 1 else 2 * Pow2(k - 1)
  }

  predicate IsPow2(n: int)
    decreases if n < 0 then 0 else n
  {
    n == 1 || (n > 1 && n % 2 == 0 && IsPow2(n / 2))
  }

  lemma {:induction false} Pow2Monotone(j: nat, k: nat)
    requires j <= k
    ensures Pow2(j) <= Pow2(k)
    decreases k
  {
    if j < k {
      Pow2Monotone(j, k - 1);
    }
  }

  /** The base-2 logarithm of a positive integer, rounded down. */
  function Log2(n: int): (l: nat)
    requires n >= 1
    ensures Pow2(l) <= n < Pow2(l + 1)
  {
    if n == 1 then 0 else 1 + Log2(n / 2)
  }

  lemma {:induction false} Log2OfPow2(k: nat)
    ensures Log2(Pow2(k)) == k
  {
    if k > 0 {
      Log2OfPow2(k - 1);
      assert Pow2(k) / 2 == Pow2(k - 1);
    }
  }

  /**
   * The palette index `Tile.get_color` uses: `log2(value) - 1`, clamped
   * above to the last entry. A negative index (value 1) selects from the
   * end of the palette, as Python's indexing does.
   */
  function PaletteIndex(value: int): (i: int)
    requires value >= 1
    ensures 0 <= i < |COLORS|
    ensures value >= Pow2(|COLORS|) ==> i == |COLORS| - 1
    ensures 2 <= value < Pow2(|COLORS|) ==> Pow2(i + 1) <= value < Pow2(i + 2)
    ensures value == 1 ==> i == |COLORS| - 1
  {
    var ci := Log2(value) - 1;
    var clamped := if ci < |COLORS| - 1 then ci else |COLORS| - 1;
    Log2Threshold(value, |COLORS|);
    if clamped < 0 then |COLORS| + clamped else clamped
  }

  /** Log2(n) reaches k exactly when n reaches 2^k. */
  lemma Log2Threshold(n: int, k: nat)
    requires n >= 1
    ensures n >= Pow2(k) <==> Log2(n) >= k
  {
    if n >= Pow2(k) && Log2(n) < k {
      Pow2Monotone(Log2(n) + 1, k);
    }
    if Log2(n) >= k && n < Pow2(k) {
      Pow2Monotone(k, Log2(n));
    }
  }

  /** A tile of value 2^k is painted with palette entry min(k - 1, 8). */
  lemma ColorOfPowerOfTwo(k: nat)
    requires k >= 1
    ensures PaletteIndex(Pow2(k)) == if k - 1 < |COLORS| - 1 then k - 1 else |COLORS| - 1
  {
    Log2OfPow2(k);
  }

  /** Doubling keeps a tile value a power of two. */
  lemma DoubleIsPow2(n: int)
    requires IsPow2(n)
    ensures IsPow2(2 * n)
  {
    assert (2 * n) / 2 == n;
  }
}
