/** Fixed-width binary notation. */
module BitStrings {

  /** The low `width` bits of `n`, most significant first. */
  function BitsOf(n: nat, width: nat): (r: seq<bool>)
    ensures |r| == width
  {
    if width == 0 then [] else BitsOf(n / 2, width - 1) + [n % 2 == 1]
  }

  function Pow2(n: nat): (r: nat)
    ensures r >= 1
  {
    if n == 0 then 1 else 2 * Pow2(n - 1)
  }

  lemma {:induction false} BitsOfInjective(a: nat, b: nat, width: nat)
    requires a < Pow2(width) && b < Pow2(width)
    requires BitsOf(a, width) == BitsOf(b, width)
    ensures a == b
  {
    if width == 0 {
    } else {
      var x, y := BitsOf(a, width), BitsOf(b, width);
      assert x[..width - 1] == BitsOf(a / 2, width - 1) && x[width - 1] == (a % 2 == 1);
      assert y[..width - 1] == BitsOf(b / 2, width - 1) && y[width - 1] == (b % 2 == 1);
      BitsOfInjective(a / 2, b / 2, width - 1);
    }
  }
}
