/** Small shared definitions: an Option type and the C integer operations the
    source relies on (truncating division, two's complement bit tests, 32-bit
    wrap-around), written out because Dafny's `int` is unbounded and its `/`
    is Euclidean. */
module Common {

  datatype Option<T> = None | Some(value: T)

  /** C's `a / b` on signed integers: the quotient truncated toward zero. */
  function CDiv(a: int, b: int): (q: int)
    requires b != 0
    ensures b > 0 && a >= 0 ==> q == a / b
    ensures b > 0 ==> (if a >= 0 then q * b <= a < q * b + b else q * b - b < a <= q * b)
  {
    if a >= 0 then a / b
    else if b > 0 then -((-a) / b)
    else if a % b == 0 then a / b else a / b + 1
  }

  /** ffmpeg's `AV_NOPTS_VALUE` (INT64_MIN): "no timestamp". */
  const NoPts: int := -0x8000_0000_0000_0000

  const TwoPow31: int := 0x8000_0000
  const TwoPow32: int := 0x1_0000_0000

  predicate IsInt32(x: int) { -TwoPow31 <= x < TwoPow31 }

  /** Conversion of a wider integer to a 32-bit `int`, two's complement wrap. */
  function ToInt32(x: int): (r: int)
    ensures IsInt32(r)
    ensures IsInt32(x) ==> r == x
    ensures (r - x) % TwoPow32 == 0
  {
    var m := (x + TwoPow31) % TwoPow32;
    assert (m - TwoPow31 - x) % TwoPow32 == 0;
    m - TwoPow31
  }

  /** C's `abs` on a 32-bit int; `abs(INT_MIN)` wraps back to INT_MIN. */
  function Abs32(x: int): (r: int)
    requires IsInt32(x)
    ensures x != -TwoPow31 ==> r >= 0 && (r == x || r == -x)
    ensures x == -TwoPow31 ==> r == x
  {
    if x >= 0 then x else if x == -TwoPow31 then x else -x
  }

  function Pow2(k: nat): (p: nat)
    ensures p >= 1
  {
    if k == 0 then 1 else 2 * Pow2(k - 1)
  }

  /** Bit `k` of `x` in two's complement (also for negative `x`). */
  function Bit(x: int, k: nat): (b: int)
    ensures b == 0 || b == 1
  {
    (x / Pow2(k)) % 2
  }

  /** `x ^ 1`: flips bit 0 of a two's complement integer. */
  function XorOne(x: int): (r: int)
    ensures Bit(r, 0) != Bit(x, 0)
    ensures r / 2 == x / 2
  {
    if x % 2 == 0 then x + 1 else x - 1
  }

  lemma XorOneTwice(x: int)
    ensures XorOne(XorOne(x)) == x
  {
  }
}
