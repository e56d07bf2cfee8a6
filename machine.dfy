/**
 * Fixed-width integer arithmetic of the C sources, written out: `uint64_t`
 * sums and products wrap modulo 2^64, a `uint64_t` stored into an `int64_t`
 * reinterprets the bit pattern, and C's `/` and `%` on signed operands
 * truncate toward zero.
 */
module Machine {
  const TWO64: int := 0x1_0000_0000_0000_0000
  const TWO63: int := 0x8000_0000_0000_0000

  type u64 = x: int | 0 <= x < TWO64

  /** A C `int`. */
  const TWO31: int := 0x8000_0000
  type i32 = x: int | -TWO31 <= x < TWO31

  /** Reduction of an exact result to 64 bits. */
  function Wrap64(x: int): (r: u64)
    ensures 0 <= x < TWO64 ==> r == x
    ensures (r - x) % TWO64 == 0
  {
    x % TWO64
  }

  function AddU64(a: u64, b: u64): (r: u64)
    ensures a + b < TWO64 ==> r == a + b
    ensures a + b >= TWO64 ==> r == a + b - TWO64
  {
    Wrap64(a + b)
  }

  function MulU64(a: u64, b: u64): (r: u64)
    ensures a * b < TWO64 ==> r == a * b
  {
    Wrap64(a * b)
  }

  /** `int64_t d = (uint64_t)x;` on a two's-complement target. */
  function ToInt64(x: u64): (r: int)
    ensures -TWO63 <= r < TWO63
    ensures r == x || r == x - TWO64
    ensures r < 0 <==> x >= TWO63
  {
    if x < TWO63 then x else x - TWO64
  }

  /** C's signed `/`: the quotient truncated toward zero. */
  function DivT(a: int, b: int): (r: int)
    requires b > 0
    ensures a >= 0 ==> r == a / b
    ensures a < 0 ==> r == -((-a) / b)
  {
    if a >= 0 then a / b else -((-a) / b)
  }

  /** C's signed `%`: the remainder takes the sign of the dividend. */
  function RemT(a: int, b: int): (r: int)
    requires b > 0
    ensures a >= 0 ==> 0 <= r < b
    ensures a < 0 ==> -b < r <= 0
  {
    if a >= 0 then a % b else -((-a) % b)
  }

  /** Truncating division and remainder still recompose the dividend. */
  lemma DivRemT(a: int, b: int)
    requires b > 0
    ensures DivT(a, b) * b + RemT(a, b) == a
  {
    if a < 0 {
      var n := -a;
      assert (n / b) * b + n % b == n;
      assert DivT(a, b) * b == -((n / b) * b);
    }
  }

  /** Adding an exact multiple of 2^64 disappears after wrapping. */
  lemma WrapAddMod(a: int, b: int)
    ensures Wrap64(a + Wrap64(b)) == Wrap64(a + b)
  {
    var w := Wrap64(b);
    var m := (b - w) / TWO64;
    assert b - w == m * TWO64;
    ModShift(a + w, m);
  }

  lemma ModShift(x: int, m: int)
    ensures (x + m * TWO64) % TWO64 == x % TWO64
  {
  }
}
