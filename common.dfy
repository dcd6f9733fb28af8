/**
 * Fixed-width machine integers and small helpers shared by every module.
 *
 * C integer types are modelled as subsets of `int`; wrap-around is written
 * out explicitly with `%` wherever the source relies on it.
 */
module Common {

  type byte = x: int | 0 <= x < 0x100
  type u16 = x: int | 0 <= x < 0x1_0000
  type u32 = x: int | 0 <= x < 0x1_0000_0000
  type u64 = x: int | 0 <= x < 0x1_0000_0000_0000_0000
  type i32 = x: int | -0x8000_0000 <= x < 0x8000_0000

  const TWO_32: int := 0x1_0000_0000
  const TWO_64: int := 0x1_0000_0000_0000_0000

  datatype Option<T> = None | Some(value: T)

  /** Reduction of an integer to an unsigned 32-bit word (a C cast to u32). */
  function U32(x: int): (r: u32)
    ensures (x - r) % TWO_32 == 0
    ensures 0 <= x < TWO_32 ==> r == x
  {
    x % TWO_32
  }

  /** Reduction of an integer to an unsigned 64-bit word (u64 wrap-around). */
  function U64(x: int): (r: u64)
    ensures (x - r) % TWO_64 == 0
    ensures 0 <= x < TWO_64 ==> r == x
  {
    x % TWO_64
  }

  /**
   * Byte `i` of `a`, least significant first: `(a >> 8 * i) & 0xFF` with an
   * arithmetic shift, which is what Euclidean `/` by a power of two gives.
   */
  function ByteOf(a: int, i: nat): byte
    decreases i
  {
    if i == 0 then a % 0x100 else ByteOf(a / 0x100, i - 1)
  }

  function Min(a: int, b: int): (r: int)
    ensures r <= a && r <= b && (r == a || r == b)
  {
    if a <= b then a else b
  }

  /** `n` copies of `x`: a buffer after `memset`. */
  function Repeat<T>(x: T, n: nat): (s: seq<T>)
    ensures |s| == n
    ensures forall i :: 0 <= i < n ==> s[i] == x
  {
    seq(n, _ => x)
  }

  lemma MulMono(a: nat, b: nat, m: nat)
    requires a <= b
    ensures a * m <= b * m
  {
    assert b * m == a * m + (b - a) * m;
  }

  /** Quotient and remainder are the unique `q`, `r` with `a == m * q + r` and `0 <= r < m`. */
  lemma DivModUnique(a: int, m: int, q: int, r: int)
    requires m > 0 && a == m * q + r && 0 <= r < m
    ensures a / m == q && a % m == r
  {
    var q0, r0 := a / m, a % m;
    assert a == m * q0 + r0;
    assert m * (q - q0) == r0 - r;
    if q > q0 {
      MulMono(1, q - q0, m);
    } else if q < q0 {
      MulMono(1, q0 - q, m);
    }
  }

  /** C's `/` on signed integers: the quotient is truncated toward zero. */
  function TruncDiv(a: int, b: int): (q: int)
    requires b != 0
    ensures a >= 0 && b > 0 ==> q == a / b
    ensures q * b == a - TruncRem(a, b)
  {
    if (a >= 0) == (b > 0) then
      (if a >= 0 then a / b else (-a) / (-b))
    else
      -((if a >= 0 then a else -a) / (if b > 0 then b else -b))
  }

  /** C's `%`: the remainder has the sign of the dividend. */
  function TruncRem(a: int, b: int): int
    requires b != 0
  {
    var m := if b > 0 then b else -b;
    if a >= 0 then a % m else -((-a) % m)
  }

  /** The high 32 bits of a 64-bit word (`x >> 32`). */
  function Hi32(x: u64): u32
  {
    x / TWO_32
  }

  /** The low 32 bits of a 64-bit word (the cast `(u32)x`). */
  function Lo32(x: u64): u32
  {
    x % TWO_32
  }

  /** `((u64)hi << 32) | lo`: the two words side by side. */
  function Join64(hi: u32, lo: u32): (r: u64)
  {
    MulMono(hi, TWO_32 - 1, TWO_32);
    hi * TWO_32 + lo
  }

  /** Splitting a word and joining the halves gives it back, and joining two halves then splitting gives them back. */
  lemma SplitJoin(x: u64, hi: u32, lo: u32)
    ensures Join64(Hi32(x), Lo32(x)) == x
    ensures Hi32(Join64(hi, lo)) == hi && Lo32(Join64(hi, lo)) == lo
  {
    DivModUnique(Join64(hi, lo), TWO_32, hi, lo);
  }

  /** Adding after a reduction modulo 2^64 is adding before it. */
  lemma U64AddMod(x: int, y: int)
    ensures U64(U64(x) + y) == U64(x + y)
  {
    DivModUnique(U64(x) + y, TWO_64, (x + y) / TWO_64 - x / TWO_64, U64(x + y));
  }

  /** Two sums that differ by whole turns of 2^64 reduce to the same word. */
  lemma Congruent(a: int, b: int)
    requires (a - b) % TWO_64 == 0
    ensures U64(a) == U64(b)
  {
    DivModUnique(a, TWO_64, b / TWO_64 + (a - b) / TWO_64, U64(b));
  }

}
