/** do_rand (user/grind.c): one step of the Park-Miller generator, computed without
    a product that needs more than 31 bits. */
module ParkMiller {

  const MODULUS := 0x7fff_ffff    // 2^31 - 1
  const FACTOR := 16807           // 7^5
  const INVERSE := 1407677000     // of FACTOR, modulo MODULUS

  /** The step as the comment in the source gives it, on the range [1, MODULUS - 1]
      shifted down by one. */
  function NextRand(x: int): int {
    FACTOR * (x + 1) % MODULUS - 1
  }

  /** A number that differs from n by a multiple of m, and is in range, is n % m. */
  lemma Remainder(n: int, m: int, q: int, r: int)
    requires m > 0 && n == m * q + r && 0 <= r < m
    ensures n % m == r
  {
    var d := n / m - q;
    assert n == m * (n / m) + n % m;
    assert m * (n / m) - m * q == m * d;
    Multiple(m, d, r - n % m);
  }

  lemma Multiple(m: int, d: int, e: int)
    requires m > 0 && e == m * d && -m < e < m
    ensures d == 0 && e == 0
  {
    assert d >= 1 ==> m * d >= m;
    assert d <= -1 ==> m * d <= -m;
  }

  /** do_rand. The new context is the result. */
  method DoRand(ctx: nat) returns (x: int)
    ensures x == NextRand(ctx % 0x7fff_fffe) && 0 <= x <= 0x7fff_fffd
    ensures x + 1 == 16807 * (ctx % 0x7fff_fffe + 1) % 0x7fff_ffff
  {
    var x0 := ctx % 0x7fff_fffe + 1;
    var hi, lo := x0 / 127773, x0 % 127773;
    Schrage(x0, hi, lo);
    x := 16807 * lo - 2836 * hi;
    if x < 0 {
      x := x + 0x7fff_ffff;
    }
    x := x - 1;
  }

  /** Schrage's step is exact, and its products fit in 31 bits. */
  lemma Schrage(x: int, hi: int, lo: int)
    requires 1 <= x < MODULUS && hi == x / 127773 && lo == x % 127773
    ensures 0 <= 16807 * lo < 0x8000_0000 && 0 <= 2836 * hi < 0x8000_0000
    ensures var y := 16807 * lo - 2836 * hi;
            FACTOR * x % MODULUS == (if y < 0 then y + MODULUS else y) > 0
  {
    var y := 16807 * lo - 2836 * hi;
    assert x == 127773 * hi + lo;
    assert FACTOR * x == MODULUS * hi + y;
    NotMultiple(x, hi, y);
    if y < 0 {
      Remainder(FACTOR * x, MODULUS, hi - 1, y + MODULUS);
    } else {
      Remainder(FACTOR * x, MODULUS, hi, y);
    }
  }

  /** The product of FACTOR and a number in range is no multiple of MODULUS. */
  lemma NotMultiple(x: int, hi: int, y: int)
    requires 1 <= x < MODULUS && FACTOR * x == MODULUS * hi + y && 0 <= hi <= 16807
    ensures y != 0
  {
    if y == 0 {
      Divides(x, hi);
    }
  }

  lemma Divides(x: int, k: int)
    requires FACTOR * x == MODULUS * k && -MODULUS < x < MODULUS
    ensures x == 0
  {
    assert FACTOR * INVERSE == MODULUS * 11017 + 1;
    assert INVERSE * (FACTOR * x) == INVERSE * (MODULUS * k);
    Multiple(MODULUS, INVERSE * k - 11017 * x, x);
  }

  /** Different numbers in the range have different successors. */
  lemma Injective(a: int, b: int)
    requires 0 <= a <= 0x7fff_fffd && 0 <= b <= 0x7fff_fffd && NextRand(a) == NextRand(b)
    ensures a == b
  {
    var m, n := FACTOR * (a + 1), FACTOR * (b + 1);
    assert m == MODULUS * (m / MODULUS) + m % MODULUS;
    assert n == MODULUS * (n / MODULUS) + n % MODULUS;
    Divides(a - b, m / MODULUS - n / MODULUS);
  }

  function PreviousRand(y: int): int {
    INVERSE * (y + 1) % MODULUS - 1
  }

  /** Every number in the range has a predecessor in it. */
  lemma Onto(y: int)
    requires 0 <= y <= 0x7fff_fffd
    ensures 0 <= PreviousRand(y) <= 0x7fff_fffd && NextRand(PreviousRand(y)) == y
  {
    var p := INVERSE * (y + 1);
    var r := p % MODULUS;
    assert p == MODULUS * (p / MODULUS) + r;
    assert FACTOR * INVERSE == MODULUS * 11017 + 1;
    assert FACTOR * p == (MODULUS * 11017 + 1) * (y + 1);
    assert FACTOR * r == MODULUS * (11017 * (y + 1) - FACTOR * (p / MODULUS)) + (y + 1);
    Remainder(FACTOR * r, MODULUS, 11017 * (y + 1) - FACTOR * (p / MODULUS), y + 1);
    assert r == 0 ==> FACTOR * r == 0;
  }
}
