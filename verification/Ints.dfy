/** C integer conversions and division on unbounded integers. */
module Ints {

  newtype octet = b: int | 0 <= b < 256

  function U4(x: int): (r: nat)
    ensures r < 0x1_0000_0000
  {
    x % 0x1_0000_0000
  }

  function S4(x: int): (r: int)
    ensures -0x8000_0000 <= r < 0x8000_0000
  {
    (x + 0x8000_0000) % 0x1_0000_0000 - 0x8000_0000
  }

  function S2(x: int): (r: int)
    ensures -0x8000 <= r < 0x8000
  {
    (x + 0x8000) % 0x1_0000 - 0x8000
  }

  function U2(x: int): (r: nat)
    ensures r < 0x1_0000
  {
    x % 0x1_0000
  }

  /** C division truncates toward zero. */
  function CDiv(a: int, b: int): int
    requires b > 0
  {
    if a >= 0 then a / b else -(-a / b)
  }

  /** A value that fits is not changed, and conversion only adds multiples of the modulus. */
  lemma S4Fits(x: int)
    ensures S4(x) == x <==> -0x8000_0000 <= x < 0x8000_0000
    ensures (x - S4(x)) % 0x1_0000_0000 == 0
  {
    var q := (x + 0x8000_0000) / 0x1_0000_0000;
    assert x - S4(x) == 0x1_0000_0000 * q;
  }

  lemma U4Fits(x: int)
    ensures U4(x) == x <==> 0 <= x < 0x1_0000_0000
  {
  }

  lemma S2Shift(x: int, k: int)
    ensures S2(x + 0x1_0000 * k) == S2(x)
  {
  }

  lemma SmallS2(x: int)
    ensures S2(x) == x <==> -0x8000 <= x < 0x8000
  {
  }

  /** Converting to 32 bits first makes no difference to the low 16. */
  lemma S2OfS4(x: int)
    ensures S2(S4(x)) == S2(x)
  {
    S4Fits(x);
    var k := (x - S4(x)) / 0x1_0000_0000;
    assert x == S4(x) + 0x1_0000 * (0x1_0000 * k);
    S2Shift(S4(x), 0x1_0000 * k);
  }

  lemma S4Congruent(c: int, a: int, b: int)
    ensures U4(c + a) == U4(c + b) <==> S4(a) == S4(b)
  {
    SameRemainder(c + a, c + b, 0x1_0000_0000);
    SameRemainder(a + 0x8000_0000, b + 0x8000_0000, 0x1_0000_0000);
  }

  lemma SameRemainder(a: int, b: int, m: int)
    requires m > 0
    ensures a % m == b % m <==> (a - b) % m == 0
  {
    var p, q, r := a / m, b / m, (a - b) / m;
    if a % m == b % m {
      assert a - b == m * (p - q);
      MultipleRemainder(p - q, m);
    } else if (a - b) % m == 0 {
      assert a % m - b % m == m * (r - p + q);
      NoSmallMultiple(r - p + q, m);
    }
  }

  lemma MultipleRemainder(k: int, m: int)
    requires m > 0
    ensures (m * k) % m == 0
  {
    NoSmallMultiple(k - (m * k) / m, m);
  }

  /** Only zero is a multiple of m between -m and m. */
  lemma NoSmallMultiple(k: int, m: int)
    requires m > 0
    ensures -m < m * k < m <==> k == 0
  {
    if k >= 1 {
      assert m * k >= m;
    } else if k <= -1 {
      assert m * k <= -m;
    }
  }

  /** Quotient and remainder are unique. */
  lemma ModIs(x: int, q: int, e: int, s: int)
    requires e > 0 && 0 <= s < e && x == q * e + s
    ensures x % e == s && x / e == q
  {
    var d := q - x / e;
    assert e * d == x % e - s;
    NoSmallMultiple(d, e);
  }

  lemma DistinctRemainders(x: int, y: int, e: int)
    requires e > 0 && x < y < x + e
    ensures x % e != y % e
  {
    var d := y / e - x / e;
    if x % e == y % e {
      assert e * d == y - x;
      NoSmallMultiple(d, e);
    }
  }

  lemma S4Minus(x: int, y: int)
    ensures S4(S4(x) - S4(y)) == S4(x - y)
  {
    S4Fits(x);
    S4Fits(y);
    var k, l := (x - S4(x)) / 0x1_0000_0000, (y - S4(y)) / 0x1_0000_0000;
    assert x - y == S4(x) - S4(y) + 0x1_0000_0000 * (k - l);
    S4Shift(S4(x) - S4(y), k - l);
  }

  lemma S4Shift(x: int, k: int)
    ensures S4(x + 0x1_0000_0000 * k) == S4(x)
  {
  }

  lemma S4Plus(x: int, y: int)
    ensures S4(S4(x) + y) == S4(x + y)
  {
    S4Fits(x);
    var k := (x - S4(x)) / 0x1_0000_0000;
    assert x + y == S4(x) + y + 0x1_0000_0000 * k;
    S4Shift(S4(x) + y, k);
  }

  /** A 16-bit length is positive as a signed number up to 32767; counting down by 16 it stays so until
      it is used up. */
  lemma SignedLength(n: nat)
    requires n < 0x1_0000
    ensures S2(n) > 0 <==> 1 <= n <= 0x7FFF
    ensures 16 < n <= 0x7FFF ==> U2(n - 16) == n - 16 && S2(U2(n - 16)) > 0
    ensures 1 <= n <= 16 ==> S2(U2(n - 16)) <= 0
  {
  }
}
