/** Integer helpers: powers of two, the integer ceiling of log2, decimal rendering. */
module Numeric {

  function Pow2(n: nat): (r: nat)
    ensures r >= 1
  {
    if n == 0 then 1 else 2 * Pow2(n - 1)
  }

  lemma {:induction false} Pow2Above(n: nat)
    ensures Pow2(n) > n
  {
    if n > 0 {
      Pow2Above(n - 1);
    }
  }

  lemma {:induction false} Pow2Monotone(m: nat, n: nat)
    requires m <= n
    ensures Pow2(m) <= Pow2(n)
  {
    if m < n {
      Pow2Monotone(m, n - 1);
    }
  }

  /**
   * The bit count `math.ceil(math.log2(n))` used to size the comparisons:
   * the least exponent b with n <= 2^b.
   */
  function CeilLog2(n: nat): (b: nat)
    requires n >= 1
    ensures n <= Pow2(b)
    ensures b == 0 || Pow2(b - 1) < n
    decreases n
  {
    if n == 1 then 0 else CeilLog2((n + 1) / 2) + 1
  }

  /** The bit counts of the shortest comparisons. */
  lemma SmallLogs()
    ensures CeilLog2(2) == 1 && CeilLog2(3) == 2 && CeilLog2(4) == 2 && CeilLog2(5) == 3
    ensures Pow2(1) == 2 && Pow2(2) == 4 && Pow2(3) == 8
  {
  }

  lemma CeilLog2Below(n: nat)
    requires n >= 1
    ensures CeilLog2(n) <= n - 1
  {
    var b := CeilLog2(n);
    if b > 0 {
      Pow2Above(b - 1);
    }
  }

  lemma CeilLog2Monotone(m: nat, n: nat)
    requires 1 <= m <= n
    ensures CeilLog2(m) <= CeilLog2(n)
  {
    var bm, bn := CeilLog2(m), CeilLog2(n);
    if bn < bm {
      Pow2Monotone(bn, bm - 1);
    }
  }

  /** CeilLog2 is the least such exponent: any b with n <= 2^b is at least CeilLog2(n). */
  lemma {:induction false} CeilLog2AtMost(n: nat, b: nat)
    requires n >= 1 && n <= Pow2(b)
    ensures CeilLog2(n) <= b
    decreases n
  {
    if n > 1 {
      assert b >= 1;
      assert (n + 1) / 2 <= Pow2(b - 1);
      CeilLog2AtMost((n + 1) / 2, b - 1);
    }
  }

  lemma {:induction false} Pow2Linear(k: nat)
    requires k >= 2
    ensures Pow2(k) >= 2 * k
  {
    if k > 2 {
      Pow2Linear(k - 1);
    }
  }

  /** 2^d leaves room above d, and above d + 1 once d >= 2. */
  lemma RoomAbove(d: nat, k: nat)
    requires d >= 1 && k <= 1 && (k == 0 || d >= 2)
    ensures d + k < Pow2(d)
  {
    Pow2Above(d);
    if k == 1 {
      Pow2Linear(d);
    }
  }

  // ---------------------------------------------------------------- modular arithmetic

  lemma MulAtLeast(k: int, d: int)
    requires k >= 1 && d > 0
    ensures k * d >= d
  {
    var j := k - 1;
    assert k * d == j * d + d;
    assert j * d >= 0;
  }

  lemma ModUnique(x: int, d: int, q: int, r: int)
    requires d > 0 && x == q * d + r && 0 <= r < d
    ensures x % d == r && x / d == q
  {
    var q', r' := x / d, x % d;
    assert x == q' * d + r';
    if q' > q {
      assert (q' - q) * d == r - r';
      MulAtLeast(q' - q, d);
    } else if q' < q {
      assert (q - q') * d == r' - r;
      MulAtLeast(q - q', d);
    }
  }

  /** Appending a low bit b to x doubles the modulus: (b + 2x) mod 2m == b + 2 (x mod m). */
  lemma ModDouble(b: nat, x: nat, m: nat)
    requires b <= 1 && m >= 1
    ensures (b + 2 * x) % (2 * m) == b + 2 * (x % m)
  {
    var q, r := x / m, x % m;
    assert x == q * m + r;
    assert b + 2 * x == q * (2 * m) + (b + 2 * r);
    ModUnique(b + 2 * x, 2 * m, q, b + 2 * r);
  }

  /** x and y agree modulo m exactly when m divides their difference. */
  lemma ModDifference(x: int, y: int, m: int)
    requires m > 0
    ensures x % m == y % m <==> (x - y) % m == 0
  {
    var qx, rx := x / m, x % m;
    var qy, ry := y / m, y % m;
    assert x == qx * m + rx && y == qy * m + ry;
    if rx >= ry {
      assert x - y == (qx - qy) * m + (rx - ry);
      ModUnique(x - y, m, qx - qy, rx - ry);
    } else {
      assert x - y == (qx - qy - 1) * m + (m + rx - ry);
      ModUnique(x - y, m, qx - qy - 1, m + rx - ry);
    }
  }

  /** Below the modulus, agreeing modulo m is equality. */
  lemma ModSmall(x: int, m: int)
    requires 0 <= x < m
    ensures x % m == x
  {
    ModUnique(x, m, 0, x);
  }

  lemma ModMultiple(k: int, m: int)
    requires m > 0
    ensures (k * m) % m == 0
  {
    ModUnique(k * m, m, k, 0);
  }

  /** The only multiple of m strictly between -m and m is 0. */
  lemma SmallMultipleIsZero(v: int, m: int)
    requires -m < v < m && v % m == 0
    ensures v == 0
  {
    if v < 0 {
      ModUnique(v, m, -1, v + m);
    } else {
      ModSmall(v, m);
    }
  }

  // ---------------------------------------------------------------- decimal rendering

  function DigitChar(d: nat): (c: char)
    requires d < 10
    ensures '0' <= c <= '9'
  {
    ('0' as int + d) as char
  }

  /** Python's `str(n)` for a non-negative integer. */
  function NatToString(n: nat): (s: string)
    ensures |s| >= 1
    ensures forall i :: 0 <= i < |s| ==> '0' <= s[i] <= '9'
    decreases n
  {
    if n < 10 then [DigitChar(n)] else NatToString(n / 10) + [DigitChar(n % 10)]
  }

  /** Python's `str(v)` for an integer: a minus sign before the digits of a negative value. */
  function IntToString(v: int): (s: string)
    ensures |s| >= 1 && (s[0] == '-' <==> v < 0)
  {
    if v < 0 then "-" + NatToString(-v) else NatToString(v)
  }

  /** Distinct numbers render to distinct strings. */
  lemma {:induction false} NatToStringInjective(m: nat, n: nat)
    requires NatToString(m) == NatToString(n)
    ensures m == n
  {
    if m >= 10 && n >= 10 {
      var s := NatToString(m);
      assert s == NatToString(m / 10) + [DigitChar(m % 10)];
      assert s == NatToString(n / 10) + [DigitChar(n % 10)];
      assert s[..|s| - 1] == NatToString(m / 10);
      assert s[..|s| - 1] == NatToString(n / 10);
      NatToStringInjective(m / 10, n / 10);
    }
  }
}
