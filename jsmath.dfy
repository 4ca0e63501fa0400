/** Integer forms of the JavaScript arithmetic the dashboard relies on. */
module JsMath {

  /** Milliseconds in one minute, the divisor of every duration. */
  const MsPerMinute: int := 60000

  const MsPerHour: int := 60 * MsPerMinute

  const MsPerDay: int := 24 * MsPerHour

  /**
   * `Math.round(x / n)` for a positive divisor: the integer nearest to x/n,
   * halves rounded up (towards +infinity, as `Math.round` does).
   */
  function RoundDiv(x: int, n: int): (r: int)
    requires n > 0
    ensures 2 * n * r - n <= 2 * x < 2 * n * r + n
  {
    var q := (2 * x + n) / (2 * n);
    assert 2 * n * q <= 2 * x + n < 2 * n * q + 2 * n by {
      var m := (2 * x + n) % (2 * n);
      assert 2 * x + n == 2 * n * q + m;
    }
    q
  }

  /** Multiples of a positive number at least one step apart. */
  lemma MulStep(n: int, a: int, b: int)
    requires n > 0 && a < b
    ensures n * a + n <= n * b
  {
    var d := b - a;
    assert n * b == n * a + n * d;
    assert n * d == n + n * (d - 1);
  }

  /** The rounding characterisation pins down one integer. */
  lemma RoundDivUnique(x: int, n: int, r: int)
    requires n > 0
    requires 2 * n * r - n <= 2 * x < 2 * n * r + n
    ensures r == RoundDiv(x, n)
  {
    var q := RoundDiv(x, n);
    if r < q {
      MulStep(2 * n, r, q);
    } else if r > q {
      MulStep(2 * n, q, r);
    }
  }

  /** A rounded mean stays within the bounds of the values averaged. */
  lemma RoundDivBetween(x: int, n: int, lo: int, hi: int)
    requires n > 0
    requires n * lo <= x <= n * hi
    ensures lo <= RoundDiv(x, n) <= hi
  {
    var r := RoundDiv(x, n);
    assert 2 * (n * lo) == 2 * n * lo && 2 * (n * hi) == 2 * n * hi;
    if r > hi {
      MulStep(2 * n, hi, r);
    }
    if r < lo {
      MulStep(2 * n, r, lo);
    }
  }

  /** `Math.round(ms / 60000)`: a millisecond span as whole minutes. */
  function Minutes(ms: int): (m: int)
    ensures 120000 * m - 60000 <= 2 * ms < 120000 * m + 60000
  {
    RoundDiv(ms, MsPerMinute)
  }
}
