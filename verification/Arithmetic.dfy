/** Division with remainder and the wrap-around of 64-bit integers. */
module Arithmetic {

  lemma MulAtLeast(m: int, d: int)
    requires m > 0 && d >= 1
    ensures m * d >= m
  {
  }

  lemma Apart(m: int, p: int, q: int)
    requires m > 0 && -m < m * p - m * q < m
    ensures p == q
  {
    assert m * p - m * q == m * (p - q) && m * q - m * p == m * (q - p);
    if p > q {
      MulAtLeast(m, p - q);
    } else if q > p {
      MulAtLeast(m, q - p);
    }
  }

  lemma Remainder(x: int, m: int, q: int, r: int)
    requires m > 0 && x == m * q + r && 0 <= r < m
    ensures x % m == r
  {
    Apart(m, x / m, q);
  }

  const TWO_63: int := 0x8000_0000_0000_0000
  const TWO_64: int := 0x1_0000_0000_0000_0000

  /** Two's complement wrap-around of a 64-bit signed integer. */
  function Wrap64(x: int): (r: int)
    ensures -TWO_63 <= r < TWO_63
    ensures -TWO_63 <= x < TWO_63 ==> r == x
  {
    (x + TWO_63) % TWO_64 - TWO_63
  }
}
