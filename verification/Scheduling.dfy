/** In-flight packets and the retransmission timer (`internal/reliabletransport/packets.go`).
    Times and durations are integers counting nanoseconds; the zero `time.Time` is 0. */
module Scheduling {
  import opened Arithmetic

  const NANOSECOND: int := 1
  const SECOND: int := 1_000_000_000
  const MAX_BACKOFF: int := 60 * SECOND
  const SENDER_TICKER: int := 60 * SECOND
  const GRACE_PERIOD: int := 20_000_000
  const FAST_RETRANSMIT_ACKS: nat := 3

  // ------------------------------------------------------------- backoff

  function Pow2(n: nat): (r: nat)
    ensures r > 0
  {
    if n == 0 then 1 else 2 * Pow2(n - 1)
  }

  /** The wrapped product, before the cap. */
  function WrappedProduct(r: nat): int {
    Wrap64(Wrap64(Pow2(r)) * SECOND)
  }

  /** `backoff`: the shift and the product are 64-bit signed. */
  function Backoff(retries: nat): int {
    var backoff := WrappedProduct(retries);
    if backoff > MAX_BACKOFF then MAX_BACKOFF else backoff
  }

  /** What the doubling schedule is meant to be. */
  function IdealBackoff(retries: nat): int {
    if Pow2(retries) >= 60 then 60 * SECOND else Pow2(retries) * SECOND
  }

  lemma Pow2Monotone(m: nat, n: nat)
    requires m <= n
    ensures Pow2(m) <= Pow2(n)
  {
    if m < n {
      Pow2Monotone(m, n - 1);
    }
  }

  lemma {:induction false} Pow2Plus(m: nat, n: nat)
    ensures Pow2(m + n) == Pow2(m) * Pow2(n)
  {
    if n > 0 {
      Pow2Plus(m, n - 1);
    }
  }

  lemma Pow2Values()
    ensures Pow2(6) == 64 && Pow2(33) == 0x2_0000_0000
    ensures Pow2(55) == 0x80_0000_0000_0000 && Pow2(63) == TWO_63
  {
    assert Pow2(3) == 8;
    assert Pow2(6) == 64;
    assert Pow2(8) == 256;
    assert Pow2(11) == 2048;
    Pow2Plus(11, 11);
    Pow2Plus(22, 11);
    Pow2Plus(33, 22);
    Pow2Plus(55, 8);
  }

  lemma WrapOfMultiple(k: int)
    ensures Wrap64(k * TWO_64) == 0
  {
  }

  /** Up to 33 retries the 64-bit product is exact. */
  lemma BackoffExact(r: nat)
    requires r <= 33
    ensures WrappedProduct(r) == Pow2(r) * SECOND
    ensures Backoff(r) == IdealBackoff(r)
  {
    Pow2Monotone(r, 33);
    Pow2Values();
  }

  /** From 55 retries on the product is a multiple of 2^64: the interval is zero. */
  lemma BackoffZero(r: nat)
    requires r >= 55
    ensures Backoff(r) == 0
  {
    if r <= 62 {
      ShiftFits(r);
    } else if r == 63 {
      Pow2Values();
      assert Wrap64(TWO_63) == -TWO_63;
      WrapOfMultiple(-500_000_000);
    } else {
      Pow2Plus(r - 64, 64);
      assert Pow2(64) == TWO_64 by { Pow2Values(); }
      WrapOfMultiple(Pow2(r - 64));
    }
  }

  /** The shift itself still fits, but 2^55 seconds are a multiple of 2^64 nanoseconds. */
  lemma ShiftFits(r: nat)
    requires 55 <= r <= 62
    ensures WrappedProduct(r) == 0
  {
    var k := Pow2(r - 55);
    assert Pow2(r) == k * 0x80_0000_0000_0000 && Pow2(r) < TWO_63 by {
      Pow2Values();
      Pow2Plus(r - 55, 55);
      Pow2Monotone(r + 1, 63);
    }
    hide Pow2;
    assert Pow2(r) * SECOND == (k * 1953125) * TWO_64;
    WrapOfMultiple(k * 1953125);
  }

  lemma WrapUnique(x: int, r: int, laps: int)
    requires x == r + laps * TWO_64 && -TWO_63 <= r < TWO_63
    ensures Wrap64(x) == r
  {
    assert x + TWO_63 == (r + TWO_63) + laps * TWO_64;
  }

  lemma WrapDoubles(x: int)
    ensures Wrap64(2 * Wrap64(x)) == Wrap64(2 * x)
  {
    var p, q := (x + TWO_63) / TWO_64, (2 * x + TWO_63) / TWO_64;
    assert x == Wrap64(x) + p * TWO_64;
    assert 2 * x == Wrap64(2 * x) + q * TWO_64;
    WrapUnique(2 * Wrap64(x), Wrap64(2 * x), q - 2 * p);
  }

  /** The wrapped products from 34 to 54 retries. */
  function WrapTable(r: nat): int
    requires 34 <= r <= 54
  {
    match r
    case 34 => -1266874889709551616
    case 35 => -2533749779419103232
    case 36 => -5067499558838206464
    case 37 => 8311744956033138688
    case 38 => -1823254161643274240
    case 39 => -3646508323286548480
    case 40 => -7293016646573096960
    case 41 => 3860710780563357696
    case 42 => 7721421561126715392
    case 43 => -3003900951456120832
    case 44 => -6007801902912241664
    case 45 => 6431140267885068288
    case 46 => -5584463537939415040
    case 47 => 7277816997830721536
    case 48 => -3891110078048108544
    case 49 => -7782220156096217088
    case 50 => 2882303761517117440
    case 51 => 5764607523034234880
    case 52 => -6917529027641081856
    case 53 => 4611686018427387904
    case _ => -9223372036854775808
  }

  lemma {:induction false} WrapTableCorrect(r: nat)
    requires 34 <= r <= 54
    ensures WrappedProduct(r) == WrapTable(r)
  {
    Pow2Values();
    Pow2Monotone(r + 1, 55);
    if r == 34 {
      assert Pow2(34) == 0x4_0000_0000;
    } else {
      hide WrapTable;
      WrapTableCorrect(r - 1);
      ProductDoubles(r);
      WrapTableDoubles(r);
    }
  }

  lemma ProductDoubles(r: nat)
    requires 1 <= r <= 54
    ensures WrappedProduct(r) == Wrap64(2 * WrappedProduct(r - 1))
  {
    Pow2Values();
    Pow2Monotone(r + 1, 55);
    WrapDoubles(Pow2(r - 1) * SECOND);
    assert Wrap64(Pow2(r)) == Pow2(r) && Wrap64(Pow2(r - 1)) == Pow2(r - 1);
    assert Pow2(r) * SECOND == 2 * (Pow2(r - 1) * SECOND);
  }

  lemma WrapTableDoubles(r: nat)
    requires 35 <= r <= 54
    ensures WrapTable(r) == Wrap64(2 * WrapTable(r - 1))
  {
  }

  /** Between 34 and 54 retries the wrapped product is negative, except where the sign bit
      happens to be clear; then the cap applies as it should. */
  predicate LuckyWrap(r: nat) {
    r in {37, 41, 42, 45, 47, 50, 51, 53}
  }

  /** The interval is min(2^retries, 60) seconds if and only if there were at most 33 retries
      or the wrapped product landed on a positive value by chance; in all other cases it is
      zero or negative. */
  lemma BackoffIdealIff(r: nat)
    ensures Backoff(r) == IdealBackoff(r) <==> r <= 33 || LuckyWrap(r)
    ensures Backoff(r) != IdealBackoff(r) ==> Backoff(r) <= 0
    ensures Backoff(34) < 0
  {
    hide Wrap64;
    WrapTableCorrect(34);
    if r <= 33 {
      BackoffExact(r);
    } else {
      assert IdealBackoff(r) == MAX_BACKOFF by {
        Pow2Monotone(6, r);
        Pow2Values();
      }
      hide IdealBackoff, Pow2;
      if r >= 55 {
        BackoffZero(r);
      } else {
        WrapTableCorrect(r);
        assert Backoff(r) == if WrapTable(r) > MAX_BACKOFF then MAX_BACKOFF else WrapTable(r);
        WrapTableSign(r);
      }
    }
  }

  lemma WrapTableSign(r: nat)
    requires 34 <= r <= 54
    ensures if LuckyWrap(r) then WrapTable(r) > MAX_BACKOFF else WrapTable(r) < 0
  {}

  /** Successive intervals never shrink while the arithmetic is exact. */
  lemma BackoffNonDecreasing(q: nat, r: nat)
    requires q <= r <= 33
    ensures Backoff(q) <= Backoff(r)
  {
    BackoffExact(q);
    BackoffExact(r);
    Pow2Monotone(q, r);
  }
}
