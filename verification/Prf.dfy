/** Key derivation (`internal/datachannel/crypto.go`): the TLS 1.0 pseudo-random function of
    section 5 of RFC 2246, built on two P_hash streams. HMAC is a parameter. */
module Prf {
  import opened Arithmetic
  import opened Bytes

  /** A keyed hash: key and message to digest. */
  type Mac = (seq<Byte>, seq<Byte>) -> seq<Byte>

  ghost predicate NonEmpty(mac: Mac) {
    forall k, m :: |mac(k, m)| >= 1
  }

  // ------------------------------------------------------------- P_hash

  /** A(0) = seed, A(i) = HMAC(secret, A(i - 1)). */
  function A(mac: Mac, secret: seq<Byte>, seed: seq<Byte>, i: nat): seq<Byte> {
    if i == 0 then seed else mac(secret, A(mac, secret, seed, i - 1))
  }

  /** HMAC(secret, A(1) + seed) + ... + HMAC(secret, A(n) + seed). */
  function Blocks(mac: Mac, secret: seq<Byte>, seed: seq<Byte>, n: nat): seq<Byte> {
    if n == 0 then [] else Blocks(mac, secret, seed, n - 1) + mac(secret, A(mac, secret, seed, n) + seed)
  }

  lemma {:induction false} BlocksLength(mac: Mac, secret: seq<Byte>, seed: seq<Byte>, n: nat)
    requires NonEmpty(mac)
    ensures |Blocks(mac, secret, seed, n)| >= n
  {
    if n > 0 {
      BlocksLength(mac, secret, seed, n - 1);
      assert |mac(secret, A(mac, secret, seed, n) + seed)| >= 1;
    }
  }

  lemma {:induction false} BlocksPrefix(mac: Mac, secret: seq<Byte>, seed: seq<Byte>, m: nat, n: nat)
    requires m <= n
    ensures Blocks(mac, secret, seed, m) <= Blocks(mac, secret, seed, n)
  {
    if m < n {
      BlocksPrefix(mac, secret, seed, m, n - 1);
    }
  }

  /** The first `len` bytes of the P_hash stream. */
  ghost function PHashBytes(mac: Mac, secret: seq<Byte>, seed: seq<Byte>, len: nat): (r: seq<Byte>)
    requires NonEmpty(mac)
    ensures |r| == len
  {
    BlocksLength(mac, secret, seed, len);
    Blocks(mac, secret, seed, len)[..len]
  }

  /** However many blocks were generated, the first `len` bytes are the same. */
  lemma PHashFromBlocks(mac: Mac, secret: seq<Byte>, seed: seq<Byte>, n: nat, len: nat)
    requires NonEmpty(mac) && len <= |Blocks(mac, secret, seed, n)|
    ensures PHashBytes(mac, secret, seed, len) == Blocks(mac, secret, seed, n)[..len]
  {
    if n <= len {
      BlocksPrefix(mac, secret, seed, n, len);
    } else {
      BlocksPrefix(mac, secret, seed, len, n);
    }
    BlocksLength(mac, secret, seed, len);
  }

  /** The first two blocks written out: HMAC(secret, HMAC(secret, seed) + seed), and the same with HMAC
      once more around the inner value. */
  lemma PHashFirstBlocks(mac: Mac, secret: seq<Byte>, seed: seq<Byte>)
    requires NonEmpty(mac)
    ensures var a1 := mac(secret, seed);
            var a2 := mac(secret, a1);
            var stream := mac(secret, a1 + seed) + mac(secret, a2 + seed);
            PHashBytes(mac, secret, seed, |stream|) == stream
  {
    assert A(mac, secret, seed, 1) == mac(secret, A(mac, secret, seed, 0));
    assert A(mac, secret, seed, 2) == mac(secret, A(mac, secret, seed, 1));
    assert Blocks(mac, secret, seed, 1) == Blocks(mac, secret, seed, 0) + mac(secret, A(mac, secret, seed, 1) + seed);
    var stream := Blocks(mac, secret, seed, 2);
    PHashFromBlocks(mac, secret, seed, 2, |stream|);
  }

  /** Asking for fewer bytes gives a prefix. */
  lemma PHashPrefix(mac: Mac, secret: seq<Byte>, seed: seq<Byte>, m: nat, n: nat)
    requires NonEmpty(mac) && m <= n
    ensures PHashBytes(mac, secret, seed, m) == PHashBytes(mac, secret, seed, n)[..m]
  {
    BlocksLength(mac, secret, seed, n);
    PHashFromBlocks(mac, secret, seed, n, m);
  }

  /** `copy(dst[j:], src)`. */
  method Copy(dst: array<Byte>, j: nat, src: seq<Byte>)
    requires j <= dst.Length
    modifies dst
    ensures var n := if dst.Length - j < |src| then dst.Length - j else |src|;
            dst[..] == old(dst[..j]) + src[..n] + old(dst[j + n..])
  {
    var n := if dst.Length - j < |src| then dst.Length - j else |src|;
    var i := 0;
    while i < n
      invariant 0 <= i <= n
      invariant forall k :: 0 <= k < j ==> dst[k] == old(dst[k])
      invariant forall k :: j <= k < j + i ==> dst[k] == src[k - j]
      invariant forall k :: j + i <= k < dst.Length ==> dst[k] == old(dst[k])
    {
      dst[j + i] := src[i];
      i := i + 1;
    }
  }

  /** `pHash`: fills the buffer with exactly the start of the stream. */
  method PHash(result: array<Byte>, secret: seq<Byte>, seed: seq<Byte>, mac: Mac)
    requires NonEmpty(mac)
    modifies result
    ensures result[..] == PHashBytes(mac, secret, seed, result.Length)
  {
    var a := mac(secret, seed);
    var j := 0;
    ghost var i := 0;
    assert A(mac, secret, seed, 1) == mac(secret, A(mac, secret, seed, 0));
    while j < result.Length
      invariant j == |Blocks(mac, secret, seed, i)|
      invariant a == A(mac, secret, seed, i + 1)
      invariant Filled(result[..], Blocks(mac, secret, seed, i))
      decreases result.Length - j
    {
      var b := mac(secret, a + seed);
      ghost var before := result[..];
      Copy(result, j, b);
      FilledStep(before, result[..], Blocks(mac, secret, seed, i), b);
      j := j + |b|;
      a := mac(secret, a);
      i := i + 1;
    }
    PHashFromBlocks(mac, secret, seed, i, result.Length);
  }

  /** The buffer starts with the stream, or the stream with the buffer. */
  ghost predicate Filled(buf: seq<Byte>, stream: seq<Byte>) {
    if |stream| <= |buf| then stream <= buf else buf <= stream
  }

  lemma FilledStep(before: seq<Byte>, after: seq<Byte>, stream: seq<Byte>, b: seq<Byte>)
    requires Filled(before, stream) && |stream| < |before| == |after|
    requires var n := if |before| - |stream| < |b| then |before| - |stream| else |b|;
             after == before[..|stream|] + b[..n] + before[|stream| + n..]
    ensures Filled(after, stream + b)
  {
  }

  // ------------------------------------------------------------- the PRF

  function Power2(n: nat): (r: nat)
    ensures r >= 1
  {
    if n == 0 then 1 else 2 * Power2(n - 1)
  }

  /** The exclusive or of the `n` lowest bits. */
  function XorBits(x: nat, y: nat, n: nat): (r: nat)
    ensures r < Power2(n)
  {
    if n == 0 then 0 else (x + y) % 2 + 2 * XorBits(x / 2, y / 2, n - 1)
  }

  function XorByte(x: Byte, y: Byte): Byte {
    assert Power2(8) == 256 by {
      assert Power2(3) == 8;
      assert Power2(6) == 8 * Power2(3);
    }
    XorBits(x, y, 8)
  }

  /** Bit `k` of a number, bit 0 being the lowest. */
  ghost function Bit(x: nat, k: nat): nat {
    x / Power2(k) % 2
  }

  lemma BitShift(x: nat, k: nat)
    ensures Bit(x, 0) == x % 2
    ensures Bit(x, k + 1) == Bit(x / 2, k)
  {
    DivTwice(x, Power2(k));
  }

  lemma DivTwice(x: nat, d: nat)
    requires d >= 1
    ensures x / (2 * d) == x / 2 / d
  {
    var q, r := x / 2 / d, x / 2 % d;
    assert x == 2 * d * q + (2 * r + x % 2);
    Apart(2 * d, x / (2 * d), q);
  }

  lemma XorBitsStep(x: nat, y: nat, n: nat)
    requires n > 0
    ensures XorBits(x, y, n) % 2 == (x + y) % 2
    ensures XorBits(x, y, n) / 2 == XorBits(x / 2, y / 2, n - 1)
  {}

  lemma Parity(x: nat, y: nat)
    ensures (x + y) % 2 == if x % 2 == y % 2 then 0 else 1
  {}

  lemma {:induction false} XorBitsMeaning(x: nat, y: nat, n: nat, k: nat)
    requires k < n
    ensures Bit(XorBits(x, y, n), k) == if Bit(x, k) == Bit(y, k) then 0 else 1
  {
    hide XorBits, Bit, Power2;
    var r := XorBits(x, y, n);
    XorBitsStep(x, y, n);
    Parity(x, y);
    var j := if k == 0 then 0 else k - 1;
    BitShift(x, j);
    BitShift(y, j);
    BitShift(r, j);
    if k > 0 {
      XorBitsMeaning(x / 2, y / 2, n - 1, k - 1);
    }
  }

  lemma {:induction false} XorBitsInvolution(x: nat, y: nat, n: nat)
    requires x < Power2(n)
    ensures XorBits(x, x, n) == 0
    ensures XorBits(XorBits(x, y, n), y, n) == x
  {
    if n > 0 {
      assert Power2(n) == 2 * Power2(n - 1);
      hide XorBits, Power2;
      var r := XorBits(x, y, n);
      XorBitsInvolution(x / 2, y / 2, n - 1);
      XorBitsStep(x, x, n);
      XorBitsStep(x, y, n);
      XorBitsStep(r, y, n);
      Parity(x, x);
      Parity(x, y);
      Parity(r, y);
    }
  }

  /** Each of the eight bits is one exactly if the two operands differ there. Hence a byte with itself
      gives zero, and a second time with the same operand gives back the first. */
  lemma XorByteMeaning(x: Byte, y: Byte)
    ensures forall k :: 0 <= k < 8 ==> Bit(XorByte(x, y), k) == if Bit(x, k) == Bit(y, k) then 0 else 1
    ensures XorByte(x, x) == 0
    ensures XorByte(XorByte(x, y), y) == x
  {
    forall k | 0 <= k < 8
      ensures Bit(XorByte(x, y), k) == if Bit(x, k) == Bit(y, k) then 0 else 1
    {
      XorBitsMeaning(x, y, 8, k);
    }
    assert Power2(8) == 256 by {
      assert Power2(3) == 8;
      assert Power2(6) == 8 * Power2(3);
    }
    XorBitsInvolution(x, y, 8);
  }

  /** The two halves of a secret; they share the middle byte if the length is odd. */
  function FirstHalf(secret: seq<Byte>): seq<Byte> {
    secret[..(|secret| + 1) / 2]
  }

  function SecondHalf(secret: seq<Byte>): seq<Byte> {
    secret[|secret| / 2..]
  }

  lemma HalvesOverlap(secret: seq<Byte>)
    ensures |FirstHalf(secret)| == |SecondHalf(secret)| == (|secret| + 1) / 2
    ensures FirstHalf(secret) + SecondHalf(secret)[|secret| % 2..] == secret
    ensures |secret| % 2 == 1 ==> FirstHalf(secret)[|FirstHalf(secret)| - 1] == SecondHalf(secret)[0]
  {
  }

  /** Byte `i` of the PRF output is byte `i` of P_MD5 over the first half of the secret, XORed with
      byte `i` of P_SHA1 over the second half. */
  ghost predicate IsPrf(out: seq<Byte>, md5: Mac, sha1: Mac, secret: seq<Byte>, labelAndSeed: seq<Byte>)
    requires NonEmpty(md5) && NonEmpty(sha1)
  {
    var p, q := PHashBytes(md5, FirstHalf(secret), labelAndSeed, |out|), PHashBytes(sha1, SecondHalf(secret),
        labelAndSeed, |out|);
    forall i :: 0 <= i < |out| ==> out[i] == XorByte(p[i], q[i])
  }

  /** In bits, of the secret itself: each bit of the output is one exactly if the two streams differ
      there, P_MD5 keyed with the first half of the secret, rounded up, and P_SHA1 with the last. */
  lemma PrfBits(out: seq<Byte>, md5: Mac, sha1: Mac, secret: seq<Byte>, labelAndSeed: seq<Byte>, i: nat, k: nat)
    requires NonEmpty(md5) && NonEmpty(sha1) && i < |out| && k < 8
    requires IsPrf(out, md5, sha1, secret, labelAndSeed)
    ensures var n := |secret|;
            var p := PHashBytes(md5, secret[..n - n / 2], labelAndSeed, |out|)[i];
            var q := PHashBytes(sha1, secret[n / 2..], labelAndSeed, |out|)[i];
            Bit(out[i], k) == if Bit(p, k) == Bit(q, k) then 0 else 1
  {
    var p := PHashBytes(md5, FirstHalf(secret), labelAndSeed, |out|)[i];
    var q := PHashBytes(sha1, SecondHalf(secret), labelAndSeed, |out|)[i];
    XorByteMeaning(p, q);
    hide XorByte, Bit, PHashBytes;
    assert secret[..|secret| - |secret| / 2] == FirstHalf(secret);
  }

  /** `prf10`: overwrites `result` with the PRF output. */
  method Prf10(result: array<Byte>, secret: seq<Byte>, prefix: seq<Byte>, seed: seq<Byte>, md5: Mac, sha1: Mac)
    requires NonEmpty(md5) && NonEmpty(sha1)
    modifies result
    ensures IsPrf(result[..], md5, sha1, secret, prefix + seed)
  {
    var labelAndSeed := prefix + seed;
    var s1, s2 := secret[0..(|secret| + 1) / 2], secret[|secret| / 2..];
    PHash(result, s1, labelAndSeed, md5);
    var result2 := new Byte[result.Length](_ => 0);
    PHash(result2, s2, labelAndSeed, sha1);
    ghost var p := result[..];
    var i := 0;
    while i < result2.Length
      invariant 0 <= i <= result2.Length
      invariant forall k :: 0 <= k < i ==> result[k] == XorByte(p[k], result2[k])
      invariant forall k :: i <= k < result.Length ==> result[k] == p[k]
      invariant result2[..] == PHashBytes(sha1, SecondHalf(secret), labelAndSeed, result.Length)
    {
      result[i] := XorByte(result[i], result2[i]);
      i := i + 1;
    }
  }

  /** `prf`: the seed is the concatenation of the seeds and the session ids. */
  method DeriveKey(secret: seq<Byte>, prefix: seq<Byte>, clientSeed: seq<Byte>, serverSeed: seq<Byte>,
                   clientSid: seq<Byte>, serverSid: seq<Byte>, olen: nat, md5: Mac, sha1: Mac) returns (out: seq<Byte>)
    requires NonEmpty(md5) && NonEmpty(sha1)
    ensures |out| == olen
    ensures IsPrf(out, md5, sha1, secret, prefix + (clientSeed + serverSeed + clientSid + serverSid))
  {
    var seed := clientSeed + serverSeed;
    if |clientSid| != 0 {
      seed := seed + clientSid;
    }
    if |serverSid| != 0 {
      seed := seed + serverSid;
    }
    assert seed == clientSeed + serverSeed + clientSid + serverSid;
    var result := new Byte[olen](_ => 0);
    Prf10(result, secret, prefix, seed, md5, sha1);
    out := result[..];
  }

  /** The output is a function of the inputs, and a shorter request yields a prefix of a longer one. */
  lemma PrfPrefix(short: seq<Byte>, long: seq<Byte>, md5: Mac, sha1: Mac, secret: seq<Byte>, labelAndSeed: seq<Byte>)
    requires NonEmpty(md5) && NonEmpty(sha1) && |short| <= |long|
    requires IsPrf(short, md5, sha1, secret, labelAndSeed) && IsPrf(long, md5, sha1, secret, labelAndSeed)
    ensures short <= long
  {
    PHashPrefix(md5, FirstHalf(secret), labelAndSeed, |short|, |long|);
    PHashPrefix(sha1, SecondHalf(secret), labelAndSeed, |short|, |long|);
  }
}
