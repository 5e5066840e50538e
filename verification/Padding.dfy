/** PKCS#7 padding (`internal/bytesx/bytesx.go`), section 6.3 of RFC 5652. */
module Padding {
  import opened Arithmetic
  import opened Bytes

  /** The result of an operation that can fail, or stop the program. */
  datatype Outcome<+T, +E> = Done(value: T) | Failed(error: E) | Panic

  datatype PaddingError = BlockSizeTooLarge | EmptyBuffer | ZeroPadding | PaddingTooLong

  function PadLength(n: nat, blockSize: int): (k: nat)
    requires blockSize > 0
    ensures 1 <= k <= blockSize && (n + k) % blockSize == 0
  {
    PadLengthFits(n, blockSize);
    blockSize - n % blockSize
  }

  lemma PadLengthFits(n: nat, blockSize: int)
    requires blockSize > 0
    ensures (n + (blockSize - n % blockSize)) % blockSize == 0
  {
    var q := n / blockSize;
    assert n + (blockSize - n % blockSize) == blockSize * q + blockSize;
    assert blockSize * q + blockSize == blockSize * (q + 1);
    Remainder(blockSize * (q + 1), blockSize, q + 1, 0);
  }

  function Repeat(x: Byte, n: nat): (r: seq<Byte>)
    ensures |r| == n && forall i :: 0 <= i < n ==> r[i] == x
  {
    seq(n, _ => x)
  }

  /** `BytesPadPKCS7`. */
  function Pad(b: seq<Byte>, blockSize: int): Outcome<seq<Byte>, PaddingError> {
    if blockSize <= 0 then Panic
    else if blockSize > MAX_UINT8 then Failed(BlockSizeTooLarge)
    else
      var psiz := PadLength(|b|, blockSize);
      Done(b + Repeat(psiz, psiz))
  }

  /** `BytesUnpadPKCS7`. */
  function Unpad(b: seq<Byte>, blockSize: int): (r: Outcome<seq<Byte>, PaddingError>)
    ensures r.Done? ==> r.value <= b
  {
    if blockSize > MAX_UINT8 then Failed(BlockSizeTooLarge)
    else if |b| <= 0 then Failed(EmptyBuffer)
    else
      var psiz: int := b[|b| - 1];
      if psiz <= 0 then Failed(ZeroPadding)
      else if psiz > blockSize then Failed(PaddingTooLong)
      else if |b| - psiz < 0 then Panic
      else Done(b[..|b| - psiz])
  }

  /** The last byte says how much to take off: at least one byte, at most a block. If it says more than
      there is the program stops. */
  lemma UnpadIff(b: seq<Byte>, blockSize: int, r: seq<Byte>)
    requires 1 <= blockSize <= 255
    ensures Unpad(b, blockSize) == Done(r) <==>
            && b != []
            && var k: int := b[|b| - 1];
               1 <= k <= blockSize && k <= |b| && r == b[..|b| - k]
    ensures Unpad(b, blockSize) == Panic <==> b != [] && |b| < b[|b| - 1] <= blockSize
  {}

  /** Padding fills up to a whole number of blocks, always adding something, and unpadding undoes it. */
  lemma UnpadPad(b: seq<Byte>, blockSize: int)
    requires 1 <= blockSize <= MAX_UINT8
    ensures var p := Pad(b, blockSize);
            && p.Done? && |p.value| % blockSize == 0 && |b| < |p.value| <= |b| + blockSize
            && Unpad(p.value, blockSize) == Done(b)
  {
    var psiz := PadLength(|b|, blockSize);
    var p := b + Repeat(psiz, psiz);
    assert p[..|p| - psiz] == b;
  }

  /** Unpadding looks at the last byte only: padding the result again gives the buffer back if and
      only if all the padding bytes agree and the buffer was a whole number of blocks. */
  lemma PadUnpadIff(c: seq<Byte>, b: seq<Byte>, blockSize: int)
    requires 1 <= blockSize <= MAX_UINT8 && Unpad(c, blockSize) == Done(b)
    ensures Pad(b, blockSize) == Done(c) <==>
            |c| % blockSize == 0 && forall i :: |b| <= i < |c| ==> c[i] == c[|c| - 1]
  {
    var psiz: int := c[|c| - 1];
    var k := PadLength(|b|, blockSize);
    assert |c| == |b| + psiz;
    assert c == b + c[|b|..];
    if |c| % blockSize == 0 {
      SamePadLength(|b|, psiz, k, blockSize);
      assert (forall i :: |b| <= i < |c| ==> c[i] == psiz) ==> c[|b|..] == Repeat(k, k);
      assert c == b + Repeat(k, k) ==> forall i :: |b| <= i < |c| ==> c[i] == Repeat(k, k)[i - |b|];
    }
  }

  lemma SamePadLength(n: nat, j: int, k: int, m: int)
    requires 1 <= j <= m && 1 <= k <= m && (n + j) % m == 0 && (n + k) % m == 0
    ensures j == k
  {
    var p, q := (n + j) / m, (n + k) / m;
    assert n + j == m * p && n + k == m * q;
    Apart(m, p, q);
  }
}
