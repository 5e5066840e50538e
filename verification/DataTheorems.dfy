/** What the data channel of one side writes, the other side reads back: exactly when, and with
    what left over. */
module DataTheorems {
  import opened Bytes
  import opened Packets
  import opened Session
  import opened Padding
  import opened DataFrames

  /** A data packet arrives with its four header bytes taken off the payload. */
  lemma DataWire(ch: Channel, e: seq<Byte>)
    requires |e| > 4 && e[..4] == DataHeader(ch)
    ensures Transmit(NewPacket(P_DATA_V2, ch.keyId, e).(peerId := PeerBytes(ch.peerId))) ==
            Ok(NewPacket(P_DATA_V2, ch.keyId % 8, e[4..]).(peerId := PeerBytes(ch.peerId)))
  {
    assert e[0] == e[..4][0] == HeaderByte(P_DATA_V2, ch.keyId);
    assert e[1..4] == e[..4][1..] == PeerBytes(ch.peerId);
  }

  lemma PadBlockIs(b: seq<Byte>)
    ensures var n := PadLength(|b|, AES_BLOCK);
            PadBlock(b) == b + Repeat(n, n)
  {
  }

  // ------------------------------------------------------------- GCM

  /** The padding that GCM mode leaves behind the payload; it is never taken off. */
  function Tail(c: Compression, n: nat): (r: seq<Byte>)
    ensures |r| <= AES_BLOCK
  {
    match c
    case Empty => var k := PadLength(n, AES_BLOCK); Repeat(k, k)
    case LzoNo => var k := PadLength(n + 1, AES_BLOCK); Repeat(k, k)
    case Stub => var k := PadLength(n, AES_BLOCK); Repeat(k, k - 1)
  }

  /** The plaintext that is encrypted for a payload. */
  function Framed(payload: seq<Byte>, c: Compression): (b: seq<Byte>)
    requires payload != []
    ensures b != []
  {
    DoCompress(payload, c).value
  }

  lemma StubPlaintext(payload: seq<Byte>, padded: seq<Byte>)
    requires payload != [] && DoPadding(Framed(payload, Stub), Stub) == Done(padded)
    ensures padded == [MARK_STUB] + (payload[1..] + Tail(Stub, |payload|) + [payload[0]])
  {
    var x := [MARK_STUB] + payload[1..];
    var f := Framed(payload, Stub);
    assert f[..|f| - 1] == x && f[|f| - 1] == payload[0];
    PadBlockIs(x);
    var n := PadLength(|x|, AES_BLOCK);
    assert PadBlock(x)[..|PadBlock(x)| - 1] == x + Repeat(n, n - 1);
  }

  /** Whatever the framing, the reader ends up with the payload followed by the tail. */
  lemma GcmUnframes(ch: Channel, last: PacketId, payload: seq<Byte>)
    requires ch.mode == Gcm && payload != []
    ensures DoPadding(Framed(payload, ch.compress), ch.compress).Done?
    ensures var padded := DoPadding(Framed(payload, ch.compress), ch.compress).value;
            Decompress(ch, last, Plain(padded, [])) == ReadResult(Done(payload + Tail(ch.compress, |payload|)), last)
  {
    hide Pad, Unpad, PadLength;
    var padded := DoPadding(Framed(payload, ch.compress), ch.compress).value;
    var tail := Tail(ch.compress, |payload|);
    match ch.compress
    case Empty => PadBlockIs(payload);
    case LzoNo =>
      PadBlockIs([MARK_LZO_NO] + payload);
      assert padded == [MARK_LZO_NO] + (payload + tail);
      assert padded[1..] == payload + tail;
    case Stub =>
      StubPlaintext(payload, padded);
      var rest := payload[1..] + tail + [payload[0]];
      assert padded[1..] == rest && padded[0] == MARK_STUB;
      assert [rest[|rest| - 1]] + rest[..|rest| - 1] == payload + tail;
  }

  /** The peer decodes an AEAD packet into the nonce, ciphertext and header it was made from. */
  lemma AeadWire(ch: Channel, id: PacketId, padded: seq<Byte>, sealed: seq<Byte>)
    requires ch.mode == Gcm && AesKeySize(ch.keySize) && |sealed| >= TAG_SIZE
    requires Encrypt(ch, GcmIv(id, ch.keys.hmacLocal), padded, DataHeader(ch) + PutUint32(id)) == Done(sealed)
    ensures EncodeAead(ch, Ok(id), padded).Done?
    ensures var e := EncodeAead(ch, Ok(id), padded).value;
            && |e| == 8 + |sealed| && e[..4] == DataHeader(ch)
            && DecodeAead(Mirror(ch), e[4..]) ==
               Done(Encrypted(GcmIv(id, ch.keys.hmacLocal), sealed, DataHeader(ch) + PutUint32(id)))
  {
    hide Encrypt, DataHeader, PutUint32;
    var h, i := DataHeader(ch), PutUint32(id);
    var tag, ct := sealed[|sealed| - TAG_SIZE..], sealed[..|sealed| - TAG_SIZE];
    var e := EncodeAead(ch, Ok(id), padded).value;
    assert e == (h + i) + tag + ct;
    assert e[..4] == h;
    var buf := e[4..];
    assert buf == i + tag + ct;
    assert buf[..4] == i && buf[4..20] == tag && buf[20..] == ct;
    assert ct + tag == sealed;
    HeaderMirrors(ch);
  }

  lemma HeaderMirrors(ch: Channel)
    ensures DataHeader(Mirror(ch)) == DataHeader(ch)
  {
  }

  lemma SealOpens(ch: Channel, iv: seq<Byte>, plain: seq<Byte>, aad: seq<Byte>)
    requires Lawful(ch.crypto) && ch.mode == Gcm && AesKeySize(ch.keySize) && |iv| == 12
    ensures Encrypt(ch, iv, plain, aad).Done? && |Encrypt(ch, iv, plain, aad).value| == |plain| + TAG_SIZE
    ensures Decrypt(Mirror(ch), iv, Encrypt(ch, iv, plain, aad).value, aad) == Done(Plain(plain, []))
  {
  }

  /** GCM mode, every framing, every non-empty payload, every packet id: the peer gets the payload
      back, followed by at most sixteen bytes of padding. */
  lemma GcmRoundTrip(ch: Channel, id: PacketId, iv: seq<Byte>, payload: seq<Byte>, last: PacketId)
    requires Lawful(ch.crypto) && ch.mode == Gcm && AesKeySize(ch.keySize) && payload != []
    ensures var w := Write(ch, Ok(id), iv, payload);
            && w.Done? && Transmit(w.value).Ok?
            && Read(Mirror(ch), last, Transmit(w.value).value) ==
               ReadResult(Done(payload + Tail(ch.compress, |payload|)), last)
  {
    GcmUnframes(ch, last, payload);
    hide Lawful, DoPadding, Tail, Marshal, Unmarshal, Encrypt, Decrypt, EncodeAead, DecodeAead, DataHeader, PeerBytes,
        GcmIv;
    var framed := Framed(payload, ch.compress);
    var padded := DoPadding(framed, ch.compress).value;
    var nonce, aad := GcmIv(id, ch.keys.hmacLocal), DataHeader(ch) + PutUint32(id);
    SealOpens(ch, nonce, padded, aad);
    var sealed := Encrypt(ch, nonce, padded, aad).value;
    AeadWire(ch, id, padded, sealed);
    var e := EncodeAead(ch, Ok(id), padded).value;
    DataWire(ch, e);
    assert Write(ch, Ok(id), iv, payload) == Done(NewPacket(P_DATA_V2, ch.keyId, e).(peerId := PeerBytes(ch.peerId)));
    assert Decompress(Mirror(ch), last, Plain(padded, [])) == Decompress(ch, last, Plain(padded, []));
  }

  /** An empty payload: without framing it is an error, with the stub framing the program stops,
      with lzo-no framing it goes through. */
  lemma GcmEmptyPayload(ch: Channel, pid: Result<PacketId, SessionError>, iv: seq<Byte>)
    requires ch.mode == Gcm
    ensures ch.compress == Empty ==> Write(ch, pid, iv, []) == Failed(NothingToEncrypt)
    ensures ch.compress == Stub ==> Write(ch, pid, iv, []) == Panic
    ensures ch.compress == LzoNo && pid.Ok? && Lawful(ch.crypto) && AesKeySize(ch.keySize) ==>
            Write(ch, pid, iv, []).Done?
  {
    if ch.compress == LzoNo && pid.Ok? && Lawful(ch.crypto) && AesKeySize(ch.keySize) {
      hide Lawful, Encrypt, PadBlock;
      SealOpens(ch, GcmIv(pid.value, ch.keys.hmacLocal), PadBlock([MARK_LZO_NO] + []),
          DataHeader(ch) + PutUint32(pid.value));
    }
  }

  // ------------------------------------------------------------- CBC

  /** What the peer decrypts: the framed plaintext, padded as written and unpadded by its last byte. */
  lemma CbcWire(ch: Channel, iv: seq<Byte>, padded: seq<Byte>)
    requires Lawful(ch.crypto) && ch.mode == Cbc && AesKeySize(ch.keySize) && |iv| == AES_BLOCK
    requires padded != [] && |padded| % AES_BLOCK == 0
    ensures EncodeCbc(ch, iv, padded).Done?
    ensures var e := EncodeCbc(ch, iv, padded).value;
            && |e| > 4 && e[..4] == DataHeader(ch)
            && DecodeCbc(Mirror(ch), e[4..]) == Done(Encrypted(iv, Encrypt(ch, iv, padded, []).value, []))
  {
    hide DataHeader;
    var ct := Encrypt(ch, iv, padded, []).value;
    var n := ch.crypto.hashSize;
    var h, mac := DataHeader(ch), ch.crypto.hmac(ch.keys.hmacLocal[..n], iv + ct);
    hide Lawful, Encrypt;
    var e := EncodeCbc(ch, iv, padded).value;
    assert e == h + mac + iv + ct;
    assert e[..4] == h;
    var buf := e[4..];
    assert buf == mac + iv + ct;
    assert buf[..n] == mac && buf[n..n + AES_BLOCK] == iv && buf[n + AES_BLOCK..] == ct;
  }

  lemma CbcDecrypts(ch: Channel, iv: seq<Byte>, padded: seq<Byte>)
    requires Lawful(ch.crypto) && ch.mode == Cbc && AesKeySize(ch.keySize) && |iv| == AES_BLOCK
    requires padded != [] && |padded| % AES_BLOCK == 0
    ensures var ct := Encrypt(ch, iv, padded, []);
            && ct.Done? && ct.value != []
            && Decrypt(Mirror(ch), iv, ct.value, []) == Unpadded(padded)
  {
    hide Unpad;
  }

  /** The framed plaintext of CBC mode: packet id first, then the framing. */
  function CbcPlaintext(ch: Channel, id: PacketId, payload: seq<Byte>): (b: seq<Byte>)
    requires ch.mode == Cbc
    ensures |b| % AES_BLOCK == 0 && b != []
  {
    var framed := DoCompress(PutUint32(id) + payload, ch.compress).value;
    DoPadding(framed, ch.compress).value
  }

  /** Reading in CBC mode: decrypt-and-unpad, then the replay check and the framing. */
  lemma CbcRead(ch: Channel, id: PacketId, iv: seq<Byte>, payload: seq<Byte>, last: PacketId)
    requires Lawful(ch.crypto) && ch.mode == Cbc && AesKeySize(ch.keySize) && |iv| == AES_BLOCK
    ensures var w := Write(ch, Ok(id), iv, payload);
            && w.Done? && Transmit(w.value).Ok?
            && Read(Mirror(ch), last, Transmit(w.value).value) ==
               (match Unpadded(CbcPlaintext(ch, id, payload))
                case Done(p) => Decompress(ch, last, p)
                case Failed(e) => ReadResult(Failed(e), last)
                case Panic => ReadResult(Panic, last))
  {
    CbcWritten(ch, id, iv, payload);
    var padded := CbcPlaintext(ch, id, payload);
    hide Lawful, Write, CbcPlaintext, Transmit, Encrypt, Decrypt, EncodeCbc, DecodeCbc, DataHeader, PeerBytes;
    hide Unpadded, Decompress;
    CbcWire(ch, iv, padded);
    CbcDecrypts(ch, iv, padded);
    DataWire(ch, EncodeCbc(ch, iv, padded).value);
    var u := Unpadded(padded);
    if u.Done? {
      DecompressMirrors(ch, last, u.value);
    }
  }

  lemma CbcWritten(ch: Channel, id: PacketId, iv: seq<Byte>, payload: seq<Byte>)
    requires Lawful(ch.crypto) && ch.mode == Cbc && AesKeySize(ch.keySize) && |iv| == AES_BLOCK
    ensures var e := EncodeCbc(ch, iv, CbcPlaintext(ch, id, payload));
            && e.Done?
            && Write(ch, Ok(id), iv, payload) ==
               Done(NewPacket(P_DATA_V2, ch.keyId, e.value).(peerId := PeerBytes(ch.peerId)))
  {
    var padded := CbcPlaintext(ch, id, payload);
    assert DoPadding(DoCompress(PutUint32(id) + payload, ch.compress).value, ch.compress) == Done(padded);
    hide Lawful, DoPadding, CbcPlaintext, EncodeCbc, PeerBytes, PutUint32;
    CbcWire(ch, iv, padded);
  }

  lemma DecompressMirrors(ch: Channel, last: PacketId, p: Plain)
    ensures Decompress(Mirror(ch), last, p) == Decompress(ch, last, p)
  {
    hide Unframe, GetUint32;
  }

  /** CBC mode without framing: every payload comes back exactly, if and only if its packet id is
      fresh; otherwise nothing is accepted and the mark does not move. */
  lemma CbcRoundTrip(ch: Channel, id: PacketId, iv: seq<Byte>, payload: seq<Byte>, last: PacketId)
    requires Lawful(ch.crypto) && ch.mode == Cbc && ch.compress == Empty && AesKeySize(ch.keySize) && |iv| == AES_BLOCK
    ensures var w := Write(ch, Ok(id), iv, payload);
            && w.Done? && Transmit(w.value).Ok?
            && var r := Read(Mirror(ch), last, Transmit(w.value).value);
               && (Fresh(last, id) ==> r == ReadResult(Done(payload), id))
               && (!Fresh(last, id) ==> r.outcome.Failed? && r.last == last)
  {
    CbcRead(ch, id, iv, payload, last);
    hide Lawful, Write, Read, Transmit, Pad, Unpad;
    var b := PutUint32(id) + payload;
    UnpadPad(b, AES_BLOCK);
    assert CbcPlaintext(ch, id, payload) == PadBlock(b);
    Uint32RoundTrip(id);
    var slack := CbcPlaintext(ch, id, payload)[|b|..];
    assert (b + slack)[..4] == PutUint32(id) && b[4..] == payload;
  }

  // The writer puts the packet id in front before framing, the reader looks for it in front after
  // deframing. So with lzo-no framing the reader takes the marker and the upper three bytes of
  // the id for the id, and the lowest byte of the id for the marker.

  /** What the reader takes for the packet id under lzo-no framing. */
  function ShiftedId(id: PacketId): PacketId {
    0xfa00_0000 + id / 256
  }

  predicate AllEqual(b: seq<Byte>) {
    forall i :: 0 <= i < |b| ==> b[i] == b[0]
  }

  lemma ShiftedIdIs(id: PacketId)
    ensures var i := PutUint32(id); GetUint32([MARK_LZO_NO, i[0], i[1], i[2]]) == ShiftedId(id) && i[3] == id % 256
  {
    Uint32RoundTrip(id / 256);
    var i, j := PutUint32(id), PutUint32(id / 256);
    assert j[0] == 0 && j[1] == i[0] && j[2] == i[1] && j[3] == i[2];
  }

  /** Rotating by one byte changes nothing if and only if all bytes are the same. */
  lemma RotateFixed(b: seq<Byte>)
    requires b != []
    ensures [b[|b| - 1]] + b[..|b| - 1] == b <==> AllEqual(b)
  {
    var r := [b[|b| - 1]] + b[..|b| - 1];
    if r == b {
      forall i | 0 <= i < |b|
        ensures b[i] == b[0]
      {
        RotateChain(b, r, i);
      }
    }
  }

  lemma {:induction false} RotateChain(b: seq<Byte>, r: seq<Byte>, i: nat)
    requires b != [] && r == [b[|b| - 1]] + b[..|b| - 1] && r == b && i < |b|
    ensures b[i] == b[0]
  {
    if i > 0 {
      RotateChain(b, r, i - 1);
      assert r[i] == b[i - 1];
    }
  }

  lemma LzoUnpads(ch: Channel, id: PacketId, payload: seq<Byte>)
    requires ch.mode == Cbc && ch.compress == LzoNo
    ensures var i := PutUint32(id);
            Unpad(CbcPlaintext(ch, id, payload), AES_BLOCK) == Done([MARK_LZO_NO, i[0], i[1], i[2], i[3]] + payload)
  {
    hide Pad, Unpad, PutUint32;
    var i := PutUint32(id);
    var b := [MARK_LZO_NO] + (i + payload);
    assert b == [MARK_LZO_NO, i[0], i[1], i[2], i[3]] + payload;
    UnpadPad(b, AES_BLOCK);
  }

  /** When a marker leaves the bytes behind it as they are. */
  predicate HarmlessMarker(marker: Byte, payload: seq<Byte>) {
    || marker == MARK_NONE
    || marker == MARK_LZO_NO
    || (marker == MARK_STUB && payload != [] && AllEqual(payload))
  }

  lemma UnframeKeepsIff(marker: Byte, payload: seq<Byte>)
    ensures Unframe(marker, payload) == Done(payload) <==> HarmlessMarker(marker, payload)
  {
    if payload != [] {
      RotateFixed(payload);
    }
  }

  lemma LzoReader(ch: Channel, last: PacketId, i: seq<Byte>, payload: seq<Byte>, slack: seq<Byte>)
    requires ch.mode == Cbc && ch.compress == LzoNo && |i| == 4
    ensures Decompress(ch, last, Plain([MARK_LZO_NO, i[0], i[1], i[2], i[3]] + payload,
            slack)).outcome == Done(payload) <==>
            Fresh(last, GetUint32([MARK_LZO_NO, i[0], i[1], i[2]])) && HarmlessMarker(i[3], payload)
  {
    var b := [MARK_LZO_NO, i[0], i[1], i[2], i[3]] + payload;
    assert (b + slack)[..4] == [MARK_LZO_NO, i[0], i[1], i[2]] && b[4] == i[3] && b[5..] == payload;
    UnframeKeepsIff(i[3], payload);
    hide Unframe, HarmlessMarker, GetUint32;
  }

  /** CBC mode with lzo-no framing returns the payload if and only if the shifted id is fresh and
      the lowest byte of the packet id happens to be a no-op marker, or the rotation marker on a
      payload that rotation does not change. */
  lemma CbcLzoRoundTripIff(ch: Channel, id: PacketId, iv: seq<Byte>, payload: seq<Byte>, last: PacketId)
    requires Lawful(ch.crypto) && ch.mode == Cbc && ch.compress == LzoNo && AesKeySize(ch.keySize) && |iv| == AES_BLOCK
    ensures var w := Write(ch, Ok(id), iv, payload);
            && w.Done? && Transmit(w.value).Ok?
            && (Read(Mirror(ch), last, Transmit(w.value).value).outcome == Done(payload) <==>
                Fresh(last, ShiftedId(id)) && HarmlessMarker(id % 256, payload))
  {
    CbcRead(ch, id, iv, payload, last);
    LzoUnpads(ch, id, payload);
    ShiftedIdIs(id);
    hide Lawful, Write, Read, Transmit, Unpad, CbcPlaintext, PutUint32, GetUint32, HarmlessMarker, ShiftedId,
        Decompress, Fresh;
    var b := Unpad(CbcPlaintext(ch, id, payload), AES_BLOCK).value;
    LzoReader(ch, last, PutUint32(id), payload, CbcPlaintext(ch, id, payload)[|b|..]);
  }

  // With the stub framing the writer moves the first byte of the packet id to the end, where it
  // overwrites the padding length.

  /** The plaintext under stub framing: `x` padded, with the top byte of the id as the last byte. */
  lemma StubCbcPlaintext(ch: Channel, id: PacketId, payload: seq<Byte>)
    requires ch.mode == Cbc && ch.compress == Stub
    ensures var i := PutUint32(id);
            var x := [MARK_STUB, i[1], i[2], i[3]] + payload;
            var n := PadLength(|x|, AES_BLOCK);
            CbcPlaintext(ch, id, payload) == x + Repeat(n, n - 1) + [i[0]]
  {
    hide Pad, PutUint32, PadLength;
    var i := PutUint32(id);
    var x := [MARK_STUB, i[1], i[2], i[3]] + payload;
    var b := i + payload;
    var f := DoCompress(b, Stub).value;
    assert b[1..] == [i[1], i[2], i[3]] + payload;
    assert f == x + [i[0]];
    assert f[..|f| - 1] == x;
    PadBlockIs(x);
    var n := PadLength(|x|, AES_BLOCK);
    assert PadBlock(x)[..|PadBlock(x)| - 1] == x + Repeat(n, n - 1);
  }

  /** Dropping the first byte and appending `n` gives the same bytes only if they are all `n`. */
  lemma {:induction false} ShiftFixed(b: seq<Byte>, n: Byte)
    requires b != [] && b == b[1..] + [n]
    ensures b[0] == n
  {
    if |b| > 1 {
      var c := b[1..];
      assert c == c[1..] + [n] by {
        assert forall k :: 0 <= k < |c| ==> c[k] == b[k + 1];
        assert forall k :: 0 <= k < |b| ==> b[k] == (b[1..] + [n])[k];
      }
      ShiftFixed(c, n);
      assert b[0] == (b[1..] + [n])[0];
    }
  }

  /** What the reader makes of the bytes after the first four, cut short by `cut` bytes. */
  lemma StubNeverUnframes(payload: seq<Byte>, n: int, rest: seq<Byte>, cut: int)
    requires 1 <= n <= AES_BLOCK && 1 <= cut <= AES_BLOCK
    requires |payload| + n - cut >= 1 && rest == (payload + Repeat(n, n))[..|payload| + n - cut]
    ensures Unframe(rest[0], rest[1..]) != Done(payload)
  {
    var q := payload + Repeat(n, n);
    if payload == [] {
      assert rest[0] == n;
    } else {
      assert rest[0] == payload[0];
      if |rest[1..]| == |payload| {
        assert rest[1..] == payload[1..] + [n];
        if payload == payload[1..] + [n] {
          ShiftFixed(payload, n);
        }
      }
    }
  }

  lemma StubCut(h: seq<Byte>, payload: seq<Byte>, n: int, top: Byte, cut: int, b: seq<Byte>)
    requires |h| == 4 && 1 <= n <= AES_BLOCK && 1 <= cut <= AES_BLOCK && |payload| + n - cut >= 1
    requires b == (h + payload + Repeat(n, n - 1) + [top])[..4 + |payload| + n - cut]
    ensures Unframe(b[4], b[5..]) != Done(payload)
  {
    var rest := b[4..];
    assert rest == (payload + Repeat(n, n))[..|payload| + n - cut];
    assert rest[0] == b[4] && rest[1..] == b[5..];
    StubNeverUnframes(payload, n, rest, cut);
  }

  lemma StubReader(ch: Channel, last: PacketId, h: seq<Byte>, payload: seq<Byte>, n: int, top: Byte, b: seq<Byte>,
          slack: seq<Byte>)
    requires ch.mode == Cbc && ch.compress == Stub && |h| == 4 && 1 <= n <= AES_BLOCK
    requires Unpad(h + payload + Repeat(n, n - 1) + [top], AES_BLOCK) == Done(b)
    ensures Decompress(ch, last, Plain(b, slack)).outcome != Done(payload)
  {
    hide Unframe, GetUint32;
    var p := h + payload + Repeat(n, n - 1) + [top];
    assert p[|p| - 1] == top;
    var cut: int := top;
    assert b == p[..|p| - cut] && |p| == 4 + |payload| + n;
    if |b| >= 5 {
      StubCut(h, payload, n, top, cut, b);
    }
  }

  /** CBC mode with stub framing never returns the payload, whatever the id, payload and mark. */
  lemma CbcStubNeverRoundTrips(ch: Channel, id: PacketId, iv: seq<Byte>, payload: seq<Byte>, last: PacketId)
    requires Lawful(ch.crypto) && ch.mode == Cbc && ch.compress == Stub && AesKeySize(ch.keySize) && |iv| == AES_BLOCK
    ensures var w := Write(ch, Ok(id), iv, payload);
            && w.Done? && Transmit(w.value).Ok?
            && Read(Mirror(ch), last, Transmit(w.value).value).outcome != Done(payload)
  {
    CbcRead(ch, id, iv, payload, last);
    StubCbcPlaintext(ch, id, payload);
    hide Lawful, Write, Read, Transmit, CbcPlaintext, PutUint32, PadLength, Unpad, Decompress, Repeat;
    hide Unpadded;
    var i := PutUint32(id);
    var h := [MARK_STUB, i[1], i[2], i[3]];
    StubUnpadded(ch, last, h, payload, PadLength(|h + payload|, AES_BLOCK), i[0]);
  }

  lemma StubUnpadded(ch: Channel, last: PacketId, h: seq<Byte>, payload: seq<Byte>, n: int, top: Byte)
    requires ch.mode == Cbc && ch.compress == Stub && |h| == 4 && 1 <= n <= AES_BLOCK
    ensures var u := Unpadded(h + payload + Repeat(n, n - 1) + [top]);
            u.Done? ==> Decompress(ch, last, u.value).outcome != Done(payload)
  {
    hide Unpad, Decompress, Repeat;
    var full := h + payload + Repeat(n, n - 1) + [top];
    var b := Unpad(full, AES_BLOCK);
    if b.Done? {
      StubReader(ch, last, h, payload, n, top, b.value, full[|b.value|..]);
    }
  }

  // ------------------------------------------------------------- the laws are consistent

  /** The laws asked of the primitives can be met: a cipher that only appends a tag has them. */
  lemma LawfulIsConsistent() returns (c: Primitives)
    ensures Lawful(c)
  {
    c := Primitives(
      (k, iv, p, aad) => p + seq(TAG_SIZE, _ => 0),
      (k, iv, s, aad) => if |s| < TAG_SIZE then None else Some(s[..|s| - TAG_SIZE]),
      (k, iv, p) => p,
      (k, iv, s) => s,
      (k, m) => seq(20, _ => 0),
      20);
    assert forall k, iv, p, aad :: c.open(k, iv, c.seal(k, iv, p, aad), aad) == Some(p) by {
      forall k, iv, p, aad
        ensures c.open(k, iv, c.seal(k, iv, p, aad), aad) == Some(p)
      {
        assert (p + seq(TAG_SIZE, _ => 0))[..|p|] == p;
      }
    }
  }
}
