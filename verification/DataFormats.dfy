/** The data channel in bytes and offsets (`internal/datachannel`): what exactly leaves the program for
    a payload, and which packets the reader accepts, whoever wrote them. */
module DataFormats {
  import opened Bytes
  import opened Packets
  import opened Session
  import opened Padding
  import opened DataFrames

  // ------------------------------------------------------------- writing

  /** The bytes that are encrypted for `b`: framed, and filled up to whole blocks of sixteen. With the
      stub framing the first byte takes the place of the last padding byte. */
  ghost function Plaintext(c: Compression, b: seq<Byte>): seq<Byte>
    requires c == Stub ==> b != []
  {
    match c
    case Empty => var n := 16 - |b| % 16; b + seq(n, _ => n)
    case LzoNo => var n := 16 - (|b| + 1) % 16; [0xfa] + b + seq(n, _ => n)
    case Stub => var n := 16 - |b| % 16; [0xfb] + b[1..] + seq(n - 1, _ => n) + [b[0]]
  }

  lemma PlaintextIs(c: Compression, b: seq<Byte>)
    requires c == LzoNo || b != []
    ensures DoCompress(b, c).Done? && DoPadding(DoCompress(b, c).value, c) == Done(Plaintext(c, b))
  {
    var framed := DoCompress(b, c).value;
    match c
    case Empty =>
      assert PadBlock(b) == Plaintext(c, b);
    case LzoNo =>
      assert framed == [0xfa] + b;
      assert PadBlock(framed) == Plaintext(c, b);
    case Stub =>
      var x, n := [0xfb] + b[1..], 16 - |b| % 16;
      assert framed[..|framed| - 1] == x && framed[|framed| - 1] == b[0];
      assert PadBlock(x) == x + Repeat(n, n);
      assert PadBlock(x)[..|x| + n - 1] == x + seq(n - 1, _ => n);
  }

  /** Opcode 9 and the low three bits of the key id in one byte, then three bytes of the peer id. */
  ghost predicate StartsWithHeader(ch: Channel, b: seq<Byte>) {
    && |b| >= 4
    && b[0] == 72 + ch.keyId % 8
    && b[1] == ch.peerId / 65_536 % 256 && b[2] == ch.peerId / 256 % 256 && b[3] == ch.peerId % 256
  }

  lemma HeaderIs(ch: Channel)
    ensures StartsWithHeader(ch, DataHeader(ch))
  {}

  /** GCM: header, packet id, tag, ciphertext; sealed with the local cipher key under the nonce made of
      the id and the local HMAC key, the first eight bytes being authenticated. */
  lemma GcmFormat(ch: Channel, pid: Result<PacketId, SessionError>, iv: seq<Byte>, payload: seq<Byte>)
    requires ch.mode == Gcm && Write(ch, pid, iv, payload).Done?
    ensures pid.Ok? && ch.keySize in {16, 24, 32} && (ch.compress == LzoNo || payload != [])
    ensures var w := Write(ch, pid, iv, payload).value;
            && w.opcode == 9 && |w.payload| >= 24
            && StartsWithHeader(ch, w.payload) && HoldsUint32(w.payload, 4, pid.value)
            && w.payload[24..] + w.payload[8..24] ==
               ch.crypto.seal(ch.keys.cipherLocal[..ch.keySize], w.payload[4..8] + ch.keys.hmacLocal[..8],
                              Plaintext(ch.compress, payload), w.payload[..8])
  {
    assert ch.compress == LzoNo || payload != [];
    PlaintextIs(ch.compress, payload);
    var e := Write(ch, pid, iv, payload).value.payload;
    var plain := Plaintext(ch.compress, payload);
    hide Plaintext, DataHeader, PutUint32, DoPadding, DoCompress, PeerBytes;
    assert EncodeAead(ch, pid, plain) == Done(e) by { hide EncodeAead; }
    hide Write;
    EncodedAead(ch, pid, plain, e);
    HeaderIs(ch);
    BigEndian(pid.value);
    hide EncodeAead;
    assert e[..8][..4] == e[..4] && e[..8][4..] == e[4..8];
    HoldsInside(e[..4], e[4..8], e[8..], 0, pid.value);
    assert e == e[..4] + e[4..8] + e[8..];
  }

  lemma EncodedAead(ch: Channel, pid: Result<PacketId, SessionError>, plain: seq<Byte>, e: seq<Byte>)
    requires ch.mode == Gcm && EncodeAead(ch, pid, plain) == Done(e)
    ensures pid.Ok? && ch.keySize in {16, 24, 32}
    ensures |e| >= 24 && e[..4] == DataHeader(ch) && e[4..8] == PutUint32(pid.value)
    ensures e[24..] + e[8..24] ==
            ch.crypto.seal(ch.keys.cipherLocal[..ch.keySize], e[4..8] + ch.keys.hmacLocal[..8], plain, e[..8])
  {
    hide DataHeader, PutUint32;
    var header, id := DataHeader(ch), PutUint32(pid.value);
    var sealed := Encrypt(ch, GcmIv(pid.value, ch.keys.hmacLocal), plain, header + id).value;
    var tag, ct := sealed[|sealed| - 16..], sealed[..|sealed| - 16];
    assert e == header + id + tag + ct;
    assert e[..8] == header + id && e[4..8] == id && e[8..24] == tag && e[24..] == ct;
    assert ct + tag == sealed;
  }

  /** CBC: header, HMAC, initialisation vector, ciphertext; the packet id is in front of the payload
      before framing, and 0 if there is none left. The HMAC covers all that follows it. */
  lemma CbcFormat(ch: Channel, pid: Result<PacketId, SessionError>, iv: seq<Byte>, payload: seq<Byte>)
    requires ch.mode == Cbc && Write(ch, pid, iv, payload).Done?
    ensures ch.keySize in {16, 24, 32} && |iv| == 16 && ch.crypto.hashSize <= 64
    ensures var w := Write(ch, pid, iv, payload).value;
            var id := PutUint32(if pid.Ok? then pid.value else 0);
            var plain := Plaintext(ch.compress, id + payload);
            var ct := ch.crypto.encryptBlocks(ch.keys.cipherLocal[..ch.keySize], iv, plain);
            && w.opcode == 9 && StartsWithHeader(ch, w.payload)
            && w.payload[4..] == ch.crypto.hmac(ch.keys.hmacLocal[..ch.crypto.hashSize], iv + ct) + iv + ct
  {
    var id := PutUint32(if pid.Ok? then pid.value else 0);
    PlaintextIs(ch.compress, id + payload);
    HeaderIs(ch);
    var plain, header := Plaintext(ch.compress, id + payload), DataHeader(ch);
    hide Plaintext, DataHeader, PutUint32, DoPadding, DoCompress;
    var e := Write(ch, pid, iv, payload).value.payload;
    assert EncodeCbc(ch, iv, plain) == Done(e) by { hide EncodeCbc; }
    hide Write;
    EncodedCbc(ch, iv, plain, e);
  }

  lemma EncodedCbc(ch: Channel, iv: seq<Byte>, plain: seq<Byte>, e: seq<Byte>)
    requires ch.mode == Cbc && EncodeCbc(ch, iv, plain) == Done(e)
    ensures ch.keySize in {16, 24, 32} && |iv| == 16 && ch.crypto.hashSize <= 64
    ensures var ct := ch.crypto.encryptBlocks(ch.keys.cipherLocal[..ch.keySize], iv, plain);
            && |e| >= 4 && e[..4] == DataHeader(ch)
            && e[4..] == ch.crypto.hmac(ch.keys.hmacLocal[..ch.crypto.hashSize], iv + ct) + iv + ct
  {
    var header := DataHeader(ch);
    hide DataHeader;
    var ct := ch.crypto.encryptBlocks(ch.keys.cipherLocal[..ch.keySize], iv, plain);
    var mac := ch.crypto.hmac(ch.keys.hmacLocal[..ch.crypto.hashSize], iv + ct);
    assert e == header + mac + iv + ct;
    assert e[..4] == header && e[4..] == mac + iv + ct;
  }

  /** A write takes a packet id unless it is a GCM write of nothing, which only lzo-no framing allows. */
  lemma UsesPacketIdIff(ch: Channel, payload: seq<Byte>)
    ensures UsesPacketId(ch, payload) <==> ch.mode == Cbc || payload != [] || ch.compress == LzoNo
  {}

  /** When a write succeeds: in CBC mode always, given a key and a vector of the right size; in GCM mode
      if there is an id left and something to encrypt. */
  lemma WriteSucceedsIff(ch: Channel, pid: Result<PacketId, SessionError>, iv: seq<Byte>, payload: seq<Byte>)
    requires Lawful(ch.crypto)
    ensures ch.mode == Gcm ==>
              (Write(ch, pid, iv, payload).Done? <==>
               ch.keySize in {16, 24, 32} && pid.Ok? && (payload != [] || ch.compress == LzoNo))
    ensures ch.mode == Cbc ==> (Write(ch, pid, iv, payload).Done? <==> ch.keySize in {16, 24, 32} && |iv| == 16)
  {
    hide Write, Lawful;
    if ch.mode == Cbc {
      CbcSucceedsIff(ch, pid, iv, payload);
    } else if Write(ch, pid, iv, payload).Done? {
      GcmFormat(ch, pid, iv, payload);
    } else if ch.keySize in {16, 24, 32} && pid.Ok? && (payload != [] || ch.compress == LzoNo) {
      GcmSucceeds(ch, pid.value, iv, payload);
    }
  }

  lemma GcmSucceeds(ch: Channel, id: PacketId, iv: seq<Byte>, payload: seq<Byte>)
    requires Lawful(ch.crypto) && ch.mode == Gcm && ch.keySize in {16, 24, 32}
    requires payload != [] || ch.compress == LzoNo
    ensures Write(ch, Ok(id), iv, payload).Done?
  {
    PlaintextIs(ch.compress, payload);
    hide DoPadding, Plaintext, DataHeader, PutUint32, PeerBytes;
  }

  lemma CbcSucceedsIff(ch: Channel, pid: Result<PacketId, SessionError>, iv: seq<Byte>, payload: seq<Byte>)
    requires Lawful(ch.crypto) && ch.mode == Cbc
    ensures Write(ch, pid, iv, payload).Done? <==> ch.keySize in {16, 24, 32} && |iv| == 16
  {
    var b := PutUint32(if pid.Ok? then pid.value else 0) + payload;
    PlaintextIs(ch.compress, b);
    PlaintextFills(ch.compress, b);
    hide DoPadding, DoCompress, Plaintext, DataHeader, PutUint32, PeerBytes;
  }

  lemma PlaintextFills(c: Compression, b: seq<Byte>)
    requires c == Stub ==> b != []
    ensures |Plaintext(c, b)| % 16 == 0
  {}

  // ------------------------------------------------------------- reading

  /** What the framing byte says: 0xfb moves the last byte to the front, 0x00 and 0xfa mean as is. */
  ghost predicate Deframed(c: Compression, b: seq<Byte>, x: seq<Byte>) {
    if c == Empty then x == b
    else
      && b != []
      && (|| (b[0] == 0xfb && |b| >= 2 && x == [b[|b| - 1]] + b[1..|b| - 1])
          || ((b[0] == 0x00 || b[0] == 0xfa) && x == b[1..]))
  }

  lemma DeframedIff(c: Compression, b: seq<Byte>, x: seq<Byte>)
    ensures c == Empty ==> (Unframe(MARK_NONE, b) == Done(x) <==> Deframed(c, b, x))
    ensures c != Empty && b != [] ==> (Unframe(b[0], b[1..]) == Done(x) <==> Deframed(c, b, x))
  {
    if |b| >= 2 {
      assert b[1..][..|b| - 2] == b[1..|b| - 1];
    }
  }

  /** The packet is a GCM packet of the peer: it opens to a framed `x` with the remote keys. */
  ghost predicate GcmOpens(ch: Channel, p: Packet, header: seq<Byte>, x: seq<Byte>) {
    && (p.opcode == 6 || p.opcode == 9) && ch.keySize in {16, 24, 32} && |p.payload| >= 20
    && var plain := ch.crypto.open(ch.keys.cipherRemote[..ch.keySize], p.payload[..4] + ch.keys.hmacRemote[..8],
                                   p.payload[20..] + p.payload[4..20], header + p.payload[..4]);
       plain.Some? && Deframed(ch.compress, plain.value, x)
  }

  /** GCM mode: exactly the packets that open are accepted, and the mark is left alone. */
  lemma GcmAcceptsIff(ch: Channel, last: PacketId, p: Packet, header: seq<Byte>, x: seq<Byte>)
    requires ch.mode == Gcm && |header| == 4 && StartsWithHeader(ch, header)
    ensures Read(ch, last, p).outcome == Done(x) <==> GcmOpens(ch, p, header, x)
    ensures Read(ch, last, p).last == last
  {
    HeaderIs(ch);
    assert header == DataHeader(ch);
    hide DataHeader;
    var plain := DecodeAndDecrypt(ch, p.payload);
    if plain.Done? {
      assert plain.value.slack == [];
      DeframedIff(ch.compress, plain.value.bytes, x);
    }
    hide Unframe, Deframed;
  }

  /** The packet starts with the HMAC of all that follows, under the remote HMAC key. */
  ghost predicate Authentic(ch: Channel, p: Packet) {
    var h := ch.crypto.hashSize;
    h <= 64 && |p.payload| >= h + 16 && p.payload[..h] == ch.crypto.hmac(ch.keys.hmacRemote[..h], p.payload[h..])
  }

  /** The packet is authentic and decrypts, with the remote cipher key, to whole blocks that hold the
      packet id, a framed `x` and a padding that its last byte measures. */
  ghost predicate CbcOpens(ch: Channel, p: Packet, id: PacketId, x: seq<Byte>) {
    && (p.opcode == 6 || p.opcode == 9) && ch.keySize in {16, 24, 32} && Authentic(ch, p)
    && var h := ch.crypto.hashSize;
       && |p.payload| > h + 16 && (|p.payload| - h) % 16 == 0
       && var plain := ch.crypto.decryptBlocks(ch.keys.cipherRemote[..ch.keySize], p.payload[h..h + 16],
                                               p.payload[h + 16..]);
          && plain != []
          && var k: int := plain[|plain| - 1];
             && 1 <= k <= 16 && k + 4 <= |plain|
             && HoldsUint32(plain, 0, id) && Deframed(ch.compress, plain[4..|plain| - k], x)
  }

  lemma AuthenticIff(ch: Channel, p: Packet)
    ensures DecodeCbc(ch, p.payload).Done? <==> Authentic(ch, p)
    ensures DecodeCbc(ch, p.payload).Done? ==>
              var h := ch.crypto.hashSize;
              DecodeCbc(ch, p.payload).value == Encrypted(p.payload[h..h + 16], p.payload[h + 16..], [])
  {
    var h := ch.crypto.hashSize;
    if h <= 64 && |p.payload| >= h + 16 {
      assert p.payload[h..h + 16] + p.payload[h + 16..] == p.payload[h..];
    }
  }

  lemma CbcDecompressIff(ch: Channel, last: PacketId, plain: seq<Byte>, x: seq<Byte>, id: PacketId)
    requires ch.mode == Cbc
    ensures var u := Unpadded(plain);
            u.Done? && Decompress(ch, last, u.value) == ReadResult(Done(x), id) <==>
            && last < id && plain != []
            && var k: int := plain[|plain| - 1];
               && 1 <= k <= 16 && k + 4 <= |plain|
               && HoldsUint32(plain, 0, id) && Deframed(ch.compress, plain[4..|plain| - k], x)
  {
    var u := Unpadded(plain);
    if u.Done? {
      var k: int := plain[|plain| - 1];
      var b, slack := u.value.bytes, u.value.slack;
      assert b + slack == plain && b == plain[..|plain| - k];
      if |b| >= 4 {
        assert plain[..4] == [plain[0], plain[1], plain[2], plain[3]];
        assert b[4..] == plain[4..|plain| - k];
        DeframedIff(ch.compress, b[4..], x);
        if |b| >= 5 {
          assert b[4..][0] == b[4] && b[4..][1..] == b[5..];
        }
      }
    }
    hide Unframe, Deframed;
  }

  /** CBC mode: a packet is accepted as `x`, and the mark moves to `id`, exactly if it is authentic,
      decrypts to that id and payload, and the id is above the mark. */
  lemma CbcAcceptsIff(ch: Channel, last: PacketId, p: Packet, x: seq<Byte>, id: PacketId)
    requires ch.mode == Cbc
    ensures Read(ch, last, p) == ReadResult(Done(x), id) <==> CbcOpens(ch, p, id, x) && last < id
  {
    AuthenticIff(ch, p);
    hide Unpadded, Decompress, DecodeCbc, Deframed, HoldsUint32;
    var h := ch.crypto.hashSize;
    if Authentic(ch, p) && AesKeySize(ch.keySize) {
      var iv, ct := p.payload[h..h + 16], p.payload[h + 16..];
      var plain := ch.crypto.decryptBlocks(ch.keys.cipherRemote[..ch.keySize], iv, ct);
      CbcDecompressIff(ch, last, plain, x, id);
    }
  }

  /** Whatever else is wrong with a packet, one that is not authentic is not accepted and does not
      move the mark. */
  lemma CbcRejectsForged(ch: Channel, last: PacketId, p: Packet)
    requires ch.mode == Cbc && !Authentic(ch, p)
    ensures !Read(ch, last, p).outcome.Done? && Read(ch, last, p).last == last
  {
    AuthenticIff(ch, p);
    hide Authentic, Decompress;
  }
}
