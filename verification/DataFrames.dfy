/** What the data channel computes (`internal/datachannel`), on values: compression framing,
    padding, encryption and encoding of a tunnel packet, and the way back. The ciphers and the
    HMAC are parameters. */
module DataFrames {
  import opened Bytes
  import opened Packets
  import opened Session
  import opened Padding
  import opened Prf

  datatype Mode = Cbc | Gcm

  /** `stub`, `lzo-no`, or anything else, which is treated as no framing. */
  datatype Compression = Stub | LzoNo | Empty

  datatype DataError =
    | InvalidKeySize | WrongIv | WrongPadding | NothingToEncrypt | NothingToPad | BadPacketIdError
    | TooShort | BadHmac | NothingToDecrypt | CannotDecrypt | BadUnpadding(why: PaddingError)
    | KeyExpired | ReplayAttack | BadCompression | EmptyPayloadError

  const AES_BLOCK: int := 16
  const TAG_SIZE: int := 16
  const MARK_STUB: Byte := 0xfb
  const MARK_LZO_NO: Byte := 0xfa
  const MARK_NONE: Byte := 0x00

  type KeySlot = k: seq<Byte> | |k| == 64 witness seq(64, _ => 0)

  datatype Keys = Keys(cipherLocal: KeySlot, hmacLocal: KeySlot, cipherRemote: KeySlot, hmacRemote: KeySlot)

  /** The cryptographic primitives: AES-GCM seal and open, AES-CBC over whole blocks, HMAC. */
  datatype Primitives = Primitives(
    seal: (seq<Byte>, seq<Byte>, seq<Byte>, seq<Byte>) -> seq<Byte>,
    open: (seq<Byte>, seq<Byte>, seq<Byte>, seq<Byte>) -> Option<seq<Byte>>,
    encryptBlocks: (seq<Byte>, seq<Byte>, seq<Byte>) -> seq<Byte>,
    decryptBlocks: (seq<Byte>, seq<Byte>, seq<Byte>) -> seq<Byte>,
    hmac: Mac,
    hashSize: nat)

  /** All that is used of the primitives: decryption undoes encryption, and the lengths. */
  ghost predicate Lawful(c: Primitives) {
    && (forall k, iv, p, aad :: |c.seal(k, iv, p, aad)| == |p| + TAG_SIZE
          && c.open(k, iv, c.seal(k, iv, p, aad), aad) == Some(p))
    && (forall k, iv, p :: |p| % AES_BLOCK == 0 ==>
          |c.encryptBlocks(k, iv, p)| == |p| && c.decryptBlocks(k, iv, c.encryptBlocks(k, iv, p)) == p)
    && (forall k, m :: |c.hmac(k, m)| == c.hashSize)
    && 1 <= c.hashSize <= 64
  }

  /** One side of a data channel. */
  datatype Channel = Channel(
    crypto: Primitives, keySize: nat, mode: Mode, compress: Compression, keyId: Byte, peerId: UInt32, keys: Keys)

  /** The other side: what is local here is remote there. */
  function Mirror(ch: Channel): Channel {
    ch.(keys := Keys(ch.keys.cipherRemote, ch.keys.hmacRemote, ch.keys.cipherLocal, ch.keys.hmacLocal))
  }

  predicate AesKeySize(n: nat) {
    n == 16 || n == 24 || n == 32
  }

  // ------------------------------------------------------------- framing and padding

  /** `doCompress`. */
  function DoCompress(b: seq<Byte>, c: Compression): Outcome<seq<Byte>, DataError> {
    match c
    case Stub => if b == [] then Panic else Done([MARK_STUB] + b[1..] + [b[0]])
    case LzoNo => Done([MARK_LZO_NO] + b)
    case Empty => Done(b)
  }

  /** PKCS#7 for the AES block size, which always succeeds. */
  function PadBlock(b: seq<Byte>): (r: seq<Byte>)
    ensures |r| % AES_BLOCK == 0 && |b| < |r| <= |b| + AES_BLOCK
  {
    UnpadPad(b, AES_BLOCK);
    Pad(b, AES_BLOCK).value
  }

  /** `doPadding`: with the stub framing the trailing byte goes into the last padding byte. */
  function DoPadding(b: seq<Byte>, c: Compression): Outcome<seq<Byte>, DataError> {
    if b == [] then Failed(NothingToPad)
    else if c == Stub then
      var padded := PadBlock(b[..|b| - 1]);
      Done(padded[..|padded| - 1] + [b[|b| - 1]])
    else Done(PadBlock(b))
  }

  function PeerBytes(peerId: UInt32): (b: seq<Byte>)
    ensures |b| == 3
  {
    PutUint32(peerId)[1..]
  }

  function DataHeader(ch: Channel): (b: seq<Byte>)
    ensures |b| == 4
  {
    [HeaderByte(P_DATA_V2, ch.keyId)] + PeerBytes(ch.peerId)
  }

  // ------------------------------------------------------------- ciphers

  /** `dataCipherAES.encrypt` with the local key. */
  function Encrypt(ch: Channel, iv: seq<Byte>, plaintext: seq<Byte>, aad: seq<Byte>): Outcome<seq<Byte>, DataError> {
    if ch.keySize > 64 || !AesKeySize(ch.keySize) then Failed(InvalidKeySize)
    else
      var k := ch.keys.cipherLocal[..ch.keySize];
      if ch.mode == Cbc then
        if |iv| != AES_BLOCK then Failed(WrongIv)
        else if |plaintext| % AES_BLOCK != 0 then Failed(WrongPadding)
        else Done(ch.crypto.encryptBlocks(k, iv, plaintext))
      else
        if |iv| != 12 then Failed(WrongIv)
        else Done(ch.crypto.seal(k, iv, plaintext, aad))
  }

  /** A decrypted slice, and what follows it in its buffer: unpadding shortens the slice only. */
  datatype Plain = Plain(bytes: seq<Byte>, slack: seq<Byte>)

  function Unpadded(full: seq<Byte>): Outcome<Plain, DataError> {
    var plain := Unpad(full, AES_BLOCK);
    if plain.Done? then Done(Plain(plain.value, full[|plain.value|..]))
    else if plain.Failed? then Failed(BadUnpadding(plain.error))
    else Panic
  }

  /** `dataCipherAES.decrypt` with the remote key. CBC of a partial block stops the program. */
  function Decrypt(ch: Channel, iv: seq<Byte>, ciphertext: seq<Byte>, aad: seq<Byte>): Outcome<Plain, DataError> {
    if ch.keySize > 64 || !AesKeySize(ch.keySize) then Failed(InvalidKeySize)
    else
      var k := ch.keys.cipherRemote[..ch.keySize];
      if ch.mode == Cbc then
        if |iv| != AES_BLOCK then Failed(WrongIv)
        else if |ciphertext| % AES_BLOCK != 0 then Panic
        else Unpadded(ch.crypto.decryptBlocks(k, iv, ciphertext))
      else
        if |iv| != 12 then Failed(WrongIv)
        else
          var plain := ch.crypto.open(k, iv, ciphertext, aad);
          if plain.None? then Failed(CannotDecrypt) else Done(Plain(plain.value, []))
  }

  /** The GCM nonce of a packet: its id and eight bytes of key material. */
  function GcmIv(id: PacketId, hmacKey: KeySlot): (iv: seq<Byte>)
    ensures |iv| == 12
  {
    PutUint32(id) + hmacKey[..8]
  }

  // ------------------------------------------------------------- writing

  /** `encryptAndEncodePayloadAEAD`: header, packet id, tag, ciphertext. */
  function EncodeAead(ch: Channel, pid: Result<PacketId, SessionError>, padded: seq<Byte>)
    : Outcome<seq<Byte>, DataError>
  {
    if pid.Err? then Failed(BadPacketIdError)
    else
      var aad := DataHeader(ch) + PutUint32(pid.value);
      var e := Encrypt(ch, GcmIv(pid.value, ch.keys.hmacLocal), padded, aad);
      if !e.Done? then e
      else if |e.value| < TAG_SIZE then Panic
      else Done(aad + e.value[|e.value| - TAG_SIZE..] + e.value[..|e.value| - TAG_SIZE])
  }

  /** `encryptAndEncodePayloadNonAEAD`: header, HMAC, initialisation vector, ciphertext. */
  function EncodeCbc(ch: Channel, iv: seq<Byte>, padded: seq<Byte>): Outcome<seq<Byte>, DataError> {
    var e := Encrypt(ch, iv, padded, []);
    if !e.Done? then e
    else if ch.crypto.hashSize > 64 then Panic
    else Done(DataHeader(ch) + ch.crypto.hmac(ch.keys.hmacLocal[..ch.crypto.hashSize], iv + e.value) + iv + e.value)
  }

  /** `encryptAndEncodePayload`. */
  function EncryptAndEncode(ch: Channel, pid: Result<PacketId, SessionError>, iv: seq<Byte>, b: seq<Byte>)
    : Outcome<seq<Byte>, DataError>
  {
    if b == [] then Failed(NothingToEncrypt)
    else
      var padded := DoPadding(b, ch.compress);
      if !padded.Done? then padded
      else if ch.mode == Gcm then EncodeAead(ch, pid, padded.value)
      else EncodeCbc(ch, iv, padded.value)
  }

  /** In CBC mode the packet id travels inside the plaintext; an exhausted counter goes unnoticed
      and yields id 0. */
  function WithPacketId(ch: Channel, pid: Result<PacketId, SessionError>, payload: seq<Byte>): seq<Byte> {
    if ch.mode == Cbc then PutUint32(if pid.Ok? then pid.value else 0) + payload else payload
  }

  /** Whether writing a payload gets as far as asking for a packet id. */
  predicate UsesPacketId(ch: Channel, payload: seq<Byte>) {
    ch.mode == Cbc || (DoCompress(payload, ch.compress).Done? && DoCompress(payload, ch.compress).value != [])
  }

  /** `writePacket`. `pid` is the answer of the packet-id counter, `iv` the random bytes of CBC mode. */
  function Write(ch: Channel, pid: Result<PacketId, SessionError>, iv: seq<Byte>, payload: seq<Byte>)
    : Outcome<Packet, DataError>
  {
    var framed := DoCompress(WithPacketId(ch, pid, payload), ch.compress);
    if framed.Panic? then Panic
    else if framed.Failed? then Failed(framed.error)
    else
      var e := EncryptAndEncode(ch, pid, iv, framed.value);
      if e.Done? then Done(NewPacket(P_DATA_V2, ch.keyId, e.value).(peerId := PeerBytes(ch.peerId)))
      else if e.Failed? then Failed(e.error)
      else Panic
  }

  // ------------------------------------------------------------- reading

  datatype Encrypted = Encrypted(iv: seq<Byte>, ciphertext: seq<Byte>, aad: seq<Byte>)

  /** `decodeEncryptedPayloadAEAD`. */
  function DecodeAead(ch: Channel, buf: seq<Byte>): Outcome<Encrypted, DataError> {
    if |buf| < 20 then Failed(TooShort)
    else Done(Encrypted(buf[..4] + ch.keys.hmacRemote[..8], buf[20..] + buf[4..20], DataHeader(ch) + buf[..4]))
  }

  /** `decodeEncryptedPayloadNonAEAD`. */
  function DecodeCbc(ch: Channel, buf: seq<Byte>): Outcome<Encrypted, DataError> {
    var h := ch.crypto.hashSize;
    if h > 64 then Panic
    else if |buf| < h + AES_BLOCK then Failed(TooShort)
    else
      var iv, ciphertext := buf[h..h + AES_BLOCK], buf[h + AES_BLOCK..];
      if ch.crypto.hmac(ch.keys.hmacRemote[..h], iv + ciphertext) != buf[..h] then Failed(BadHmac)
      else Done(Encrypted(iv, ciphertext, []))
  }

  /** The last part of `maybeDecompress`: what the compression marker asks for. */
  function Unframe(marker: Byte, payload: seq<Byte>): Outcome<seq<Byte>, DataError> {
    if marker == MARK_STUB then
      if payload == [] then Panic else Done([payload[|payload| - 1]] + payload[..|payload| - 1])
    else if marker == MARK_NONE || marker == MARK_LZO_NO then Done(payload)
    else Failed(BadCompression)
  }

  /** The replay window is one id wide: only ids above the last one count, and the maximum id ends it. */
  predicate Fresh(last: PacketId, id: PacketId) {
    last != MAX_UINT32 && id > last
  }

  datatype ReadResult = ReadResult(outcome: Outcome<seq<Byte>, DataError>, last: PacketId)

  /** `maybeDecompress`, with the last remote packet id before and after. In CBC mode the first four
      bytes are taken from the buffer, also where the slice is shorter; the rest is not. */
  function Decompress(ch: Channel, last: PacketId, p: Plain): ReadResult {
    var b, framed := p.bytes, ch.compress != Empty;
    if ch.mode == Gcm then
      if !framed then ReadResult(Unframe(MARK_NONE, b), last)
      else if b == [] then ReadResult(Panic, last)
      else ReadResult(Unframe(b[0], b[1..]), last)
    else if |b| + |p.slack| < 4 then ReadResult(Panic, last)
    else if last == MAX_UINT32 then ReadResult(Failed(KeyExpired), last)
    else
      var id := GetUint32((b + p.slack)[..4]);
      if id <= last then ReadResult(Failed(ReplayAttack), last)
      else if |b| < (if framed then 5 else 4) then ReadResult(Panic, id)
      else if !framed then ReadResult(Unframe(MARK_NONE, b[4..]), id)
      else ReadResult(Unframe(b[4], b[5..]), id)
  }

  /** `decrypt`. */
  function DecodeAndDecrypt(ch: Channel, buf: seq<Byte>): Outcome<Plain, DataError> {
    var d := if ch.mode == Gcm then DecodeAead(ch, buf) else DecodeCbc(ch, buf);
    if d.Failed? then Failed(d.error)
    else if d.Panic? then Panic
    else if d.value.ciphertext == [] then Failed(NothingToDecrypt)
    else Decrypt(ch, d.value.iv, d.value.ciphertext, d.value.aad)
  }

  /** `readPacket`. */
  function Read(ch: Channel, last: PacketId, p: Packet): ReadResult {
    if p.payload == [] then ReadResult(Failed(EmptyPayloadError), last)
    else if !IsData(p.opcode) then ReadResult(Panic, last)
    else
      var plain := DecodeAndDecrypt(ch, p.payload);
      if plain.Done? then Decompress(ch, last, plain.value)
      else if plain.Failed? then ReadResult(Failed(plain.error), last)
      else ReadResult(Panic, last)
  }
}
