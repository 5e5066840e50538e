/** The data channel as code (`internal/datachannel`): buffers built byte by byte, the packet-id
    counter of the session and the remote packet id of the channel state updated in place. */
module DataChannel {
  import opened Bytes
  import opened Packets
  import opened Session
  import opened Padding
  import opened Prf
  import opened KeyMaterial
  import opened DataFrames

  /** `doCompress`: with the stub framing the first byte moves to the end and is overwritten. */
  method Compress(b: seq<Byte>, c: Compression) returns (r: Outcome<seq<Byte>, DataError>)
    ensures r == DoCompress(b, c)
  {
    match c
    case Stub =>
      if |b| == 0 {
        return Panic;
      }
      var out := b + [b[0]];
      out := out[0 := MARK_STUB];
      assert out == [MARK_STUB] + b[1..] + [b[0]];
      return Done(out);
    case LzoNo => return Done([MARK_LZO_NO] + b);
    case Empty => return Done(b);
  }

  /** `doPadding`. */
  method PadPlaintext(b: seq<Byte>, c: Compression) returns (r: Outcome<seq<Byte>, DataError>)
    ensures r == DoPadding(b, c)
  {
    hide Pad;
    if |b| == 0 {
      return Failed(NothingToPad);
    }
    if c == Stub {
      var endByte := b[|b| - 1];
      var padded := PadBlock(b[..|b| - 1]);
      var out := padded[|padded| - 1 := endByte];
      assert out == padded[..|padded| - 1] + [endByte];
      return Done(out);
    }
    return Done(PadBlock(b));
  }

  /** `prependPacketID`. */
  method PrependPacketId(p: PacketId, buf: seq<Byte>) returns (r: seq<Byte>)
    ensures r == PutUint32(p) + buf
  {
    var newbuf := new Buffer([]);
    newbuf.WriteUint32(p);
    newbuf.Write(buf);
    assert newbuf.data == PutUint32(p) + buf;
    return newbuf.data;
  }

  class DataChannelState {
    var keys: Keys
    var remotePacketId: PacketId

    constructor (keys: Keys)
      ensures this.keys == keys && remotePacketId == 0
    {
      this.keys, remotePacketId := keys, 0;
    }

    method SetRemotePacketId(id: PacketId)
      modifies this`remotePacketId
      ensures remotePacketId == id
    {
      remotePacketId := id;
    }

    method RemotePacketId() returns (r: Option<PacketId>)
      ensures r == if remotePacketId == MAX_UINT32 then None else Some(remotePacketId)
    {
      var pid := remotePacketId;
      if pid == MAX_UINT32 {
        return None;
      }
      return Some(pid);
    }
  }

  class DataChannel {
    const crypto: Primitives
    const keySize: nat
    const mode: Mode
    const compress: Compression
    const session: Manager
    const state: DataChannelState

    /** The peer id as `uint32` truncates it. */
    function PeerId(): UInt32
      reads session
    {
      session.tunnelInfo.peerId % TWO_32
    }

    function View(): Channel
      reads this, session, state
    {
      Channel(crypto, keySize, mode, compress, session.keyId, PeerId(), state.keys)
    }

    constructor (crypto: Primitives, keySize: nat, mode: Mode, compress: Compression, session: Manager,
            state: DataChannelState)
      ensures this.session == session && this.state == state
      ensures View() == Channel(crypto, keySize, mode, compress, session.keyId, PeerId(), state.keys)
    {
      this.crypto, this.keySize, this.mode, this.compress := crypto, keySize, mode, compress;
      this.session, this.state := session, state;
    }

    // --------------------------------------------------------- write + encrypt

    /** `writePacket`. */
    method WritePacket(payload: seq<Byte>, iv: seq<Byte>) returns (r: Outcome<Packet, DataError>)
      modifies session`localDataPacketId
      ensures r == Write(View(), IssueId(old(session.localDataPacketId)), iv, payload)
      ensures session.localDataPacketId ==
              if UsesPacketId(View(), payload) then Bump(old(session.localDataPacketId))
                  else old(session.localDataPacketId)
    {
      hide DoCompress, EncryptAndEncode;
      ghost var pid := IssueId(session.localDataPacketId);
      var plaintext := payload;
      var issued: Result<PacketId, SessionError> := Err(ExpiredKey);
      if mode == Cbc {
        issued := session.LocalDataPacketId();
        plaintext := PrependPacketId(if issued.Ok? then issued.value else 0, payload);
      }
      assert plaintext == WithPacketId(View(), pid, payload);
      var framed := Compress(plaintext, compress);
      if framed.Panic? {
        return Panic;
      } else if framed.Failed? {
        return Failed(framed.error);
      }
      var encrypted := EncryptAndEncodePayload(framed.value, iv, issued);
      if encrypted.Panic? {
        return Panic;
      } else if encrypted.Failed? {
        return Failed(encrypted.error);
      }
      var peer := new Buffer([]);
      peer.WriteUint24(PeerId());
      assert peer.data == PeerBytes(PeerId());
      return Done(NewPacket(P_DATA_V2, session.keyId, encrypted.value).(peerId := peer.data));
    }

    /** `encryptAndEncodePayload`: in AEAD mode the packet id is taken here. */
    method EncryptAndEncodePayload(plaintext: seq<Byte>, iv: seq<Byte>, issued: Result<PacketId, SessionError>)
      returns (r: Outcome<seq<Byte>, DataError>)
      modifies session`localDataPacketId
      ensures mode == Cbc ==>
                r == EncryptAndEncode(View(), issued, iv, plaintext)
                    && session.localDataPacketId == old(session.localDataPacketId)
      ensures mode == Gcm ==>
                && r == EncryptAndEncode(View(), IssueId(old(session.localDataPacketId)), iv, plaintext)
                && session.localDataPacketId == if plaintext != [] then Bump(old(session.localDataPacketId))
                   else old(session.localDataPacketId)
    {
      hide EncodeAead, EncodeCbc, PadBlock;
      if |plaintext| == 0 {
        return Failed(NothingToEncrypt);
      }
      var padded := PadPlaintext(plaintext, compress);
      if mode == Gcm {
        r := EncryptAndEncodePayloadAead(padded.value);
      } else {
        r := EncryptAndEncodePayloadNonAead(padded.value, iv);
      }
    }

    /** `encryptAndEncodePayloadAEAD`. */
    method EncryptAndEncodePayloadAead(padded: seq<Byte>) returns (r: Outcome<seq<Byte>, DataError>)
      requires mode == Gcm
      modifies session`localDataPacketId
      ensures r == EncodeAead(View(), IssueId(old(session.localDataPacketId)), padded)
      ensures session.localDataPacketId == Bump(old(session.localDataPacketId))
    {
      hide Encrypt;
      var nextPacketId := session.LocalDataPacketId();
      if nextPacketId.Err? {
        return Failed(BadPacketIdError);
      }
      var aead := WriteHeader();
      aead.WriteUint32(nextPacketId.value);
      var iv := new Buffer([]);
      iv.WriteUint32(nextPacketId.value);
      iv.Write(state.keys.hmacLocal[..8]);
      assert iv.data == GcmIv(nextPacketId.value, state.keys.hmacLocal);
      var encrypted := Encrypt(View(), iv.data, padded, aead.data);
      if !encrypted.Done? {
        return encrypted;
      }
      var boundary := |encrypted.value| - TAG_SIZE;
      if boundary < 0 {
        return Panic;
      }
      var tag, ciphertext := encrypted.value[boundary..], encrypted.value[..boundary];
      var out := new Buffer([]);
      out.Write(aead.data);
      out.Write(tag);
      out.Write(ciphertext);
      assert out.data == aead.data + tag + ciphertext;
      return Done(out.data);
    }

    /** `encryptAndEncodePayloadNonAEAD`. */
    method EncryptAndEncodePayloadNonAead(padded: seq<Byte>, iv: seq<Byte>) returns (r: Outcome<seq<Byte>, DataError>)
      requires mode == Cbc
      ensures r == EncodeCbc(View(), iv, padded)
    {
      hide Encrypt;
      var ciphertext := Encrypt(View(), iv, padded, []);
      if !ciphertext.Done? {
        return ciphertext;
      }
      if crypto.hashSize > 64 {
        return Panic;
      }
      var fed := new Buffer([]);
      fed.Write(iv);
      fed.Write(ciphertext.value);
      assert fed.data == iv + ciphertext.value;
      var computedMac := crypto.hmac(state.keys.hmacLocal[..crypto.hashSize], fed.data);
      var out := WriteHeader();
      out.Write(computedMac);
      out.Write(iv);
      out.Write(ciphertext.value);
      return Done(out.data);
    }

    /** Opcode, key id and peer id. */
    method WriteHeader() returns (b: Buffer)
      ensures fresh(b) && b.data == DataHeader(View())
    {
      b := new Buffer([]);
      b.WriteByte(HeaderByte(P_DATA_V2, session.keyId));
      b.WriteUint24(PeerId());
      assert b.data == [HeaderByte(P_DATA_V2, session.keyId)] + PeerBytes(PeerId());
    }

    // --------------------------------------------------------- read + decrypt

    /** `readPacket`. */
    method ReadPacket(p: Packet) returns (r: Outcome<seq<Byte>, DataError>)
      modifies state`remotePacketId
      ensures ReadResult(r, state.remotePacketId) == Read(View(), old(state.remotePacketId), p)
    {
      hide DecodeAndDecrypt, Decompress;
      if |p.payload| == 0 {
        return Failed(EmptyPayloadError);
      }
      if !IsData(p.opcode) {
        return Panic;
      }
      var plaintext := DecryptPayload(p.payload);
      if plaintext.Panic? {
        return Panic;
      } else if plaintext.Failed? {
        return Failed(plaintext.error);
      }
      r := MaybeDecompress(plaintext.value);
    }

    /** `decrypt`. */
    method DecryptPayload(encrypted: seq<Byte>) returns (r: Outcome<Plain, DataError>)
      ensures r == DecodeAndDecrypt(View(), encrypted)
    {
      hide DecodeAead, DecodeCbc, Decrypt;
      var ch := View();
      var d;
      if mode == Gcm {
        d := DecodePayloadAead(encrypted);
      } else {
        d := DecodePayloadNonAead(encrypted);
      }
      if d.Failed? {
        return Failed(d.error);
      } else if d.Panic? {
        return Panic;
      }
      if |d.value.ciphertext| == 0 {
        return Failed(NothingToDecrypt);
      }
      return Decrypt(ch, d.value.iv, d.value.ciphertext, d.value.aad);
    }

    /** `decodeEncryptedPayloadAEAD`: reassembles header, nonce and ciphertext-with-tag. */
    method DecodePayloadAead(buf: seq<Byte>) returns (r: Outcome<Encrypted, DataError>)
      ensures r == DecodeAead(View(), buf)
    {
      if |buf| < 20 {
        return Failed(TooShort);
      }
      var packetId := buf[..4];
      var headers := WriteHeader();
      headers.Write(packetId);
      var payload := new Buffer([]);
      payload.Write(buf[20..]);
      payload.Write(buf[4..20]);
      assert payload.data == buf[20..] + buf[4..20];
      var iv := new Buffer([]);
      iv.Write(packetId);
      iv.Write(state.keys.hmacRemote[..8]);
      assert iv.data == packetId + state.keys.hmacRemote[..8];
      return Done(Encrypted(iv.data, payload.data, headers.data));
    }

    /** `decodeEncryptedPayloadNonAEAD`: recomputes the HMAC over vector and ciphertext. */
    method DecodePayloadNonAead(buf: seq<Byte>) returns (r: Outcome<Encrypted, DataError>)
      ensures r == DecodeCbc(View(), buf)
    {
      var hashSize := crypto.hashSize;
      if hashSize > 64 {
        return Panic;
      }
      if |buf| < hashSize + AES_BLOCK {
        return Failed(TooShort);
      }
      var receivedHmac := buf[..hashSize];
      var iv := buf[hashSize..hashSize + AES_BLOCK];
      var ciphertext := buf[hashSize + AES_BLOCK..];
      var fed := new Buffer([]);
      fed.Write(iv);
      fed.Write(ciphertext);
      assert fed.data == iv + ciphertext;
      var computedHmac := crypto.hmac(state.keys.hmacRemote[..hashSize], fed.data);
      if computedHmac != receivedHmac {
        return Failed(BadHmac);
      }
      return Done(Encrypted(iv, ciphertext, []));
    }

    /** `maybeDecompress`: checks and stores the remote packet id in CBC mode. */
    method MaybeDecompress(p: Plain) returns (r: Outcome<seq<Byte>, DataError>)
      modifies state`remotePacketId
      ensures ReadResult(r, state.remotePacketId) == Decompress(View(), old(state.remotePacketId), p)
    {
      hide Unframe, GetUint32;
      var b := p.bytes;
      var marker, payload: seq<Byte> := MARK_NONE, [];
      if mode == Gcm {
        if compress == Stub || compress == LzoNo {
          if |b| == 0 {
            return Panic;
          }
          marker, payload := b[0], b[1..];
        } else {
          payload := b;
        }
      } else {
        if |b| + |p.slack| < 4 {
          return Panic;
        }
        var remotePacketId := GetUint32((b + p.slack)[..4]);
        var lastKnownRemote := state.RemotePacketId();
        if lastKnownRemote.None? {
          return Failed(KeyExpired);
        }
        if remotePacketId <= lastKnownRemote.value {
          return Failed(ReplayAttack);
        }
        state.SetRemotePacketId(remotePacketId);
        if compress == Stub || compress == LzoNo {
          if |b| < 5 {
            return Panic;
          }
          marker, payload := b[4], b[5..];
        } else {
          if |b| < 4 {
            return Panic;
          }
          payload := b[4..];
        }
      }
      return Unframe(marker, payload);
    }

    // --------------------------------------------------------- key setup

    /** `setupKeys`: derives the four key slots from the two key sources and the session ids. A key
        that is not ready is an error that changes nothing; a missing local source or a hash longer
        than a key slot stops the program. */
    method SetupKeys(dck: DataChannelKey, md5: Mac, sha1: Mac) returns (r: Outcome<(), KeyError>)
      requires dck.Valid() && NonEmpty(md5) && NonEmpty(sha1)
      modifies state`keys
      ensures r.Done? <==> dck.ready && dck.localSource.Some? && crypto.hashSize <= 64
      ensures r.Failed? <==> !dck.ready
      ensures !dck.ready || dck.localSource.None? ==> state.keys == old(state.keys)
      ensures dck.ready && dck.localSource.Some? ==>
                Derived(state.keys, dck.localSource.value, dck.remoteSource.value, session.View(), md5, sha1)
    {
      hide IsPrf, Ascii;
      if !dck.ready {
        return Failed(KeyNotReady);
      }
      if dck.localSource.None? {
        return Panic;
      }
      var here, there := dck.localSource.value, dck.remoteSource.value;
      var master := DeriveKey(here.preMaster, MASTER_SECRET, here.r1, there.r1, [], [], 48, md5, sha1);
      var remoteId := if session.remoteSessionId.Some? then session.remoteSessionId.value else [];
      var keys := DeriveKey(master, KEY_EXPANSION, here.r2, there.r2, session.localSessionId, remoteId, 256, md5, sha1);
      state.keys := Keys(keys[0..64], keys[64..128], keys[128..192], keys[192..256]);
      assert keys == state.keys.cipherLocal + state.keys.hmacLocal + state.keys.cipherRemote + state.keys.hmacRemote;
      if crypto.hashSize > 64 {
        return Panic;
      }
      return Done(());
    }
  }

  function Ascii(s: string): seq<Byte> {
    seq(|s|, i requires 0 <= i < |s| => s[i] as int % 256)
  }

  const MASTER_SECRET: seq<Byte> := Ascii("OpenVPN master secret")
  const KEY_EXPANSION: seq<Byte> := Ascii("OpenVPN key expansion")

  /** The slots, one after the other, are 256 bytes of the PRF keyed with a master secret, which in
      turn is 48 bytes of the PRF keyed with the local pre-master secret. */
  ghost predicate Derived(keys: Keys, here: KeySource, there: KeySource, s: SessionState, md5: Mac, sha1: Mac)
    requires NonEmpty(md5) && NonEmpty(sha1)
  {
    exists master: seq<Byte> ::
      && |master| == 48
      && IsPrf(master, md5, sha1, here.preMaster, MASTER_SECRET + (here.r1 + there.r1 + [] + []))
      && IsPrf(keys.cipherLocal + keys.hmacLocal + keys.cipherRemote + keys.hmacRemote, md5, sha1, master,
               KEY_EXPANSION + (here.r2 + there.r2 + s.localSessionId +
                                if s.remoteSessionId.Some? then s.remoteSessionId.value else []))
  }

  /** Key derivation determines the keys: with `master` and `out` the 48 and 256 bytes that the PRF
      gives, the four slots are the four quarters of `out`, in this order. */
  lemma SlotsAre(keys: Keys, here: KeySource, there: KeySource, s: SessionState, md5: Mac, sha1: Mac,
          master: seq<Byte>, out: seq<Byte>)
    requires NonEmpty(md5) && NonEmpty(sha1) && Derived(keys, here, there, s, md5, sha1)
    requires |master| == 48 && |out| == 256
    requires IsPrf(master, md5, sha1, here.preMaster, MASTER_SECRET + here.r1 + there.r1)
    requires var remote: seq<Byte> := if s.remoteSessionId.Some? then s.remoteSessionId.value else [];
             IsPrf(out, md5, sha1, master, KEY_EXPANSION + here.r2 + there.r2 + s.localSessionId + remote)
    ensures keys.cipherLocal == out[..64] && keys.hmacLocal == out[64..128]
    ensures keys.cipherRemote == out[128..192] && keys.hmacRemote == out[192..]
  {
    hide IsPrf, Ascii;
    var remote: seq<Byte> := if s.remoteSessionId.Some? then s.remoteSessionId.value else [];
    var seed := MASTER_SECRET + here.r1 + there.r1;
    var seed2 := KEY_EXPANSION + here.r2 + there.r2 + s.localSessionId + remote;
    Concatenation(MASTER_SECRET, here.r1, there.r1, [], []);
    Concatenation(KEY_EXPANSION, here.r2, there.r2, s.localSessionId, remote);
    var all := keys.cipherLocal + keys.hmacLocal + keys.cipherRemote + keys.hmacRemote;
    var m :| |m| == 48 && IsPrf(m, md5, sha1, here.preMaster, seed) && IsPrf(all, md5, sha1, m, seed2);
    PrfPrefix(m, master, md5, sha1, here.preMaster, seed);
    assert m == master;
    PrfPrefix(all, out, md5, sha1, master, seed2);
    Quarters(keys, out);
  }

  lemma Concatenation(a: seq<Byte>, b: seq<Byte>, c: seq<Byte>, d: seq<Byte>, e: seq<Byte>)
    ensures a + (b + c + d + e) == a + b + c + d + e
    ensures a + b + c + [] + [] == a + b + c
  {}

  lemma Quarters(keys: Keys, out: seq<Byte>)
    requires |out| == 256 && keys.cipherLocal + keys.hmacLocal + keys.cipherRemote + keys.hmacRemote <= out
    ensures keys.cipherLocal == out[..64] && keys.hmacLocal == out[64..128]
    ensures keys.cipherRemote == out[128..192] && keys.hmacRemote == out[192..]
  {}
}
