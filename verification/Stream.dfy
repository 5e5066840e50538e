/** OpenVPN framing over a byte stream (`internal/networkio/stream.go`): every packet is
    preceded by its length in two big-endian bytes. */
module Stream {
  import opened Bytes
  import opened Packets

  datatype StreamError = EndOfStream | PacketTooLarge

  /** The stream socket: `incoming` is what the peer has written and we have not read,
      `outgoing` is what we have written. */
  class StreamConn {
    var incoming: seq<Byte>
    var outgoing: seq<Byte>

    constructor (incoming: seq<Byte>)
      ensures this.incoming == incoming && outgoing == []
    {
      this.incoming, outgoing := incoming, [];
    }

    method ReadFull(n: nat) returns (r: Option<seq<Byte>>)
      modifies this`incoming
      ensures |old(incoming)| < n ==> r == None && incoming == []
      ensures |old(incoming)| >= n ==> r == Some(old(incoming)[..n]) && incoming == old(incoming)[n..]
    {
      if |incoming| < n {
        incoming := [];
        return None;
      }
      r := Some(incoming[..n]);
      incoming := incoming[n..];
    }

    method ReadRawPacket() returns (r: Result<seq<Byte>, StreamError>)
      modifies this`incoming
      ensures FirstFrame(old(incoming)).None? ==> r == Err(EndOfStream) && incoming == []
      ensures FirstFrame(old(incoming)).Some? ==>
                && r == Ok(FirstFrame(old(incoming)).value)
                && Frame(r.value) + incoming == old(incoming)
    {
      ghost var s := incoming;
      var lenbuf := ReadFull(2);
      if lenbuf.None? {
        return Err(EndOfStream);
      }
      var length := GetUint16(lenbuf.value);
      assert incoming == s[2..] && length == GetUint16(s[..2]);
      var buf := ReadFull(length);
      if buf.None? {
        return Err(EndOfStream);
      }
      assert buf.value == s[2..2 + length];
      FrameOfFirst(s);
      return Ok(buf.value);
    }

    method WriteRawPacket(pkt: seq<Byte>) returns (r: Result<(), StreamError>)
      modifies this`outgoing
      ensures |pkt| > MAX_UINT16 ==> r == Err(PacketTooLarge) && outgoing == old(outgoing)
      ensures |pkt| <= MAX_UINT16 ==> r == Ok(()) && outgoing == old(outgoing) + Frame(pkt)
    {
      if |pkt| > MAX_UINT16 {
        return Err(PacketTooLarge);
      }
      var framed := PutUint16(|pkt|) + pkt;
      outgoing := outgoing + framed;
      return Ok(());
    }
  }

  function PutUint16(v: nat): (b: seq<Byte>)
    requires v <= MAX_UINT16
    ensures |b| == 2
  {
    [v / 256, v % 256]
  }

  function GetUint16(b: seq<Byte>): nat
    requires |b| == 2
  {
    b[0] as int * 256 + b[1] as int
  }

  function Frame(pkt: seq<Byte>): (b: seq<Byte>)
    requires |pkt| <= MAX_UINT16
    ensures |b| == 2 + |pkt|
  {
    PutUint16(|pkt|) + pkt
  }

  /** The length comes first, high byte before low byte. */
  lemma FrameIs(pkt: seq<Byte>)
    requires |pkt| <= 65_535
    ensures Frame(pkt)[0] == |pkt| / 256 && Frame(pkt)[1] == |pkt| % 256 && Frame(pkt)[2..] == pkt
  {}

  /** The first complete frame of a stream, if there is one. */
  function FirstFrame(s: seq<Byte>): (r: Option<seq<Byte>>)
    ensures r.Some? ==> |r.value| <= MAX_UINT16 && |s| >= 2 + |r.value|
  {
    if |s| < 2 then None
    else
      var n := GetUint16(s[..2]);
      if |s| < 2 + n then None else Some(s[2..2 + n])
  }

  lemma FrameOfFirst(s: seq<Byte>)
    requires FirstFrame(s).Some?
    ensures var f := FirstFrame(s).value; s == Frame(f) + s[2 + |f|..]
  {
    var f := FirstFrame(s).value;
    assert PutUint16(|f|) == s[..2];
    assert s == s[..2] + f + s[2 + |f|..];
  }

  lemma FirstOfFrame(pkt: seq<Byte>, rest: seq<Byte>)
    requires |pkt| <= MAX_UINT16
    ensures FirstFrame(Frame(pkt) + rest) == Some(pkt)
    ensures (Frame(pkt) + rest)[2 + |pkt|..] == rest
  {
    var s := Frame(pkt) + rest;
    assert s[..2] == PutUint16(|pkt|);
    assert s[2..2 + |pkt|] == pkt;
  }

  ghost predicate Framable(pkts: seq<seq<Byte>>) {
    forall i :: 0 <= i < |pkts| ==> |pkts[i]| <= MAX_UINT16
  }

  /** Everything a sender that writes `pkts` puts on the stream. */
  ghost function Frames(pkts: seq<seq<Byte>>): seq<Byte>
    requires Framable(pkts)
  {
    if pkts == [] then [] else Frame(pkts[0]) + Frames(pkts[1..])
  }

  /** Everything a reader gets out of a stream. */
  function Deframe(s: seq<Byte>): seq<seq<Byte>>
    decreases |s|
  {
    var f := FirstFrame(s);
    if f.None? then [] else [f.value] + Deframe(s[2 + |f.value|..])
  }

  /** The incomplete frame the reader is left with. */
  function Leftover(s: seq<Byte>): seq<Byte>
    decreases |s|
  {
    var f := FirstFrame(s);
    if f.None? then s else Leftover(s[2 + |f.value|..])
  }

  /** Whatever was framed is read back, packet for packet, and a trailing incomplete frame stays behind. */
  lemma {:induction false} DeframeFrames(pkts: seq<seq<Byte>>, tail: seq<Byte>)
    requires Framable(pkts)
    requires FirstFrame(tail) == None
    ensures Deframe(Frames(pkts) + tail) == pkts
    ensures Leftover(Frames(pkts) + tail) == tail
  {
    var s := Frames(pkts) + tail;
    if pkts == [] {
      assert s == tail;
    } else {
      var rest := Frames(pkts[1..]) + tail;
      assert s == Frame(pkts[0]) + rest;
      FirstOfFrame(pkts[0], rest);
      DeframeFrames(pkts[1..], tail);
    }
  }

  lemma FramesCons(f: seq<Byte>, fs: seq<seq<Byte>>)
    requires |f| <= MAX_UINT16 && Framable(fs)
    ensures Framable([f] + fs) && Frames([f] + fs) == Frame(f) + Frames(fs)
  {
    assert ([f] + fs)[1..] == fs;
  }

  lemma Reassemble(s: seq<Byte>, head: seq<Byte>, rest: seq<Byte>, body: seq<Byte>, left: seq<Byte>)
    requires s == head + rest && body + left == rest
    ensures (head + body) + left == s
  {
  }

  /** Conversely every stream is the frames read from it followed by an incomplete frame:
      no byte is lost, and two streams that read the same are the same. */
  lemma {:induction false} FramesDeframe(s: seq<Byte>)
    ensures Framable(Deframe(s))
    ensures Frames(Deframe(s)) + Leftover(s) == s
    ensures FirstFrame(Leftover(s)) == None
    decreases |s|
  {
    var first := FirstFrame(s);
    if first.Some? {
      hide FirstFrame, Frame;
      var f := first.value;
      var rest := s[2 + |f|..];
      FrameOfFirst(s);
      FramesDeframe(rest);
      FramesCons(f, Deframe(rest));
      Reassemble(s, Frame(f), rest, Frames(Deframe(rest)), Leftover(rest));
    }
  }

  // ------------------------------------------------------- packets over the stream

  /** The packet is a well-formed control or ACK packet that fits a frame. */
  predicate Sendable(p: Packet) {
    && IsControlOrAck(p.opcode)
    && WellFormed(p)
    && Marshal(p).Ok?
    && |Marshal(p).value| <= MAX_UINT16
  }

  ghost predicate AllSendable(ps: seq<Packet>) {
    forall i :: 0 <= i < |ps| ==> Sendable(ps[i])
  }

  ghost function MarshalAll(ps: seq<Packet>): (r: seq<seq<Byte>>)
    requires AllSendable(ps)
    ensures Framable(r)
  {
    if ps == [] then [] else [Marshal(ps[0]).value] + MarshalAll(ps[1..])
  }

  function UnmarshalAll(bs: seq<seq<Byte>>): seq<Result<Packet, PacketError>> {
    if bs == [] then [] else [Unmarshal(bs[0])] + UnmarshalAll(bs[1..])
  }

  function AllOk(ps: seq<Packet>): seq<Result<Packet, PacketError>> {
    seq(|ps|, i requires 0 <= i < |ps| => Ok(ps[i]))
  }

  lemma {:induction false} UnmarshalMarshalAll(ps: seq<Packet>)
    requires AllSendable(ps)
    ensures UnmarshalAll(MarshalAll(ps)) == AllOk(ps)
  {
    if ps != [] {
      var buf := Marshal(ps[0]).value;
      RoundTripIffWellFormed(ps[0], buf);
      UnmarshalMarshalAll(ps[1..]);
      var bs := MarshalAll(ps);
      assert bs[0] == buf && bs[1..] == MarshalAll(ps[1..]);
      assert AllOk(ps) == [Ok(ps[0])] + AllOk(ps[1..]);
    }
  }

  /** A list of well-formed control and ACK packets written one after the other to the stream
      is read and parsed back as the same list. */
  lemma StreamRoundTrip(ps: seq<Packet>)
    requires AllSendable(ps)
    ensures UnmarshalAll(Deframe(Frames(MarshalAll(ps)))) == AllOk(ps)
  {
    var bs := MarshalAll(ps);
    DeframeFrames(bs, []);
    assert Frames(bs) + [] == Frames(bs);
    UnmarshalMarshalAll(ps);
  }
}
