/**
 Relay packets and their two transports: the 8-byte header, the length-prefixed TCP frames,
 and the path of a packet from one adapter through the relay to another.
 */
module RelayWire {
  import opened Bytes

  const HEADER_SIZE := 8
  const MAX_PACKET := 1400
  const MAX_PAYLOAD := 1392
  const RECEIVE_BUFFER := 1500
  const BROADCAST: u32 := 0xFFFF_FFFF

  datatype Packet = Packet(sender: u32, dest: u32, payload: seq<byte>)

  // ---------------------------------------------------------------- the packet

  function PacketBytes(p: Packet): (b: seq<byte>)
    ensures |b| == HEADER_SIZE + |p.payload|
  {
    BigEndian32(p.sender) + BigEndian32(p.dest) + p.payload
  }

  function DecodePacket(b: seq<byte>): Option<Packet> {
    if |b| < HEADER_SIZE then None
    else Some(Packet(FromBigEndian32(b[0..4]), FromBigEndian32(b[4..8]), b[8..]))
  }

  /** Decoding inverts encoding, and nothing shorter than a header decodes. */
  lemma PacketRoundTrip(p: Packet)
    ensures DecodePacket(PacketBytes(p)) == Some(p)
  {
    var b := PacketBytes(p);
    assert b[0..4] == BigEndian32(p.sender) && b[4..8] == BigEndian32(p.dest) && b[8..] == p.payload;
    BigEndian32RoundTrip(p.sender);
    BigEndian32RoundTrip(p.dest);
  }

  /** On the wire a packet is the sender and the destination, each highest byte first, and the payload. */
  lemma HeaderBytes(p: Packet)
    ensures PacketBytes(p) ==
      [p.sender / 16777216, p.sender / 65536 % 256, p.sender / 256 % 256, p.sender % 256,
       p.dest / 16777216, p.dest / 65536 % 256, p.dest / 256 % 256, p.dest % 256] + p.payload
  {
    BigEndian32Bytes(p.sender);
    BigEndian32Bytes(p.dest);
  }

  method EncodeRelayPacket(sender: u32, dest: u32, payload: seq<byte>) returns (r: Option<seq<byte>>)
    ensures r.Some? <==> |payload| <= 1392
    ensures r.Some? ==> DecodePacket(r.value) == Some(Packet(sender, dest, payload))
  {
    if HEADER_SIZE + |payload| > MAX_PACKET {
      return None;
    }
    PacketRoundTrip(Packet(sender, dest, payload));
    r := Some(BigEndian32(sender) + BigEndian32(dest) + payload);
  }

  // ---------------------------------------------------------------- frames

  function FrameBytes(b: seq<byte>): (f: seq<byte>)
    requires |b| < 0x1_0000
  {
    BigEndian16(|b|) + b
  }

  datatype Framed = Frame(bytes: seq<byte>, rest: seq<byte>) | Refused

  /** Which declared lengths a frame reader takes: the relay 1..1400, the adapter whatever fits its buffer. */
  datatype Side = Relay | Adapter

  predicate Accepts(side: Side, n: nat) {
    if side == Relay then 0 < n <= MAX_PACKET else n <= RECEIVE_BUFFER
  }

  function DecodeFrame(side: Side, s: seq<byte>): (r: Framed)
    ensures r.Frame? ==> |r.rest| < |s| && Accepts(side, |r.bytes|)
  {
    if |s| < 2 then Refused
    else
      var n := FromBigEndian16(s[..2]);
      if !Accepts(side, n) || |s| - 2 < n then Refused else Frame(s[2..2 + n], s[2 + n..])
  }

  /** A frame is read back exactly if the relay finds 1 to 1400 bytes in it, or the adapter at most 1500. */
  lemma FrameRoundTrip(side: Side, b: seq<byte>, rest: seq<byte>)
    requires |b| < 0x1_0000
    ensures FrameBytes(b) == [|b| / 256, |b| % 256] + b
    ensures DecodeFrame(side, FrameBytes(b) + rest) ==
            if |b| <= (if side == Relay then 1400 else 1500) && (side == Relay ==> b != []) then Frame(b, rest) else Refused
  {
    BigEndian16Bytes(|b|);
    var s := FrameBytes(b) + rest;
    BigEndian16RoundTrip(|b|);
    assert s[..2] == BigEndian16(|b|);
    assert s[2..2 + |b|] == b && s[2 + |b|..] == rest;
  }

  function FrameAll(bs: seq<seq<byte>>): seq<byte>
    requires forall i :: 0 <= i < |bs| ==> |bs[i]| < 0x1_0000
  {
    if bs == [] then [] else FrameBytes(bs[0]) + FrameAll(bs[1..])
  }

  /** The receive loop: frames until one is refused, and the bytes then left. */
  function DecodeFrames(side: Side, s: seq<byte>): (seq<seq<byte>>, seq<byte>)
    decreases |s|
  {
    var first := DecodeFrame(side, s);
    if first.Refused? then ([], s)
    else
      var (more, left) := DecodeFrames(side, first.rest);
      ([first.bytes] + more, left)
  }

  /** Concatenated frames of accepted sizes come out of either reader as the same sequence. */
  lemma {:induction false} FramesRoundTrip(side: Side, bs: seq<seq<byte>>)
    requires forall i :: 0 <= i < |bs| ==> |bs[i]| <= (if side == Relay then 1400 else 1500) && (side == Relay ==> bs[i] != [])
    ensures DecodeFrames(side, FrameAll(bs)) == (bs, [])
  {
    if bs != [] {
      FrameRoundTrip(side, bs[0], FrameAll(bs[1..]));
      FramesRoundTrip(side, bs[1..]);
      assert bs == [bs[0]] + bs[1..];
    }
  }

  /** The relay's frame writer fills a pooled buffer that holds at most the largest packet and its prefix. */
  method WriteTcpFrame(pooled: array<byte>, data: seq<byte>) returns (written: seq<byte>)
    requires pooled.Length == 2 + MAX_PACKET && |data| <= MAX_PACKET
    modifies pooled
    ensures written == FrameBytes(data)
  {
    var prefix := BigEndian16(|data|);
    forall i | 0 <= i < 2 {
      pooled[i] := prefix[i];
    }
    forall i | 0 <= i < |data| {
      pooled[2 + i] := data[i];
    }
    written := pooled[..2 + |data|];
  }

  /** A stream read in place: `pos` advances over bytes that arrive in order. */
  class Stream {
    const data: seq<byte>
    var pos: nat

    constructor (data: seq<byte>)
      ensures this.data == data && pos == 0
    {
      this.data := data;
      pos := 0;
    }

    /** Reads one frame into the front of `buf` and returns its length, or None when the connection is given up. */
    method ReadFrame(side: Side, buf: array<byte>) returns (n: Option<nat>)
      requires pos <= |data| && buf.Length == RECEIVE_BUFFER
      modifies this, buf
      ensures pos <= |data|
      ensures n.Some? <==> DecodeFrame(side, old(data[pos..])).Frame?
      ensures n.Some? ==> n.value <= buf.Length &&
                          DecodeFrame(side, old(data[pos..])) == Frame(buf[..n.value], data[pos..])
    {
      if |data| - pos < 2 {
        return None;
      }
      ghost var s := data[pos..];
      var len := FromBigEndian16(data[pos..pos + 2]);
      assert s[..2] == data[pos..pos + 2];
      if !Accepts(side, len) || |data| - pos - 2 < len {
        return None;
      }
      var from := pos + 2;
      forall i | 0 <= i < len {
        buf[i] := data[from + i];
      }
      assert buf[..len] == s[2..2 + len];
      pos := from + len;
      assert data[pos..] == s[2 + len..];
      n := Some(len);
    }
  }

  // ---------------------------------------------------------------- the adapter's send path

  datatype Datagram = Udp(bytes: seq<byte>) | Tcp(bytes: seq<byte>)

  function OnWire(tcp: bool, b: seq<byte>): Datagram
    requires |b| < 0x1_0000
  {
    if tcp then Tcp(FrameBytes(b)) else Udp(b)
  }

  /** The adapter's end of the relay connection: two buffers reused for every packet. */
  class RelayConnection {
    const localId: u32
    const sendBuf: array<byte>
    const tcpFrameBuf: array<byte>
    var useTcp: bool
    var sent: seq<Datagram>
    var pktsSent: nat
    var bytesSent: nat

    ghost predicate Valid()
      reads this
    {
      sendBuf.Length == RECEIVE_BUFFER && tcpFrameBuf.Length == 2 + MAX_PACKET && sendBuf != tcpFrameBuf
    }

    constructor (localId: u32)
      ensures Valid() && this.localId == localId && !useTcp && sent == [] && pktsSent == bytesSent == 0
      ensures fresh(sendBuf) && fresh(tcpFrameBuf)
    {
      this.localId := localId;
      sendBuf := new byte[RECEIVE_BUFFER];
      tcpFrameBuf := new byte[2 + MAX_PACKET];
      useTcp, sent, pktsSent, bytesSent := false, [], 0, 0;
    }

    /** Moves to TCP for good if the dial succeeds. */
    method SwitchToTcp(dials: bool) returns (ok: bool)
      requires Valid()
      modifies this`useTcp
      ensures Valid() && ok == dials && useTcp == (old(useTcp) || dials)
    {
      if !dials {
        return false;
      }
      useTcp := true;
      ok := true;
    }

    /** Puts the length prefix and the first `n` bytes of the send buffer into the frame buffer. */
    method WriteTcpFrame(n: nat)
      requires Valid() && n <= MAX_PACKET
      modifies this`sent, tcpFrameBuf
      ensures sendBuf[..] == old(sendBuf[..])
      ensures sent == old(sent) + [Tcp(FrameBytes(sendBuf[..n]))]
    {
      var prefix := BigEndian16(n);
      forall i | 0 <= i < 2 {
        tcpFrameBuf[i] := prefix[i];
      }
      forall i | 0 <= i < n {
        tcpFrameBuf[2 + i] := sendBuf[i];
      }
      assert tcpFrameBuf[..2 + n] == FrameBytes(sendBuf[..n]);
      sent := sent + [Tcp(tcpFrameBuf[..2 + n])];
    }

    /** Writes the relay header into the send buffer, in front of the payload. */
    method Assemble(dest: u32, payload: seq<byte>)
      requires Valid() && |payload| <= MAX_PAYLOAD
      modifies sendBuf
      ensures sendBuf[..HEADER_SIZE + |payload|] == PacketBytes(Packet(localId, dest, payload))
    {
      var s, d := BigEndian32(localId), BigEndian32(dest);
      forall i | 0 <= i < 4 {
        sendBuf[i] := s[i];
      }
      forall i | 0 <= i < 4 {
        sendBuf[4 + i] := d[i];
      }
      forall i | 0 <= i < |payload| {
        sendBuf[HEADER_SIZE + i] := payload[i];
      }
      ghost var b := PacketBytes(Packet(localId, dest, payload));
      forall i | 0 <= i < |b|
        ensures sendBuf[i] == b[i]
      {
        if 4 <= i < 8 {
          assert sendBuf[4 + (i - 4)] == d[i - 4];
        } else if 8 <= i {
          assert sendBuf[8 + (i - 8)] == payload[i - 8];
        }
      }
    }

    /** Sends unless the payload is too large; `socket` tells whether the write succeeds, and only then is it counted. */
    method Send(dest: u32, payload: seq<byte>, socket: bool) returns (ok: bool)
      requires Valid()
      modifies this`sent, this`pktsSent, this`bytesSent, sendBuf, tcpFrameBuf
      ensures Valid()
      ensures ok <==> |payload| <= MAX_PAYLOAD && socket
      ensures sent == old(sent) +
              if |payload| <= MAX_PAYLOAD then [OnWire(useTcp, PacketBytes(Packet(localId, dest, payload)))] else []
      ensures pktsSent == old(pktsSent) + if ok then 1 else 0
      ensures bytesSent == old(bytesSent) + if ok then HEADER_SIZE + |payload| else 0
    {
      var total := HEADER_SIZE + |payload|;
      if total > MAX_PACKET {
        return false;
      }
      Assemble(dest, payload);
      if useTcp {
        WriteTcpFrame(total);
      } else {
        sent := sent + [Udp(sendBuf[..total])];
      }
      ok := socket;
      if ok {
        pktsSent, bytesSent := pktsSent + 1, bytesSent + total;
      }
    }
  }

  // ---------------------------------------------------------------- through the relay

  /** What of a datagram fits the receive buffer; the rest is lost. */
  function Cut(b: seq<byte>): seq<byte> {
    if |b| > RECEIVE_BUFFER then b[..RECEIVE_BUFFER] else b
  }

  /** The bytes the relay reads off a datagram, or off the first frame of a connection. */
  function RelayReads(d: Datagram): Option<seq<byte>> {
    match d
    case Udp(b) => Some(Cut(b))
    case Tcp(s) =>
      var f := DecodeFrame(Relay, s);
      if f.Frame? then Some(f.bytes) else None
  }

  datatype Dispatch = ToPeer(sender: u32, payload: seq<byte>) | Pong | Ignored

  /** What an adapter does with the bytes of one received relay packet. */
  function Dispatched(localId: u32, b: seq<byte>): Dispatch {
    var p := DecodePacket(b);
    if p.None? then Ignored
    else if p.value.sender == localId then Pong
    else ToPeer(p.value.sender, p.value.payload)
  }

  function AdapterReceives(localId: u32, d: Datagram): Dispatch {
    match d
    case Udp(b) => Dispatched(localId, Cut(b))
    case Tcp(s) =>
      var f := DecodeFrame(Adapter, s);
      if f.Frame? then Dispatched(localId, f.bytes) else Ignored
  }

  /** Whatever its transport, the relay reads what an adapter sends, and it decodes to what was meant. */
  lemma SentIsRead(p: Packet, tcp: bool)
    requires |p.payload| <= MAX_PAYLOAD
    ensures RelayReads(OnWire(tcp, PacketBytes(p))) == Some(PacketBytes(p))
    ensures DecodePacket(PacketBytes(p)) == Some(p)
  {
    PacketRoundTrip(p);
    FrameRoundTrip(Relay, PacketBytes(p), []);
    assert FrameBytes(PacketBytes(p)) + [] == FrameBytes(PacketBytes(p));
  }

  /** Whatever its transport, an adapter dispatches what the relay writes. */
  lemma WrittenIsDispatched(localId: u32, tcp: bool, b: seq<byte>)
    requires |b| <= RECEIVE_BUFFER
    ensures AdapterReceives(localId, OnWire(tcp, b)) == Dispatched(localId, b)
  {
    FrameRoundTrip(Adapter, b, []);
    assert FrameBytes(b) + [] == FrameBytes(b);
  }
}
