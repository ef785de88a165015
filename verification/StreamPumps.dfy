/** The stream reader, the stream writer and both stream pumps, as they work on buffers and streams. */
module StreamPumps {
  import opened Wrappers
  import F = Framing
  import T = Tunnel
  import P = Pacer
  import opened EgressPacers

  // What one read returns out of `available` bytes into `room` bytes of buffer.
  function ChunkSize(available: nat, room: nat, chunks: seq<nat>): nat {
    var n := if available < room then available else room;
    if chunks != [] && chunks[0] < n then chunks[0] else n
  }

  // A read may return any number of bytes there are and there is room for, none included.
  lemma AnyChunkPossible(available: nat, room: nat, n: nat)
    requires n <= available && n <= room
    ensures ChunkSize(available, room, [n]) == n
  {
  }

  datatype ChunkRead = Chunk(n: nat) | NoMoreBytes | ConnectionError

  /**
   The receiving half of a stream: the bytes still to come and how they end. `chunks` lists the
   sizes the next reads return at most, zero included; when it runs out, reads return all they can.
   */
  class RecvStream {
    var data: seq<F.byte>
    var chunks: seq<nat>
    const ending: F.Ending

    constructor (data: seq<F.byte>, chunks: seq<nat>, ending: F.Ending)
      ensures this.data == data && this.ending == ending
    {
      this.data, this.chunks, this.ending := data, chunks, ending;
    }

    method Read(buf: array<F.byte>, from: nat, to: nat) returns (r: ChunkRead)
      requires from < to <= buf.Length
      modifies this, buf
      ensures match r
              case Chunk(n) =>
                && n == ChunkSize(|old(data)|, to - from, old(chunks))
                && chunks == old(chunks)[if old(chunks) == [] then 0 else 1..]
                && buf[..] == old(buf[..from]) + old(data)[..n] + old(buf[from + n..])
                && data == old(data)[n..] && old(data) != []
              case NoMoreBytes => old(data) == [] && ending == F.Finished && data == [] && buf[..] == old(buf[..])
              case ConnectionError =>
                old(data) == [] && ending == F.ConnectionLost && data == [] && buf[..] == old(buf[..])
    {
      if data == [] {
        return if ending == F.Finished then NoMoreBytes else ConnectionError;
      }
      var n := ChunkSize(|data|, to - from, chunks);
      if chunks != [] {
        chunks := chunks[1..];
      }
      forall i | 0 <= i < n {
        buf[from + i] := data[i];
      }
      data := data[n..];
      r := Chunk(n);
    }
  }

  /** Fills buf[..n], or says why not: the result depends on the bytes and their end, not on the chunks. */
  method ReadExactOrEof(stream: RecvStream, buf: array<F.byte>, n: nat) returns (r: F.Exact)
    requires n <= buf.Length
    modifies stream, buf
    ensures r == F.ReadExact(old(stream.data), stream.ending, n)
    ensures r == F.Filled ==> buf[..n] == old(stream.data)[..n] && stream.data == old(stream.data)[n..]
    ensures r != F.Filled ==> stream.data == []
    ensures buf[n..] == old(buf[n..])
  {
    var offset := 0;
    while offset < n
      invariant offset <= n && offset <= |old(stream.data)|
      invariant buf[..offset] == old(stream.data)[..offset] && buf[n..] == old(buf[n..])
      invariant stream.data == old(stream.data)[offset..]
      decreases |stream.chunks|, n - offset
    {
      ghost var before := buf[..];
      var chunk := stream.Read(buf, offset, n);
      match chunk {
        case Chunk(m) =>
          assert buf[..offset + m] == before[..offset] + old(stream.data)[offset..][..m];
          assert buf[n..] == before[n..];
          offset := offset + m;
        case NoMoreBytes =>
          return if offset == 0 then F.AtEof else F.Failed(F.MidFrame);
        case ConnectionError =>
          return F.Failed(F.Lost);
      }
    }
    r := F.Filled;
  }

  /** Ok(None) at the end of the stream, Ok(Some(n)) with the packet in buf[..n]. */
  method ReadStreamPacket(stream: RecvStream, buf: array<F.byte>) returns (r: Result<Option<nat>, F.ReadError>)
    modifies stream, buf
    ensures match F.ReadPacket(old(stream.data), stream.ending, buf.Length)
            case EndOfStream => r == Ok(None)
            case ReadFailed(e) => r == Err(e)
            case Frame(p, rest) =>
              r == Ok(Some(|p|)) && |p| <= buf.Length && buf[..|p|] == p && stream.data == rest
  {
    var header := new F.byte[F.HEADER_BYTES];
    var h := ReadExactOrEof(stream, header, F.HEADER_BYTES);
    match h {
      case AtEof => return Ok(None);
      case Failed(e) => return Err(e);
      case Filled =>
    }
    assert header[0] == header[..F.HEADER_BYTES][0] && header[1] == header[..F.HEADER_BYTES][1];
    var packetLen := F.Length(header[0], header[1]);
    if packetLen == 0 {
      return Ok(Some(0));
    }
    if packetLen > buf.Length {
      return Err(F.TooLarge(packetLen));
    }
    var body := ReadExactOrEof(stream, buf, packetLen);
    match body {
      case Filled => r := Ok(Some(packetLen));
      case AtEof => r := Err(F.MidPacket);
      case Failed(e) => r := Err(e);
    }
  }

  /** A TUN device that takes `room` more packets and then fails, or writes less than it was given. */
  class TunDevice {
    var written: seq<F.Packet>
    var room: nat
    const shortWrite: Option<nat>

    constructor (room: nat, shortWrite: Option<nat>)
      ensures written == [] && this.room == room
    {
      written, this.room, this.shortWrite := [], room, shortWrite;
    }

    method Send(packet: F.Packet) returns (n: Option<nat>)
      requires packet != []
      modifies this
      ensures if old(room) > 0
              then n == Some(|packet|) && written == old(written) + [packet] && room == old(room) - 1
              else n != Some(|packet|) && written == old(written) && room == 0
    {
      if room > 0 {
        written, room := written + [packet], room - 1;
        return Some(|packet|);
      }
      n := if shortWrite.Some? && shortWrite.value < |packet| then shortWrite else None;
    }
  }

  // The same delivery after packets the device has already.
  function Onto(written: seq<F.Packet>, d: T.Delivered): T.Delivered {
    d.(written := written + d.written)
  }

  lemma DeliverStep(written: seq<F.Packet>, data: seq<F.byte>, ending: F.Ending, cap: nat, room: nat)
    ensures var d := Onto(written, T.Deliver(data, ending, cap, room));
            match F.ReadPacket(data, ending, cap)
            case EndOfStream => d == T.Delivered(T.StreamEnded, written)
            case ReadFailed(e) => d == T.Delivered(T.StreamFailed(e), written)
            case Frame(p, rest) =>
              if p == [] then d == Onto(written, T.Deliver(rest, ending, cap, room))
              else if room == 0 then d == T.Delivered(T.DeviceFailed, written)
              else d == Onto(written + [p], T.Deliver(rest, ending, cap, room - 1))
  {
  }

  /** Writes every packet of the stream to the device, in order, until the stream or the device stops. */
  method PumpStreamToTun(stream: RecvStream, maxPacketBytes: nat, device: TunDevice) returns (stop: T.DeliverStop)
    modifies stream, device
    ensures var d := T.Deliver(old(stream.data), stream.ending, maxPacketBytes, old(device.room));
            stop == d.stop && device.written == old(device.written) + d.written
  {
    var buf := new F.byte[maxPacketBytes];
    ghost var goal := Onto(device.written, T.Deliver(stream.data, stream.ending, maxPacketBytes, device.room));
    while true
      invariant fresh(buf)
      invariant Onto(device.written, T.Deliver(stream.data, stream.ending, maxPacketBytes, device.room)) == goal
      decreases |stream.data|
    {
      DeliverStep(device.written, stream.data, stream.ending, maxPacketBytes, device.room);
      var r := ReadStreamPacket(stream, buf);
      match r {
        case Err(e) =>
          return T.StreamFailed(e);
        case Ok(None) =>
          return T.StreamEnded;
        case Ok(Some(packetLen)) =>
          if packetLen == 0 {
            continue;
          }
          var packet := buf[..packetLen];
          var written := device.Send(packet);
          if written != Some(packetLen) {
            return T.DeviceFailed;
          }
      }
    }
  }

  /** The sending half of a stream, whose connection is lost after `room` more bytes. */
  class SendStream {
    var sent: seq<F.byte>
    var room: nat

    constructor (room: nat)
      ensures sent == [] && this.room == room
    {
      sent, this.room := [], room;
    }

    // One write, of which the transport takes at most `most` bytes.
    method Write(b: seq<F.byte>, most: nat) returns (n: nat)
      modifies this
      ensures n <= |b| && n <= most && n <= old(room)
      ensures n == |b| || n == most || n == old(room)
      ensures sent == old(sent) + b[..n] && room == old(room) - n
    {
      n := if most < |b| then most else |b|;
      n := if room < n then room else n;
      sent, room := sent + b[..n], room - n;
    }

    method WriteAllChunks(a: seq<F.byte>, b: seq<F.byte>) returns (ok: bool)
      modifies this
      ensures ok <==> |a + b| <= old(room)
      ensures sent == old(sent) + if ok then a + b else (a + b)[..old(room)]
      ensures room == if ok then old(room) - |a + b| else 0
    {
      var all := a + b;
      ok := |all| <= room;
      if ok {
        sent, room := sent + all, room - |all|;
      } else {
        sent, room := sent + all[..room], 0;
      }
    }
  }

  datatype WriteError = PacketTooLarge | HeaderTooSmall | WriteLost

  method WriteStreamPacket(stream: SendStream, frameHeader: array<F.byte>, packet: F.Packet)
    returns (r: Result<(), WriteError>)
    modifies stream, frameHeader
    ensures if |packet| > 65535 then r == Err(PacketTooLarge) && stream.sent == old(stream.sent)
            else if frameHeader.Length < F.HEADER_BYTES then r == Err(HeaderTooSmall) && stream.sent == old(stream.sent)
            else
              var frame := F.Encode(packet);
              if |frame| <= old(stream.room)
              then r == Ok(()) && stream.sent == old(stream.sent) + frame && stream.room == old(stream.room) - |frame|
              else
                && r == Err(WriteLost) && stream.room == 0
                && stream.sent == old(stream.sent) + frame[..old(stream.room)]
  {
    var packetLen := |packet|;
    if packetLen > F.MAX_FRAME {
      return Err(PacketTooLarge);
    }
    if frameHeader.Length < F.HEADER_BYTES {
      return Err(HeaderTooSmall);
    }
    var len := F.Header(packetLen);
    frameHeader[0], frameHeader[1] := len[0], len[1];
    assert frameHeader[..F.HEADER_BYTES] == len;
    var ok := stream.WriteAllChunks(frameHeader[..F.HEADER_BYTES], packet);
    r := if ok then Ok(()) else Err(WriteLost);
  }

  // The same sending behind bytes that are on the wire and packets that are paced already.
  function Behind(wire: seq<F.byte>, paced: seq<nat>, s: T.Sent): T.Sent {
    s.(wire := wire + s.wire, paced := paced + s.paced)
  }

  lemma FrameStep(wire: seq<F.byte>, paced: seq<nat>, p: F.Packet, rest: seq<F.Packet>, room: nat)
    requires p != []
    ensures var s := Behind(wire, paced, T.SendAll([p] + rest, room));
            if |p| > F.MAX_FRAME then s == T.Sent(T.PacketTooLarge, wire, paced)
            else if |F.Encode(p)| > room then s == T.Sent(T.SendLost, wire + F.Encode(p)[..room], paced)
            else s == Behind(wire + F.Encode(p), paced + [|p|], T.SendAll(rest, room - |F.Encode(p)|))
  {
    assert ([p] + rest)[1..] == rest;
  }

  /** Sends every non-empty packet as one frame and paces it. */
  method PumpTunToStream(input: seq<F.Packet>, stats: seq<P.PathStats>, stream: SendStream, pacer: EgressPacer)
    returns (stop: T.SendStop)
    requires |stats| == |input| && pacer.Valid()
    modifies stream, pacer, pacer.clock
    ensures pacer.Valid() && pacer.unconnected == old(pacer.unconnected)
    ensures var s := T.SendAll(input, old(stream.room));
            && stop == s.stop && stream.sent == old(stream.sent) + s.wire
            && pacer.recorded == old(pacer.recorded) + s.paced
  {
    var frameHeader := new F.byte[F.HEADER_BYTES];
    var pending, polled := input, stats;
    ghost var goal := Behind(stream.sent, pacer.recorded, T.SendAll(input, stream.room));
    while pending != []
      invariant pacer.unconnected == old(pacer.unconnected)
      invariant |polled| == |pending| && pacer.Valid() && fresh(frameHeader) && frameHeader.Length == F.HEADER_BYTES
      invariant Behind(stream.sent, pacer.recorded, T.SendAll(pending, stream.room)) == goal
      decreases |pending|
    {
      var packet, now := pending[0], polled[0];
      assert pending == [packet] + pending[1..];
      pending, polled := pending[1..], polled[1..];
      if packet == [] {
        continue;
      }
      FrameStep(stream.sent, pacer.recorded, packet, pending, stream.room);
      var r := WriteStreamPacket(stream, frameHeader, packet);
      match r {
        case Ok(_) =>
        case Err(WriteLost) => return T.SendLost;
        case Err(_) => return T.PacketTooLarge;
      }
      pacer.RecordAndWait(|packet|, Some(now));
    }
    stop := T.Sending;
  }
}
