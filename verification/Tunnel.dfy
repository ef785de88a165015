/** The stream tunnel, from the packets one TUN device hands over to the packets the other one takes. */
module Tunnel {
  import opened Framing

  const MIN_MTU := 576
  const MAX_MTU := 1400
  const BUFFER_SLACK := 64  // both pumps use buffers of mtu + 64 bytes

  function NonEmpty(packets: seq<Packet>): seq<Packet> {
    if packets == [] then []
    else (if packets[0] == [] then [] else [packets[0]]) + NonEmpty(packets[1..])
  }

  // ----- Sending

  datatype SendStop = Sending | PacketTooLarge | SendLost

  // Why the sender stopped, what it put on the wire, and the packet sizes it gave to the pacer.
  datatype Sent = Sent(stop: SendStop, wire: seq<byte>, paced: seq<nat>)

  // The sending pump on a stream that accepts `room` more bytes before its connection is lost.
  function SendAll(input: seq<Packet>, room: nat): Sent
    decreases |input|
  {
    if input == [] then Sent(Sending, [], [])
    else if input[0] == [] then SendAll(input[1..], room)
    else if |input[0]| > MAX_FRAME then Sent(PacketTooLarge, [], [])
    else
      var frame := Encode(input[0]);
      if |frame| > room then Sent(SendLost, frame[..room], [])
      else
        var rest := SendAll(input[1..], room - |frame|);
        rest.(wire := frame + rest.wire, paced := [|input[0]|] + rest.paced)
  }

  predicate NoneEmpty(packets: seq<Packet>) {
    forall i :: 0 <= i < |packets| ==> packets[i] != []
  }

  lemma {:induction false} NonEmptyKeeps(packets: seq<Packet>, cap: nat)
    requires AllFit(packets, cap)
    ensures AllFit(NonEmpty(packets), cap)
    ensures NoneEmpty(NonEmpty(packets))
  {
    if packets != [] {
      NonEmptyKeeps(packets[1..], cap);
    }
  }

  function Sizes(packets: seq<Packet>): seq<nat> {
    seq(|packets|, i requires 0 <= i < |packets| => |packets[i]|)
  }

  /**
   What reaches the wire is the encoding of the non-empty packets, cut where the connection was lost, and
   the pacer is given exactly the packets that went out whole.
   */
  lemma {:induction false} WireIsCutEncoding(input: seq<Packet>, room: nat)
    requires AllFit(input, MAX_FRAME)
    ensures AllFit(NonEmpty(input), MAX_FRAME)
    ensures var ne, sent := NonEmpty(input), SendAll(input, room);
            && (if |EncodeAll(ne)| <= room then sent.stop == Sending && sent.wire == EncodeAll(ne)
                else sent.stop == SendLost && sent.wire == EncodeAll(ne)[..room])
            && sent.paced == Sizes(ne[..FramesWithin(ne, room)])
  {
    NonEmptyKeeps(input, MAX_FRAME);
    if input != [] {
      NonEmptyKeeps(input[1..], MAX_FRAME);
      if input[0] == [] {
        assert NonEmpty(input) == NonEmpty(input[1..]);
        WireIsCutEncoding(input[1..], room);
      } else {
        var frame, ne := Encode(input[0]), NonEmpty(input);
        assert ne[0] == input[0] && ne[1..] == NonEmpty(input[1..]);
        if |frame| <= room {
          WireIsCutEncoding(input[1..], room - |frame|);
          SizesWithin(ne, room);
        }
      }
    }
  }

  lemma SizesWithin(ne: seq<Packet>, room: nat)
    requires ne != [] && AllFit(ne, MAX_FRAME) && |Encode(ne[0])| <= room
    ensures Sizes(ne[..FramesWithin(ne, room)])
            == [|ne[0]|] + Sizes(ne[1..][..FramesWithin(ne[1..], room - |Encode(ne[0])|)])
  {
    var m := FramesWithin(ne[1..], room - |Encode(ne[0])|);
    assert ne[..1 + m] == [ne[0]] + ne[1..][..m];
  }

  /** A packet too large for a length prefix stops the sender after the packets before it. */
  lemma {:induction false} OversizedPacketStopsSender(before: seq<Packet>, p: Packet, after: seq<Packet>, room: nat)
    requires AllFit(before, MAX_FRAME) && |p| > 65535
    ensures AllFit(NonEmpty(before), MAX_FRAME)
    ensures |EncodeAll(NonEmpty(before))| <= room ==>
              SendAll(before + [p] + after, room) == SendAll(before, room).(stop := PacketTooLarge)
  {
    NonEmptyKeeps(before, MAX_FRAME);
    var all := before + [p] + after;
    if before == [] {
      assert all[0] == p;
    } else {
      assert all[0] == before[0] && all[1..] == before[1..] + [p] + after;
      var rest := if before[0] == [] || |Encode(before[0])| > room then room else room - |Encode(before[0])|;
      OversizedPacketStopsSender(before[1..], p, after, rest);
      if before[0] != [] {
        assert NonEmpty(before)[0] == before[0] && NonEmpty(before)[1..] == NonEmpty(before[1..]);
      } else {
        assert NonEmpty(before) == NonEmpty(before[1..]);
      }
    }
  }

  // ----- Delivering

  datatype DeliverStop = StreamEnded | StreamFailed(error: ReadError) | DeviceFailed

  datatype Delivered = Delivered(stop: DeliverStop, written: seq<Packet>)

  // The receiving pump in front of a device that takes `room` more packets whole.
  function Deliver(data: seq<byte>, ending: Ending, cap: nat, room: nat): Delivered
    decreases |data|
  {
    match ReadPacket(data, ending, cap)
    case EndOfStream => Delivered(StreamEnded, [])
    case ReadFailed(e) => Delivered(StreamFailed(e), [])
    case Frame(p, rest) =>
      if p == [] then Deliver(rest, ending, cap, room)
      else if room == 0 then Delivered(DeviceFailed, [])
      else
        var d := Deliver(rest, ending, cap, room - 1);
        d.(written := [p] + d.written)
  }

  function StopOf(r: Received): DeliverStop {
    match r
    case Clean(_) => StreamEnded
    case Broken(_, e) => StreamFailed(e)
  }

  // The non-empty packets of a read result, as far as the device takes them.
  function Sift(r: Received, room: nat): Delivered {
    var ne := NonEmpty(r.packets);
    if |ne| <= room then Delivered(StopOf(r), ne) else Delivered(DeviceFailed, ne[..room])
  }

  lemma SiftPrepend(p: Packet, r: Received, room: nat)
    ensures p == [] ==> Sift(Prepend(p, r), room) == Sift(r, room)
    ensures p != [] && room == 0 ==> Sift(Prepend(p, r), room) == Delivered(DeviceFailed, [])
    ensures p != [] && room > 0 ==>
              var d := Sift(r, room - 1); Sift(Prepend(p, r), room) == d.(written := [p] + d.written)
  {
    NonEmptyPrepend(p, r.packets);
    assert [] + NonEmpty(r.packets) == NonEmpty(r.packets);
  }

  /** On any bytes at all, the pump writes the non-empty packets a reader gets, as far as the device takes them. */
  lemma {:induction false} DeliverIsFilter(data: seq<byte>, ending: Ending, cap: nat, room: nat)
    ensures Deliver(data, ending, cap, room) == Sift(ReadAll(data, ending, cap), room)
    decreases |data|
  {
    match ReadPacket(data, ending, cap)
    case EndOfStream =>
    case ReadFailed(e) =>
    case Frame(p, rest) =>
      SiftPrepend(p, ReadAll(rest, ending, cap), room);
      if p == [] {
        DeliverIsFilter(rest, ending, cap, room);
      } else if room > 0 {
        DeliverIsFilter(rest, ending, cap, room - 1);
      }
  }

  lemma NonEmptyPrepend(p: Packet, packets: seq<Packet>)
    ensures NonEmpty([p] + packets) == (if p == [] then [] else [p]) + NonEmpty(packets)
  {
    assert ([p] + packets)[1..] == packets;
  }

  lemma {:induction false} NonEmptyIdempotent(packets: seq<Packet>)
    requires NoneEmpty(packets)
    ensures NonEmpty(packets) == packets
  {
    if packets != [] {
      NonEmptyIdempotent(packets[1..]);
    }
  }

  lemma {:induction false} NonEmptyAppend(a: seq<Packet>, b: seq<Packet>)
    ensures NonEmpty(a + b) == NonEmpty(a) + NonEmpty(b)
  {
    if a == [] {
      assert a + b == b;
    } else {
      assert (a + b)[1..] == a[1..] + b;
      NonEmptyAppend(a[1..], b);
    }
  }

  /** Frames that differ only in zero-length packets deliver the same, whatever follows them. */
  lemma ZeroFramesAreInvisible(a: seq<Packet>, b: seq<Packet>, tail: seq<byte>, ending: Ending,
                               cap: nat, room: nat)
    requires AllFit(a, MAX_FRAME) && AllFit(b, MAX_FRAME) && AllFit(a, cap) && AllFit(b, cap)
    requires NonEmpty(a) == NonEmpty(b)
    ensures Deliver(EncodeAll(a) + tail, ending, cap, room) == Deliver(EncodeAll(b) + tail, ending, cap, room)
  {
    ReadEncodedAll(a, tail, ending, cap);
    ReadEncodedAll(b, tail, ending, cap);
    DeliverIsFilter(EncodeAll(a) + tail, ending, cap, room);
    DeliverIsFilter(EncodeAll(b) + tail, ending, cap, room);
    var r := ReadAll(tail, ending, cap);
    NonEmptyAppend(a, r.packets);
    NonEmptyAppend(b, r.packets);
  }

  // ----- End to end

  predicate ValidMtu(mtu: nat) {
    MIN_MTU <= mtu <= MAX_MTU
  }

  lemma CutDelivers(ne: seq<Packet>, cut: nat, ending: Ending, cap: nat, room: nat)
    requires AllFit(ne, MAX_FRAME) && AllFit(ne, cap) && cut <= |EncodeAll(ne)|
    requires NoneEmpty(ne)
    ensures FrameBoundary(ne, cut) <= cut
    ensures var arrived := ne[..FramesWithin(ne, cut)];
            Deliver(EncodeAll(ne)[..cut], ending, cap, room)
            == if |arrived| <= room then Delivered(StopOf(CutResult(ne, cut, ending)), arrived)
               else Delivered(DeviceFailed, arrived[..room])
  {
    var arrived := ne[..FramesWithin(ne, cut)];
    Truncation(ne, cut, ending, cap);
    DeliverIsFilter(EncodeAll(ne)[..cut], ending, cap, room);
    NonEmptyIdempotent(arrived);
  }

  lemma WholeDelivers(ne: seq<Packet>, wire: seq<byte>, ending: Ending, cap: nat, room: nat)
    requires AllFit(ne, MAX_FRAME) && AllFit(ne, cap) && |ne| <= room && ending == Finished
    requires NoneEmpty(ne) && wire == EncodeAll(ne)
    ensures Deliver(wire, ending, cap, room) == Delivered(StreamEnded, ne)
  {
    RoundTrip(ne, cap);
    DeliverIsFilter(EncodeAll(ne), ending, cap, room);
    NonEmptyIdempotent(ne);
  }

  // The packets whose frames reach the receiver whole when the wire is cut after `cut` bytes.
  function Arrived(ne: seq<Packet>, cut: nat): seq<Packet>
    requires AllFit(ne, MAX_FRAME)
  {
    ne[..FramesWithin(ne, cut)]
  }

  // The device gets the packets that arrived, as far as it takes them, and no length check fires.
  ghost predicate DeliversArrived(ne: seq<Packet>, cut: nat, room: nat, d: Delivered)
    requires AllFit(ne, MAX_FRAME)
  {
    var arrived := Arrived(ne, cut);
    && arrived <= ne
    && (if |arrived| <= room then d.written == arrived else d == Delivered(DeviceFailed, arrived[..room]))
    && !(d.stop.StreamFailed? && d.stop.error.TooLarge?)
  }

  lemma CutDeliversArrived(ne: seq<Packet>, wire: seq<byte>, cut: nat, ending: Ending, cap: nat, room: nat)
    requires AllFit(ne, MAX_FRAME) && AllFit(ne, cap) && cut <= |EncodeAll(ne)|
    requires cut <= |wire| && wire[..cut] == EncodeAll(ne)[..cut]
    requires NoneEmpty(ne)
    ensures DeliversArrived(ne, cut, room, Deliver(wire[..cut], ending, cap, room))
  {
    CutDelivers(ne, cut, ending, cap, room);
  }

  lemma WirePrefix(input: seq<Packet>, cap: nat, room: nat, cut: nat)
    requires AllFit(input, cap) && cap <= MAX_FRAME && cut <= |SendAll(input, room).wire|
    ensures AllFit(NonEmpty(input), MAX_FRAME) && AllFit(NonEmpty(input), cap) && cut <= |EncodeAll(NonEmpty(input))|
    ensures NoneEmpty(NonEmpty(input))
    ensures SendAll(input, room).wire[..cut] == EncodeAll(NonEmpty(input))[..cut]
    ensures SendAll(input, room).stop != PacketTooLarge
  {
    WireIsCutEncoding(input, room);
    NonEmptyKeeps(input, cap);
  }

  lemma WholeWire(input: seq<Packet>, cap: nat, room: nat)
    requires AllFit(input, cap) && cap <= MAX_FRAME && SendAll(input, room).stop == Sending
    ensures AllFit(NonEmpty(input), MAX_FRAME) && AllFit(NonEmpty(input), cap) && NoneEmpty(NonEmpty(input))
    ensures SendAll(input, room).wire == EncodeAll(NonEmpty(input))
  {
    NonEmptyKeeps(input, cap);
    WireIsCutEncoding(input, room);
  }

  /**
   For every sequence of TUN reads and a cut after any byte, with the same MTU at both ends: the
   peer device gets an unmodified prefix of the non-empty packets, in order; it gets exactly those
   that arrived whole and that it accepts; no length check fires at either end.
   */
  lemma TunnelDelivers(input: seq<Packet>, mtu: nat, sendRoom: nat, cut: nat, ending: Ending,
                       deviceRoom: nat)
    requires 576 <= mtu <= 1400 && AllFit(input, mtu + 64)
    requires cut <= |SendAll(input, sendRoom).wire|
    ensures AllFit(NonEmpty(input), MAX_FRAME)
    ensures SendAll(input, sendRoom).stop != PacketTooLarge
    ensures DeliversArrived(NonEmpty(input), cut, deviceRoom,
                            Deliver(SendAll(input, sendRoom).wire[..cut], ending, mtu + 64, deviceRoom))
  {
    var wire := SendAll(input, sendRoom).wire;
    WirePrefix(input, mtu + BUFFER_SLACK, sendRoom, cut);
    CutDeliversArrived(NonEmpty(input), wire, cut, ending, mtu + BUFFER_SLACK, deviceRoom);
  }

  /** A finished stream with nothing lost delivers every non-empty packet and ends cleanly. */
  lemma TunnelDeliversAll(input: seq<Packet>, mtu: nat, sendRoom: nat, deviceRoom: nat)
    requires ValidMtu(mtu) && AllFit(input, mtu + BUFFER_SLACK)
    requires SendAll(input, sendRoom).stop == Sending && |NonEmpty(input)| <= deviceRoom
    ensures Deliver(SendAll(input, sendRoom).wire, Finished, mtu + BUFFER_SLACK, deviceRoom)
            == Delivered(StreamEnded, NonEmpty(input))
  {
    var wire := SendAll(input, sendRoom).wire;
    WholeWire(input, mtu + BUFFER_SLACK, sendRoom);
    WholeDelivers(NonEmpty(input), wire, Finished, mtu + BUFFER_SLACK, deviceRoom);
  }

  /** A packet that does not fit the receiver's buffer ends the tunnel after the packets before it. */
  lemma SmallerReceiverStops(before: seq<Packet>, p: Packet, after: seq<Packet>,
                             ending: Ending, cap: nat, room: nat)
    requires AllFit(before, MAX_FRAME) && AllFit(after, MAX_FRAME) && AllFit(before, cap) && cap < |p| <= MAX_FRAME
    requires |NonEmpty(before)| <= room
    ensures Deliver(EncodeAll(before) + (Encode(p) + EncodeAll(after)), ending, cap, room)
            == Delivered(StreamFailed(TooLarge(|p|)), NonEmpty(before))
  {
    OversizedStops(before, p, EncodeAll(after), ending, cap);
    DeliverIsFilter(EncodeAll(before) + (Encode(p) + EncodeAll(after)), ending, cap, room);
  }
}
