/** Packet and byte counts at both ends of a benchmark. */
module Bench {
  import opened Wrappers
  import F = Framing
  import B = Backlog
  import P = Pacer
  import opened StreamPumps
  import opened DatagramPump
  import opened EgressPacers

  // ----- Framed stream benchmarks

  function Payload(n: nat): F.Packet {
    seq(n, _ => 0 as F.byte)
  }

  // k packets of n bytes.
  function Payloads(n: nat, k: nat): seq<F.Packet> {
    seq(k, _ => Payload(n))
  }

  // The payload sizes client and server agree on.
  predicate AgreedPayload(n: nat) {
    64 <= n <= 1452
  }

  function Frames(n: nat, k: nat): seq<F.byte>
    requires AgreedPayload(n)
  {
    F.EncodeAll(Payloads(n, k))
  }

  // Whole frames, and the part of one more frame that a lost connection still let through.
  function FramedWire(n: nat, k: nat, partial: nat): seq<F.byte>
    requires AgreedPayload(n) && partial < n + F.HEADER_BYTES
  {
    Frames(n, k) + F.Encode(Payload(n))[..partial]
  }

  datatype SendEnd = DeadlinePassed | WriteFailed

  // k recordings of n bytes at the pacer.
  function Recordings(n: nat, k: nat): seq<nat> {
    seq(k, _ => n)
  }

  /** The framed sender: one write for each of `stats` until the deadline, unless the connection goes first. */
  method SendFramed(stream: SendStream, payloadBytes: nat, stats: seq<P.PathStats>, pacer: EgressPacer)
    returns (packets: nat, bytes: nat, end: SendEnd, ghost partial: nat)
    requires AgreedPayload(payloadBytes) && pacer.Valid()
    modifies stream, pacer, pacer.clock
    ensures pacer.Valid() && pacer.recorded == old(pacer.recorded) + Recordings(payloadBytes, packets)
    ensures partial < payloadBytes + F.HEADER_BYTES && bytes == packets * payloadBytes
    ensures stream.sent == old(stream.sent) + FramedWire(payloadBytes, packets, partial)
    ensures end == DeadlinePassed ==> packets == |stats| && partial == 0
    ensures end == DeadlinePassed <==> |Frames(payloadBytes, |stats|)| <= old(stream.room)
    ensures end == WriteFailed ==> packets < |stats| && |Frames(payloadBytes, packets)| + partial == old(stream.room)
    ensures pacer.unconnected == old(pacer.unconnected)
  {
    packets, bytes, partial := 0, 0, 0;
    var payload := Payload(payloadBytes);
    var frameHeader := new F.byte[F.HEADER_BYTES];
    NoFrames(payloadBytes);
    while packets < |stats|
      invariant packets <= |stats| && bytes == packets * payloadBytes && fresh(frameHeader) && pacer.Valid()
      invariant |Frames(payloadBytes, packets)| + stream.room == old(stream.room)
      invariant stream.sent == old(stream.sent) + Frames(payloadBytes, packets)
      invariant pacer.unconnected == old(pacer.unconnected)
      invariant pacer.recorded == old(pacer.recorded) + Recordings(payloadBytes, packets)
      decreases |stats| - packets
    {
      ghost var room := stream.room;
      var r := WriteStreamPacket(stream, frameHeader, payload);
      if r.Err? {
        partial := room;
        MoreFrames(payloadBytes, packets + 1, |stats|);
        CutWire(old(stream.sent), payloadBytes, packets, room);
        return packets, bytes, WriteFailed, partial;
      }
      GrowWire(old(stream.sent), payloadBytes, packets);
      GrowRecordings(old(pacer.recorded), payloadBytes, packets);
      MultiplyStep(packets, payloadBytes);
      pacer.RecordAndWait(payloadBytes, Some(stats[packets]));
      packets, bytes := packets + 1, bytes + payloadBytes;
    }
    NoPartialFrame(payloadBytes, packets);
    end := DeadlinePassed;
  }

  lemma NoFrames(n: nat)
    requires AgreedPayload(n)
    ensures Frames(n, 0) == [] && Recordings(n, 0) == []
  {
  }

  lemma NoPartialFrame(n: nat, k: nat)
    requires AgreedPayload(n)
    ensures FramedWire(n, k, 0) == Frames(n, k)
  {
  }

  lemma {:induction false} MoreFrames(n: nat, a: nat, b: nat)
    requires AgreedPayload(n) && a <= b
    ensures |Frames(n, a)| <= |Frames(n, b)|
    decreases b
  {
    if a < b {
      MoreFrames(n, a, b - 1);
      OneMorePayload(n, b - 1);
    }
  }

  lemma CutWire(sent: seq<F.byte>, n: nat, k: nat, partial: nat)
    requires AgreedPayload(n) && partial < n + F.HEADER_BYTES
    ensures sent + Frames(n, k) + F.Encode(Payload(n))[..partial] == sent + FramedWire(n, k, partial)
    ensures |Frames(n, k + 1)| == |Frames(n, k)| + n + F.HEADER_BYTES
  {
    OneMorePayload(n, k);
  }

  lemma GrowWire(sent: seq<F.byte>, n: nat, k: nat)
    requires AgreedPayload(n)
    ensures sent + Frames(n, k) + F.Encode(Payload(n)) == sent + Frames(n, k + 1)
    ensures |Frames(n, k + 1)| == |Frames(n, k)| + |F.Encode(Payload(n))|
  {
    OneMorePayload(n, k);
  }

  lemma GrowRecordings(recorded: seq<nat>, n: nat, k: nat)
    ensures recorded + Recordings(n, k) + [n] == recorded + Recordings(n, k + 1)
  {
    assert Recordings(n, k + 1) == Recordings(n, k) + [n];
  }

  lemma OneMorePayload(n: nat, k: nat)
    requires AgreedPayload(n)
    ensures Frames(n, k + 1) == Frames(n, k) + F.Encode(Payload(n))
  {
    assert Payloads(n, k + 1) == Payloads(n, k) + [Payload(n)];
    F.EncodeAppend(Payloads(n, k), [Payload(n)]);
    assert F.EncodeAll([Payload(n)]) == F.Encode(Payload(n)) + F.EncodeAll([Payload(n)][1..]);
  }

  datatype ReceiveEnd = Eof | TimedOut | Failed(error: F.ReadError)

  datatype Tally = Tally(packets: nat, bytes: nat, end: ReceiveEnd)

  // The framed receiver, given at most `turns` reads before its deadline.
  function ReceiveFramed(data: seq<F.byte>, ending: F.Ending, cap: nat, turns: nat): Tally {
    if turns == 0 then Tally(0, 0, TimedOut)
    else
      match F.ReadPacket(data, ending, cap)
      case EndOfStream => Tally(0, 0, Eof)
      case ReadFailed(e) => Tally(0, 0, Failed(e))
      case Frame(p, rest) =>
        var t := ReceiveFramed(rest, ending, cap, turns - 1);
        if p == [] then t else t.(packets := t.packets + 1, bytes := t.bytes + |p|)
  }

  // A tally behind packets and bytes that are counted already.
  function Plus(packets: nat, bytes: nat, t: Tally): Tally {
    Tally(packets + t.packets, bytes + t.bytes, t.end)
  }

  method ReceiveFramedBench(stream: RecvStream, payloadBytes: nat, turns: nat) returns (t: Tally)
    modifies stream
    ensures t == ReceiveFramed(old(stream.data), stream.ending, payloadBytes, turns)
  {
    var buf := new F.byte[payloadBytes];
    var packets, bytes := 0, 0;
    for left := turns downto 0
      invariant fresh(buf)
      invariant Plus(packets, bytes, ReceiveFramed(stream.data, stream.ending, payloadBytes, left))
                == ReceiveFramed(old(stream.data), stream.ending, payloadBytes, turns)
    {
      ghost var read := F.ReadPacket(stream.data, stream.ending, payloadBytes);
      var r := ReadStreamPacket(stream, buf);
      match r {
        case Ok(Some(n)) =>
          assert read.Frame? && |read.payload| == n && stream.data == read.rest;
          if n != 0 {
            packets, bytes := packets + 1, bytes + n;
          }
        case Ok(None) => return Tally(packets, bytes, Eof);
        case Err(e) => return Tally(packets, bytes, Failed(e));
      }
    }
    t := Tally(packets, bytes, TimedOut);
  }

  // The packets and the bytes of a list, empty packets left out.
  function Counts(packets: seq<F.Packet>, end: ReceiveEnd): Tally {
    if packets == [] then Tally(0, 0, end)
    else
      var t := Counts(packets[1..], end);
      if |packets[0]| > 0 then Tally(t.packets + 1, t.bytes + |packets[0]|, end) else t
  }

  function EndOf(r: F.Received): ReceiveEnd {
    match r
    case Clean(_) => Eof
    case Broken(_, e) => Failed(e)
  }

  // What the receiving loop should count, given what a reader reads.
  function CountsOf(r: F.Received, turns: nat): Tally {
    if turns <= |r.packets| then Counts(r.packets[..turns], TimedOut) else Counts(r.packets, EndOf(r))
  }

  lemma CountsOfPrepend(p: F.Packet, r: F.Received, turns: nat)
    requires turns > 0
    ensures var t := CountsOf(r, turns - 1);
            CountsOf(F.Prepend(p, r), turns)
            == if p == [] then t else t.(packets := t.packets + 1, bytes := t.bytes + |p|)
  {
    CountsPrepend(p, r.packets, EndOf(r));
    if turns <= |r.packets| + 1 {
      assert ([p] + r.packets)[..turns] == [p] + r.packets[..turns - 1];
      CountsPrepend(p, r.packets[..turns - 1], TimedOut);
    }
  }

  /**
   On any bytes, the receiving loop counts what a reader reads: everything, and the reader's own end, if it has a
   turn left for that, or else the packets it has turns for.
   */
  lemma {:induction false} ReceiverCountsReads(data: seq<F.byte>, ending: F.Ending, cap: nat, turns: nat)
    ensures ReceiveFramed(data, ending, cap, turns) == CountsOf(F.ReadAll(data, ending, cap), turns)
  {
    if turns > 0 {
      match F.ReadPacket(data, ending, cap)
      case EndOfStream =>
      case ReadFailed(e) =>
      case Frame(p, rest) =>
        ReceiverCountsReads(rest, ending, cap, turns - 1);
        CountsOfPrepend(p, F.ReadAll(rest, ending, cap), turns);
    }
  }

  lemma CountsPrepend(p: F.Packet, packets: seq<F.Packet>, end: ReceiveEnd)
    ensures Counts([p] + packets, end)
            == var t := Counts(packets, end);
               if p == [] then t else t.(packets := t.packets + 1, bytes := t.bytes + |p|)
    ensures Counts(packets, end).end == end
  {
    assert ([p] + packets)[1..] == packets;
  }

  // A receiver's counts behind k packets of n bytes.
  function Counted(k: nat, n: nat, t: Tally): Tally {
    if k == 0 then t else OneMore(n, Counted(k - 1, n, t))
  }

  function OneMore(n: nat, t: Tally): Tally {
    Tally(t.packets + 1, t.bytes + n, t.end)
  }

  lemma CountOne(n: nat, tail: seq<F.byte>, ending: F.Ending, turns: nat)
    requires AgreedPayload(n) && turns > 0
    ensures ReceiveFramed(F.Encode(Payload(n)) + tail, ending, n, turns)
            == OneMore(n, ReceiveFramed(tail, ending, n, turns - 1))
  {
    F.ReadEncoded(Payload(n), tail, ending, n);
  }

  lemma CountFirst(n: nat, k: nat, tail: seq<F.byte>, ending: F.Ending, turns: nat)
    requires AgreedPayload(n) && turns > 0 && k > 0
    ensures ReceiveFramed(Frames(n, k) + tail, ending, n, turns)
            == OneMore(n, ReceiveFramed(Frames(n, k - 1) + tail, ending, n, turns - 1))
  {
    assert Payloads(n, k)[1..] == Payloads(n, k - 1);
    F.SplitFirst(Payloads(n, k), tail);
    CountOne(n, Frames(n, k - 1) + tail, ending, turns);
  }

  lemma {:induction false} CountedTotals(k: nat, n: nat, t: Tally)
    ensures Counted(k, n, t) == Tally(t.packets + k, t.bytes + k * n, t.end)
  {
    if k > 0 {
      CountedTotals(k - 1, n, t);
      MultiplyStep(k - 1, n);
    }
  }

  // What a receiver should count in k whole frames and anything behind them.
  function WholeFramesTally(n: nat, k: nat, tail: seq<F.byte>, ending: F.Ending, turns: nat): Tally {
    if turns <= k then Counted(turns, n, Tally(0, 0, TimedOut))
    else Counted(k, n, ReceiveFramed(tail, ending, n, turns - k))
  }

  ghost predicate CountsWell(n: nat, k: nat, tail: seq<F.byte>, ending: F.Ending, turns: nat)
    requires AgreedPayload(n)
  {
    ReceiveFramed(Frames(n, k) + tail, ending, n, turns) == WholeFramesTally(n, k, tail, ending, turns)
  }

  lemma CountsNothing(n: nat, k: nat, tail: seq<F.byte>, ending: F.Ending, turns: nat)
    requires AgreedPayload(n) && (k == 0 || turns == 0)
    ensures CountsWell(n, k, tail, ending, turns)
  {
    if turns > 0 {
      NoFrames(n);
      assert [] + tail == tail;
      assert Counted(0, n, ReceiveFramed(tail, ending, n, turns)) == ReceiveFramed(tail, ending, n, turns);
    }
  }

  lemma CountsStep(n: nat, k: nat, tail: seq<F.byte>, ending: F.Ending, turns: nat)
    requires AgreedPayload(n) && turns > 0 && k > 0 && CountsWell(n, k - 1, tail, ending, turns - 1)
    ensures CountsWell(n, k, tail, ending, turns)
  {
    CountFirst(n, k, tail, ending, turns);
  }

  lemma {:induction false} CountsWholeFrames(n: nat, k: nat, tail: seq<F.byte>, ending: F.Ending, turns: nat)
    requires AgreedPayload(n)
    ensures CountsWell(n, k, tail, ending, turns)
  {
    if k == 0 || turns == 0 {
      CountsNothing(n, k, tail, ending, turns);
    } else {
      CountsWholeFrames(n, k - 1, tail, ending, turns - 1);
      CountsStep(n, k, tail, ending, turns);
    }
  }

  lemma CutFrameCountsNothing(n: nat, partial: nat, ending: F.Ending, turns: nat)
    requires AgreedPayload(n) && partial < n + F.HEADER_BYTES
    ensures var t := ReceiveFramed(F.Encode(Payload(n))[..partial], ending, n, turns);
            t.packets == t.bytes == 0 && (t.end == Eof ==> partial == 0)
  {
    if turns > 0 {
      F.CutFrame(Payload(n), partial, ending, n);
      var data := F.Encode(Payload(n))[..partial];
      assert F.ReadPacket(data, ending, n).Frame? ==> F.ReadAll(data, ending, n).packets != [];
    }
  }

  /**
   Framed conservation: from any wire the sender can leave behind, the receiver counts no more
   packets and bytes than the sender did, and exactly as many when its loop ends at the end of the stream.
   */
  lemma FramedConservation(n: nat, packets: nat, partial: nat, ending: F.Ending, turns: nat)
    requires AgreedPayload(n) && partial < n + F.HEADER_BYTES
    ensures var t := ReceiveFramed(FramedWire(n, packets, partial), ending, n, turns);
            && t.packets <= packets && t.bytes == t.packets * n && t.bytes <= packets * n
            && (t.end == Eof ==> t.packets == packets && partial == 0)
  {
    var tail := F.Encode(Payload(n))[..partial];
    CountsWholeFrames(n, packets, tail, ending, turns);
    CutWireTally(n, packets, partial, ending, turns);
  }

  lemma CutWireTally(n: nat, packets: nat, partial: nat, ending: F.Ending, turns: nat)
    requires AgreedPayload(n) && partial < n + F.HEADER_BYTES
    ensures var t := WholeFramesTally(n, packets, F.Encode(Payload(n))[..partial], ending, turns);
            && t.packets <= packets && t.bytes == t.packets * n && t.bytes <= packets * n
            && (t.end == Eof ==> t.packets == packets && partial == 0)
  {
    if turns > packets {
      CutFrameCountsNothing(n, partial, ending, turns - packets);
      CountedTotals(packets, n, ReceiveFramed(F.Encode(Payload(n))[..partial], ending, n, turns - packets));
    } else {
      CountedTotals(turns, n, Tally(0, 0, TimedOut));
      MultiplyMonotone(turns, packets, n);
    }
  }

  lemma MultiplyMonotone(a: nat, b: nat, n: nat)
    requires a <= b
    ensures a * n <= b * n
  {
  }

  /** A connection lost on the way only removes a suffix: the counts still do not exceed the sender's. */
  lemma FramedLossConservation(n: nat, packets: nat, cut: nat, turns: nat)
    requires AgreedPayload(n) && cut <= |Frames(n, packets)|
    ensures var t := ReceiveFramed(Frames(n, packets)[..cut], F.ConnectionLost, n, turns);
            t.packets <= packets && t.bytes == t.packets * n && t.end != Eof
  {
    var k, partial := CutShape(n, packets, cut);
    FramedConservation(n, k, partial, F.ConnectionLost, turns);
    NoEofWhenLost(FramedWire(n, k, partial), n, turns);
  }

  lemma {:induction false} NoEofWhenLost(data: seq<F.byte>, cap: nat, turns: nat)
    ensures ReceiveFramed(data, F.ConnectionLost, cap, turns).end != Eof
  {
    if turns > 0 {
      match F.ReadPacket(data, F.ConnectionLost, cap)
      case Frame(_, rest) => NoEofWhenLost(rest, cap, turns - 1);
      case _ =>
    }
  }

  // Any prefix of k frames is some whole frames and part of the next.
  lemma {:induction false} CutShape(n: nat, packets: nat, cut: nat) returns (k: nat, partial: nat)
    requires AgreedPayload(n) && cut <= |Frames(n, packets)|
    ensures k <= packets && partial < n + F.HEADER_BYTES
    ensures Frames(n, packets)[..cut] == FramedWire(n, k, partial)
  {
    var all := Frames(n, packets);
    if packets == 0 {
      k, partial := 0, 0;
    } else {
      OneMorePayload(n, packets - 1);
      var fewer := Frames(n, packets - 1);
      if cut < |fewer| {
        k, partial := CutShape(n, packets - 1, cut);
        assert all[..cut] == fewer[..cut];
      } else if cut == |all| {
        k, partial := packets, 0;
        assert all[..cut] == all;
      } else {
        k, partial := packets - 1, cut - |fewer|;
        assert all[..cut] == fewer + F.Encode(Payload(n))[..partial];
      }
    }
  }

  // ----- Unframed stream benchmarks

  // Writes, or reads, of at most a payload each.
  predicate Partial(sizes: seq<nat>, payload: nat) {
    forall i :: 0 <= i < |sizes| ==> sizes[i] <= payload
  }

  // Each write took all it could: a payload, what the transport accepted, or all that was left.
  predicate WritesTakeAll(writes: seq<nat>, payload: nat, accepted: seq<nat>, left: nat)
    requires |writes| <= |accepted|
  {
    forall i :: 0 <= i < |writes| ==>
      && 0 < writes[i] <= payload && writes[i] <= accepted[i]
      && (writes[i] == payload || writes[i] == accepted[i] || left == 0)
  }

  /**
   The unframed sender: `accepted` limits what each write takes, until the deadline or a write of nothing, which
   happens only when there is nothing to write, nothing is accepted, or the connection is lost.
   */
  method SendUnframed(stream: SendStream, payloadBytes: nat, accepted: seq<nat>, stats: seq<P.PathStats>,
                      pacer: EgressPacer)
    returns (packets: nat, bytes: nat, ghost writes: seq<nat>)
    requires |stats| == |accepted| && pacer.Valid()
    modifies stream, pacer, pacer.clock
    ensures pacer.Valid() && pacer.recorded == old(pacer.recorded) + writes
    ensures pacer.unconnected == old(pacer.unconnected)
    ensures |writes| == packets <= |accepted| && Sum(writes) == bytes && Partial(writes, payloadBytes)
    ensures WritesTakeAll(writes, payloadBytes, accepted, stream.room) && bytes + stream.room == old(stream.room)
    ensures packets < |accepted| ==> payloadBytes == 0 || accepted[packets] == 0 || stream.room == 0
    ensures old(stream.sent) <= stream.sent && bytes == |stream.sent| - |old(stream.sent)|
    ensures packets <= bytes <= packets * payloadBytes
  {
    packets, bytes, writes := 0, 0, [];
    var payload := Payload(payloadBytes);
    while packets < |accepted|
      invariant packets <= |accepted| && pacer.Valid() && pacer.unconnected == old(pacer.unconnected)
      invariant pacer.recorded == old(pacer.recorded) + writes && |writes| == packets && Sum(writes) == bytes
      invariant WritesTakeAll(writes, payloadBytes, accepted, stream.room) && bytes + stream.room == old(stream.room)
      invariant old(stream.sent) <= stream.sent && bytes == |stream.sent| - |old(stream.sent)|
      decreases |accepted| - packets
    {
      var n := stream.Write(payload, accepted[packets]);
      if n == 0 {
        break;
      }
      var now := stats[packets];
      assert (writes + [n])[..|writes|] == writes;
      packets, bytes, writes := packets + 1, bytes + n, writes + [n];
      pacer.RecordAndWait(n, Some(now));
    }
    WritesAreBounded(writes, payloadBytes);
  }

  lemma WritesAreBounded(writes: seq<nat>, payload: nat)
    requires forall i :: 0 <= i < |writes| ==> 0 < writes[i] <= payload
    ensures |writes| <= Sum(writes) <= |writes| * payload
  {
    AtLeastOneEach(writes);
    ShortfallFills(writes, payload);
  }

  lemma {:induction false} AtLeastOneEach(sizes: seq<nat>)
    requires forall i :: 0 <= i < |sizes| ==> sizes[i] > 0
    ensures |sizes| <= Sum(sizes)
  {
    if sizes != [] {
      AtLeastOneEach(sizes[..|sizes| - 1]);
    }
  }

  // The unframed receiver counts every read, even an empty one, as a packet.
  function ReceiveUnframed(available: nat, ending: F.Ending, chunks: seq<nat>, cap: nat, turns: nat): Tally {
    if turns == 0 then Tally(0, 0, TimedOut)
    else if available == 0 then Tally(0, 0, if ending == F.Finished then Eof else Failed(F.Lost))
    else
      var n := ChunkSize(available, cap, chunks);
      var t := ReceiveUnframed(available - n, ending, if chunks == [] then [] else chunks[1..], cap, turns - 1);
      t.(packets := t.packets + 1, bytes := t.bytes + n)
  }

  method ReceiveUnframedBench(stream: RecvStream, payloadBytes: nat, turns: nat) returns (t: Tally)
    requires payloadBytes > 0
    modifies stream
    ensures t == ReceiveUnframed(|old(stream.data)|, stream.ending, old(stream.chunks), payloadBytes, turns)
  {
    var buf := new F.byte[payloadBytes];
    var packets, bytes := 0, 0;
    for turn := 0 to turns
      invariant fresh(buf)
      invariant var rest := ReceiveUnframed(|stream.data|, stream.ending, stream.chunks, payloadBytes, turns - turn);
                ReceiveUnframed(|old(stream.data)|, stream.ending, old(stream.chunks), payloadBytes, turns)
                == Tally(packets + rest.packets, bytes + rest.bytes, rest.end)
    {
      var chunk := stream.Read(buf, 0, payloadBytes);
      match chunk {
        case Chunk(n) => packets, bytes := packets + 1, bytes + n;
        case NoMoreBytes => return Tally(packets, bytes, Eof);
        case ConnectionError => return Tally(packets, bytes, Failed(F.Lost));
      }
    }
    t := Tally(packets, bytes, TimedOut);
  }

  /** Unframed conservation: bytes never exceed the sender's and are equal at the end of the stream. */
  lemma {:induction false} UnframedConservation(sent: nat, ending: F.Ending, chunks: seq<nat>, cap: nat, turns: nat)
    ensures var t := ReceiveUnframed(sent, ending, chunks, cap, turns);
            && t.bytes <= sent
            && t.packets <= turns && (t.end == TimedOut <==> t.packets == turns)
            && (t.end != TimedOut ==> t.bytes == sent && t.end == if ending == F.Finished then Eof else Failed(F.Lost))
  {
    if turns > 0 && sent > 0 {
      var later := if chunks == [] then [] else chunks[1..];
      UnframedConservation(sent - ChunkSize(sent, cap, chunks), ending, later, cap, turns - 1);
    }
  }

  // The sizes of the reads that the unframed receiver counts.
  function Reads(available: nat, chunks: seq<nat>, cap: nat, turns: nat): seq<nat>
    decreases turns
  {
    if turns == 0 || available == 0 then []
    else
      var n := ChunkSize(available, cap, chunks);
      [n] + Reads(available - n, if chunks == [] then [] else chunks[1..], cap, turns - 1)
  }

  lemma FirstRead(available: nat, ending: F.Ending, chunks: seq<nat>, cap: nat, turns: nat)
    requires turns > 0 && available > 0
    ensures var n, later := ChunkSize(available, cap, chunks), if chunks == [] then [] else chunks[1..];
            var t := ReceiveUnframed(available - n, ending, later, cap, turns - 1);
            && ReceiveUnframed(available, ending, chunks, cap, turns) == OneMore(n, t) && n <= cap
            && Reads(available, chunks, cap, turns) == [n] + Reads(available - n, later, cap, turns - 1)
  {
  }

  lemma {:induction false} TallyOfReads(available: nat, ending: F.Ending, chunks: seq<nat>, cap: nat, turns: nat)
    ensures var t := ReceiveUnframed(available, ending, chunks, cap, turns);
            var sizes := Reads(available, chunks, cap, turns);
            t.packets == |sizes| && t.bytes == Sum(sizes)
    decreases turns
  {
    if turns > 0 && available > 0 {
      var n, later := ChunkSize(available, cap, chunks), if chunks == [] then [] else chunks[1..];
      FirstRead(available, ending, chunks, cap, turns);
      TallyOfReads(available - n, ending, later, cap, turns - 1);
      SumPrepend(n, Reads(available - n, later, cap, turns - 1));
    }
  }

  lemma {:induction false} ReadsArePartial(available: nat, chunks: seq<nat>, cap: nat, turns: nat)
    ensures Partial(Reads(available, chunks, cap, turns), cap)
    decreases turns
  {
    if turns > 0 && available > 0 {
      ReadsArePartial(available - ChunkSize(available, cap, chunks), if chunks == [] then [] else chunks[1..], cap,
                      turns - 1);
    }
  }

  // How many bytes the sizes miss altogether to be whole payloads.
  function Shortfall(sizes: seq<nat>, payload: nat): nat {
    if sizes == [] then 0 else SaturatingSub(payload, sizes[0]) + Shortfall(sizes[1..], payload)
  }

  predicate Whole(sizes: seq<nat>, payload: nat) {
    forall i :: 0 <= i < |sizes| ==> sizes[i] == payload
  }

  lemma {:induction false} ShortfallFills(sizes: seq<nat>, payload: nat)
    requires Partial(sizes, payload)
    ensures Sum(sizes) + Shortfall(sizes, payload) == |sizes| * payload
    ensures Shortfall(sizes, payload) == 0 <==> Whole(sizes, payload)
  {
    if sizes != [] {
      ShortfallFills(sizes[1..], payload);
      assert sizes == [sizes[0]] + sizes[1..];
      SumPrepend(sizes[0], sizes[1..]);
      MultiplyStep(|sizes| - 1, payload);
      assert Whole(sizes[1..], payload) && sizes[0] == payload ==> Whole(sizes, payload);
    }
  }

  /** The receiver counts no more bytes than its reads had room for, and as many exactly if every read was whole. */
  lemma UnframedReadsFill(sent: nat, ending: F.Ending, chunks: seq<nat>, cap: nat, turns: nat)
    ensures var t := ReceiveUnframed(sent, ending, chunks, cap, turns);
            t.bytes <= t.packets * cap && (t.bytes == t.packets * cap <==> Whole(Reads(sent, chunks, cap, turns), cap))
  {
    TallyOfReads(sent, ending, chunks, cap, turns);
    ReadsArePartial(sent, chunks, cap, turns);
    ShortfallFills(Reads(sent, chunks, cap, turns), cap);
  }

  /**
   Unframed packet counts, for any writes and any reads up to the end of the stream: both ends count alike if
   and only if their reads and writes miss as many bytes altogether. With whole reads that is the case exactly
   if the writes were whole, and the other way round.
   */
  lemma UnframedPacketsAgreeIff(writes: seq<nat>, payload: nat, chunks: seq<nat>, turns: nat)
    requires payload > 0 && Partial(writes, payload)
    requires ReceiveUnframed(Sum(writes), F.Finished, chunks, payload, turns).end == Eof
    ensures var t := ReceiveUnframed(Sum(writes), F.Finished, chunks, payload, turns);
            var sizes := Reads(Sum(writes), chunks, payload, turns);
            && (t.packets == |writes| <==> Shortfall(sizes, payload) == Shortfall(writes, payload))
            && (Whole(sizes, payload) ==> (t.packets == |writes| <==> Sum(writes) == |writes| * payload))
            && (Sum(writes) == |writes| * payload ==> (t.packets == |writes| <==> Whole(sizes, payload)))
  {
    var sizes := Reads(Sum(writes), chunks, payload, turns);
    UnframedConservation(Sum(writes), F.Finished, chunks, payload, turns);
    TallyOfReads(Sum(writes), F.Finished, chunks, payload, turns);
    ReadsArePartial(Sum(writes), chunks, payload, turns);
    ShortfallFills(writes, payload);
    ShortfallFills(sizes, payload);
    if |sizes| < |writes| {
      LessByOnePayload(|sizes|, |writes|, payload);
    } else if |writes| < |sizes| {
      LessByOnePayload(|writes|, |sizes|, payload);
    }
  }

  lemma LessByOnePayload(a: nat, b: nat, n: nat)
    requires a < b && n > 0
    ensures a * n < b * n
  {
    MultiplyMonotone(a + 1, b, n);
    MultiplyStep(a, n);
  }

  /** 64 bytes, from one write or from two, may be read in two halves, after an empty read, or at once. */
  lemma UnframedPacketsMayDiffer()
    ensures Sum([64]) == 64 && Sum([32, 32]) == 64
    ensures ReceiveUnframed(64, F.Finished, [32, 32], 64, 10) == Tally(2, 64, Eof)
    ensures ReceiveUnframed(64, F.Finished, [0, 64], 64, 10) == Tally(2, 64, Eof)
    ensures ReceiveUnframed(64, F.Finished, [], 64, 10) == Tally(1, 64, Eof)
  {
    assert [32, 32][..1] == [32] && [32][..0] == [] && [64][..0] == [];
    assert ReceiveUnframed(0, F.Finished, [], 64, 8) == Tally(0, 0, Eof);
    assert ReceiveUnframed(32, F.Finished, [32], 64, 9) == Tally(1, 32, Eof);
    assert ReceiveUnframed(64, F.Finished, [64], 64, 9) == Tally(1, 64, Eof);
    assert [32, 32][1..] == [32] && [0, 64][1..] == [64];
  }

  // ----- Datagram benchmarks

  /** What one turn of the sending loop meets first; a sent datagram comes with the polls of its wait. */
  datatype Turn = DeadlineTimer | ClosedTurn | SendError | DatagramSent(polls: seq<B.Poll>)

  datatype BenchEnd =
    | StillSending | AtDeadline | AtBacklogDeadline | ConnectionGone | SendFailed | LostInBacklog | StuckInBacklog

  datatype DatagramTally = DatagramTally(packets: nat, bytes: nat, state: B.State, end: BenchEnd)

  function SendDatagrams(s: B.State, payload: nat, deadline: real, turns: seq<Turn>): DatagramTally
    decreases |turns|
  {
    if turns == [] then DatagramTally(0, 0, s, StillSending)
    else
      match turns[0]
      case DeadlineTimer => DatagramTally(0, 0, s, AtDeadline)
      case ClosedTurn => DatagramTally(0, 0, s, ConnectionGone)
      case SendError => DatagramTally(0, 0, s, SendFailed)
      case DatagramSent(polls) =>
        var w := B.Wait(B.Queue(s), Some(deadline), polls);
        match w.outcome
        case TimedOut => DatagramTally(0, 0, w.state, AtBacklogDeadline)
        case Closed => DatagramTally(0, 0, w.state, LostInBacklog)
        case Waiting => DatagramTally(0, 0, w.state, StuckInBacklog)
        case Ready =>
          var t := SendDatagrams(w.state, payload, deadline, turns[1..]);
          t.(packets := t.packets + 1, bytes := t.bytes + payload)
  }

  method SendDatagramBench(payloadBytes: nat, deadline: real, turns: seq<Turn>, stats: seq<P.PathStats>,
                           backlog: DatagramBacklog, pacer: EgressPacer)
    returns (packets: nat, bytes: nat, end: BenchEnd)
    requires |stats| == |turns| && pacer.Valid()
    modifies backlog, pacer, pacer.clock
    ensures pacer.Valid() && pacer.recorded == old(pacer.recorded) + Recordings(payloadBytes, packets)
    ensures pacer.unconnected == old(pacer.unconnected)
    ensures DatagramTally(packets, bytes, backlog.State(), end)
            == SendDatagrams(old(backlog.State()), payloadBytes, deadline, turns)
  {
    packets, bytes := 0, 0;
    var pending, polled := turns, stats;
    assert Recordings(payloadBytes, 0) == [];
    while pending != []
      invariant |polled| == |pending| && pacer.Valid() && pacer.unconnected == old(pacer.unconnected)
      invariant pacer.recorded == old(pacer.recorded) + Recordings(payloadBytes, packets)
      invariant var rest := SendDatagrams(backlog.State(), payloadBytes, deadline, pending);
                SendDatagrams(old(backlog.State()), payloadBytes, deadline, turns)
                == rest.(packets := packets + rest.packets, bytes := bytes + rest.bytes)
      decreases |pending|
    {
      var turn, now := pending[0], polled[0];
      match turn {
        case DeadlineTimer => return packets, bytes, AtDeadline;
        case ClosedTurn => return packets, bytes, ConnectionGone;
        case SendError => return packets, bytes, SendFailed;
        case DatagramSent(polls) =>
          var outcome, _, _ := backlog.QueuedUntil(deadline, polls);
          match outcome {
            case TimedOut => return packets, bytes, AtBacklogDeadline;
            case Closed => return packets, bytes, LostInBacklog;
            case Waiting => return packets, bytes, StuckInBacklog;
            case Ready =>
          }
      }
      GrowRecordings(old(pacer.recorded), payloadBytes, packets);
      packets, bytes := packets + 1, bytes + payloadBytes;
      pending, polled := pending[1..], polled[1..];
      pacer.RecordAndWait(payloadBytes, Some(now));
    }
    end := StillSending;
  }

  lemma {:induction false} SendAppend(s: B.State, payload: nat, deadline: real, a: seq<Turn>, b: seq<Turn>)
    ensures var t := SendDatagrams(s, payload, deadline, a);
            SendDatagrams(s, payload, deadline, a + b)
            == if t.end != StillSending then t
               else
                 var rest := SendDatagrams(t.state, payload, deadline, b);
                 rest.(packets := t.packets + rest.packets, bytes := t.bytes + rest.bytes)
    decreases |a|
  {
    if a == [] {
      assert a + b == b;
    } else {
      assert (a + b)[0] == a[0] && (a + b)[1..] == a[1..] + b;
      if a[0].DatagramSent? {
        SendAppend(B.Wait(B.Queue(s), Some(deadline), a[0].polls).state, payload, deadline, a[1..], b);
      }
    }
  }

  /**
   What any one turn does, wherever it comes in a run: the timer, a closed connection and a failed send each end the
   loop for that reason with nothing counted; a sent datagram raises the queued ones by one, and is counted with its
   payload if its wait is ready, while any other outcome of the wait ends the loop without counting it.
   */
  lemma TurnInBench(s: B.State, payload: nat, deadline: real, before: seq<Turn>, turn: Turn, after: seq<Turn>)
    requires SendDatagrams(s, payload, deadline, before).end == StillSending
    ensures var t := SendDatagrams(s, payload, deadline, before);
            var whole := SendDatagrams(s, payload, deadline, before + [turn] + after);
            match turn
            case DeadlineTimer => whole == t.(end := AtDeadline)
            case ClosedTurn => whole == t.(end := ConnectionGone)
            case SendError => whole == t.(end := SendFailed)
            case DatagramSent(polls) =>
              var w := B.Wait(t.state.(queued := SaturatingAdd(t.state.queued, 1)), Some(deadline), polls);
              match w.outcome
              case TimedOut => whole == t.(state := w.state, end := AtBacklogDeadline)
              case Closed => whole == t.(state := w.state, end := LostInBacklog)
              case Waiting => whole == t.(state := w.state, end := StuckInBacklog)
              case Ready =>
                var rest := SendDatagrams(w.state, payload, deadline, after);
                whole == DatagramTally(t.packets + 1 + rest.packets, t.bytes + payload + rest.bytes, rest.state,
                                       rest.end)
  {
    assert before + [turn] + after == before + ([turn] + after) && ([turn] + after)[1..] == after;
    SendAppend(s, payload, deadline, before, [turn] + after);
  }

  // The loop has ended, or stopped, inside the wait for a datagram it had already queued.
  predicate OneUncounted(end: BenchEnd) {
    end == AtBacklogDeadline || end == LostInBacklog || end == StuckInBacklog
  }

  lemma {:induction false} PollLoopKeepsQueue(s: B.State, deadline: Option<real>, polls: seq<B.Poll>)
    ensures B.PollLoop(s, deadline, polls).state.queued == s.queued
    decreases |polls|
  {
    if polls != [] {
      PollLoopKeepsQueue(B.Refresh(s, polls[0].counter), deadline, polls[1..]);
    }
  }

  lemma MultiplyStep(a: nat, n: nat)
    ensures (a + 1) * n == a * n + n
  {
  }

  /** Queued datagrams are the counted packets, plus one exactly when the loop ended inside a backlog wait. */
  lemma {:induction false} DatagramAccounting(s: B.State, payload: nat, deadline: real, turns: seq<Turn>)
    requires s.queued + |turns| <= U64_MAX
    ensures var t := SendDatagrams(s, payload, deadline, turns);
            && t.state.queued == s.queued + t.packets + (if OneUncounted(t.end) then 1 else 0)
            && t.bytes == t.packets * payload
            && t.packets <= |turns|
    decreases |turns|
  {
    if turns != [] && turns[0].DatagramSent? {
      var w := B.Wait(B.Queue(s), Some(deadline), turns[0].polls);
      PollLoopKeepsQueue(B.Queue(s), Some(deadline), turns[0].polls);
      if w.outcome == B.Ready {
        DatagramAccounting(w.state, payload, deadline, turns[1..]);
        MultiplyStep(SendDatagrams(w.state, payload, deadline, turns[1..]).packets, payload);
      }
    }
  }

  /** What the receiving loop meets before its deadline: one of the queued datagrams, or the end of the connection. */
  datatype Arrival = Datagram(serial: nat, length: nat) | ReadError

  function ReceiveDatagrams(arrivals: seq<Arrival>): Tally {
    if arrivals == [] then Tally(0, 0, TimedOut)
    else
      match arrivals[0]
      case ReadError => Tally(0, 0, Failed(F.Lost))
      case Datagram(_, length) =>
        var t := ReceiveDatagrams(arrivals[1..]);
        t.(packets := t.packets + 1, bytes := t.bytes + length)
  }

  method ReceiveDatagramBench(arrivals: seq<Arrival>) returns (t: Tally)
    ensures t == ReceiveDatagrams(arrivals)
  {
    var packets, bytes := 0, 0;
    var pending := arrivals;
    while pending != []
      invariant var rest := ReceiveDatagrams(pending);
                ReceiveDatagrams(arrivals) == Tally(packets + rest.packets, bytes + rest.bytes, rest.end)
      decreases |pending|
    {
      match pending[0] {
        case Datagram(_, length) => packets, bytes := packets + 1, bytes + length;
        case ReadError => return Tally(packets, bytes, Failed(F.Lost));
      }
      pending := pending[1..];
    }
    t := Tally(packets, bytes, TimedOut);
  }

  function Lengths(arrivals: seq<Arrival>): seq<nat> {
    seq(|arrivals|, i requires 0 <= i < |arrivals| => if arrivals[i].Datagram? then arrivals[i].length else 0)
  }

  /** The receiver counts every datagram up to the deadline, or up to the error it then reports. */
  lemma {:induction false} EveryArrivalCounts(arrivals: seq<Arrival>, later: seq<Arrival>)
    requires forall i :: 0 <= i < |arrivals| ==> arrivals[i].Datagram?
    ensures ReceiveDatagrams(arrivals) == Tally(|arrivals|, Sum(Lengths(arrivals)), TimedOut)
    ensures ReceiveDatagrams(arrivals + [ReadError] + later)
            == Tally(|arrivals|, Sum(Lengths(arrivals)), Failed(F.Lost))
  {
    var all := arrivals + [ReadError] + later;
    if arrivals == [] {
      assert all[0] == ReadError;
    } else {
      EveryArrivalCounts(arrivals[1..], later);
      assert all[0] == arrivals[0] && all[1..] == arrivals[1..] + [ReadError] + later;
      assert Lengths(arrivals) == [arrivals[0].length] + Lengths(arrivals[1..]);
      SumPrepend(arrivals[0].length, Lengths(arrivals[1..]));
    }
  }

  function Serials(arrivals: seq<Arrival>): set<nat> {
    set a | a in arrivals && a.Datagram? :: a.serial
  }

  // Every datagram that arrives was queued, has its length, and arrives once; others are lost, and any may overtake.
  predicate NothingDuplicated(arrivals: seq<Arrival>, queued: nat, payload: nat) {
    arrivals == []
    || (NothingDuplicated(arrivals[1..], queued, payload)
        && (arrivals[0].Datagram? ==>
              && arrivals[0].serial < queued && arrivals[0].length == payload
              && arrivals[0].serial !in Serials(arrivals[1..])))
  }

  lemma {:induction false} CountIsDistinct(arrivals: seq<Arrival>, queued: nat, payload: nat)
    requires NothingDuplicated(arrivals, queued, payload)
    ensures var t := ReceiveDatagrams(arrivals);
            t.packets <= |Serials(arrivals)| && t.bytes == t.packets * payload
    ensures forall n :: n in Serials(arrivals) ==> n < queued
  {
    if arrivals != [] {
      var a, rest := arrivals[0], arrivals[1..];
      CountIsDistinct(rest, queued, payload);
      if a.Datagram? {
        assert Serials(arrivals) == Serials(rest) + {a.serial};
        MultiplyStep(ReceiveDatagrams(rest).packets, payload);
      } else {
        assert Serials(arrivals) == Serials(rest);
      }
    }
  }

  lemma {:induction false} BelowCount(serials: set<nat>, n: nat)
    requires forall x :: x in serials ==> x < n
    ensures |serials| <= n
  {
    if n > 0 {
      BelowCount(serials - {n - 1}, n - 1);
    } else {
      assert serials == {};
    }
  }

  /**
   Over a network that may lose and reorder but duplicates nothing, the receiver counts at most one datagram
   more than the sender, and none more unless the sender's loop stopped inside a backlog wait.
   */
  lemma ReceiverCountsAtMostOneMore(s: B.State, payload: nat, deadline: real, turns: seq<Turn>, arrivals: seq<Arrival>)
    requires s.queued == 0 && |turns| <= U64_MAX
    requires NothingDuplicated(arrivals, SendDatagrams(s, payload, deadline, turns).state.queued, payload)
    ensures var t, r := SendDatagrams(s, payload, deadline, turns), ReceiveDatagrams(arrivals);
            && r.bytes == r.packets * payload
            && r.packets <= t.packets + 1 && r.bytes <= t.bytes + payload
            && (!OneUncounted(t.end) ==> r.packets <= t.packets && r.bytes <= t.bytes)
  {
    var t, r := SendDatagrams(s, payload, deadline, turns), ReceiveDatagrams(arrivals);
    DatagramAccounting(s, payload, deadline, turns);
    CountIsDistinct(arrivals, t.state.queued, payload);
    BelowCount(Serials(arrivals), t.state.queued);
    MultiplyMonotone(r.packets, t.state.queued, payload);
    MultiplyStep(t.packets, payload);
  }

  // Counter readings never decrease, count only what was queued, and none is later than `now`.
  predicate ValidTurns(s: B.State, turns: seq<Turn>, low: nat, now: nat)
    decreases |turns|
  {
    low <= now
    && (turns == [] || !turns[0].DatagramSent?
        || (var polls := turns[0].polls;
            && |polls| > 0 && s.queued + 1 <= U64_MAX
            && B.CountersWithin(polls, low, s.baseline + s.queued + 1)
            && ValidTurns(B.Queue(s), turns[1..], polls[|polls| - 1].counter, now)))
  }

  lemma {:induction false} ValidTurnsIgnoreCache(s: B.State, t: nat, turns: seq<Turn>, low: nat, now: nat)
    ensures ValidTurns(s.(transmitted := t), turns, low, now) == ValidTurns(s, turns, low, now)
    decreases |turns|
  {
    if turns != [] && turns[0].DatagramSent? && turns[0].polls != [] {
      ValidTurnsIgnoreCache(B.Queue(s), t, turns[1..], turns[0].polls[|turns[0].polls| - 1].counter, now);
    }
  }

  /** Over a whole datagram benchmark with a cap: at most `cap` outstanding between turns, `cap` + 1 at any time. */
  lemma {:induction false} BenchStaysWithinCap(s: B.State, payload: nat, deadline: real, turns: seq<Turn>,
                                               low: nat, now: nat)
    requires 0 < s.cap && s.baseline <= low && s.transmitted <= low - s.baseline <= s.queued
    requires B.Outstanding(s, low) <= s.cap && ValidTurns(s, turns, low, now)
    ensures var t := SendDatagrams(s, payload, deadline, turns);
            && B.Outstanding(t.state, now) <= s.cap + 1
            && (!OneUncounted(t.end) ==> B.Outstanding(t.state, now) <= s.cap)
    decreases |turns|
  {
    if turns != [] && turns[0].DatagramSent? {
      var polls := turns[0].polls;
      var last, w := polls[|polls| - 1].counter, B.Wait(B.Queue(s), Some(deadline), polls);
      B.CountersRise(polls, low, s.baseline + s.queued + 1, 0);
      B.SendStaysWithinCap(s, Some(deadline), polls, low, last);
      B.CountersRise(polls, low, s.baseline + s.queued + 1, w.polls);
      if w.outcome == B.Ready {
        ValidTurnsIgnoreCache(B.Queue(s), w.state.transmitted, turns[1..], last, now);
        BenchStaysWithinCap(w.state, payload, deadline, turns[1..], last, now);
      } else {
        B.SendStaysWithinCap(s, Some(deadline), polls, low, now);
      }
    }
  }
}
