/** Length-prefixed packets on a byte stream: what the writer puts on the wire and what a reader makes of any bytes. */
module Framing {

  const HEADER_BYTES := 2
  const MAX_FRAME := 0xFFFF  // the largest length a u16 header can carry

  newtype byte = b: int | 0 <= b < 256
  type Packet = seq<byte>

  /** How a stream ends after its last byte: finished by the sender, or with the connection. */
  datatype Ending = Finished | ConnectionLost

  datatype ReadError = MidFrame | MidPacket | TooLarge(len: nat) | Lost

  function Header(len: nat): (h: seq<byte>)
    requires len <= MAX_FRAME
    ensures |h| == HEADER_BYTES && h[0] as nat * 256 + h[1] as nat == len
  {
    [(len / 256) as byte, (len % 256) as byte]
  }

  function Length(hi: byte, lo: byte): nat {
    hi as nat * 256 + lo as nat
  }

  predicate Framable(packets: seq<Packet>) {
    forall i :: 0 <= i < |packets| ==> |packets[i]| <= MAX_FRAME
  }

  predicate AllFit(packets: seq<Packet>, cap: nat) {
    forall i :: 0 <= i < |packets| ==> |packets[i]| <= cap
  }

  function Encode(p: Packet): seq<byte>
    requires |p| <= MAX_FRAME
  {
    Header(|p|) + p
  }

  function EncodeAll(packets: seq<Packet>): seq<byte>
    requires Framable(packets)
  {
    if packets == [] then [] else Encode(packets[0]) + EncodeAll(packets[1..])
  }

  lemma {:induction false} EncodeAppend(a: seq<Packet>, b: seq<Packet>)
    requires Framable(a) && Framable(b)
    ensures EncodeAll(a + b) == EncodeAll(a) + EncodeAll(b)
  {
    if a == [] {
      assert a + b == b;
    } else {
      assert (a + b)[1..] == a[1..] + b;
      EncodeAppend(a[1..], b);
    }
  }

  // ----- Reading

  datatype Exact = Filled | AtEof | Failed(error: ReadError)

  // Filling n bytes from a stream that still holds `data`, however the data is chunked.
  function ReadExact(data: seq<byte>, ending: Ending, n: nat): Exact {
    if n <= |data| then Filled
    else if ending == ConnectionLost then Failed(Lost)
    else if data == [] then AtEof
    else Failed(MidFrame)
  }

  datatype Read = Frame(payload: Packet, rest: seq<byte>) | EndOfStream | ReadFailed(error: ReadError)

  function ReadPacket(data: seq<byte>, ending: Ending, cap: nat): Read {
    match ReadExact(data, ending, HEADER_BYTES)
    case AtEof => EndOfStream
    case Failed(e) => ReadFailed(e)
    case Filled =>
      var len, body := Length(data[0], data[1]), data[HEADER_BYTES..];
      if len == 0 then Frame([], body)
      else if len > cap then ReadFailed(TooLarge(len))
      else
        match ReadExact(body, ending, len)
        case Filled => Frame(body[..len], body[len..])
        case AtEof => ReadFailed(MidPacket)
        case Failed(e) => ReadFailed(e)
  }

  /** Everything a reader gets: the packets, then a clean end (no error) or the error that stopped it. */
  datatype Received = Clean(packets: seq<Packet>) | Broken(packets: seq<Packet>, error: ReadError)

  function Prepend(p: Packet, r: Received): Received {
    r.(packets := [p] + r.packets)
  }

  function ReadAll(data: seq<byte>, ending: Ending, cap: nat): Received
    decreases |data|
  {
    match ReadPacket(data, ending, cap)
    case EndOfStream => Clean([])
    case ReadFailed(e) => Broken([], e)
    case Frame(p, rest) => Prepend(p, ReadAll(rest, ending, cap))
  }

  // ----- What was written is read back

  lemma ReadEncoded(p: Packet, tail: seq<byte>, ending: Ending, cap: nat)
    requires |p| <= MAX_FRAME && |p| <= cap
    ensures ReadPacket(Encode(p) + tail, ending, cap) == Frame(p, tail)
  {
    var data := Encode(p) + tail;
    assert data[HEADER_BYTES..] == p + tail;
    assert (p + tail)[..|p|] == p && (p + tail)[|p|..] == tail;
  }

  lemma ReadOne(p: Packet, tail: seq<byte>, ending: Ending, cap: nat)
    requires |p| <= MAX_FRAME && |p| <= cap
    ensures ReadAll(Encode(p) + tail, ending, cap) == Prepend(p, ReadAll(tail, ending, cap))
  {
    ReadEncoded(p, tail, ending, cap);
  }

  lemma SplitFirst(packets: seq<Packet>, tail: seq<byte>)
    requires packets != [] && Framable(packets)
    ensures EncodeAll(packets) + tail == Encode(packets[0]) + (EncodeAll(packets[1..]) + tail)
  {
  }

  function After(packets: seq<Packet>, r: Received): Received {
    r.(packets := packets + r.packets)
  }

  lemma PrependAfter(packets: seq<Packet>, r: Received)
    requires packets != []
    ensures Prepend(packets[0], After(packets[1..], r)) == After(packets, r)
  {
    assert [packets[0]] + (packets[1..] + r.packets) == packets + r.packets;
  }

  /** Reading is transparent to any list of whole frames in front of any bytes. */
  lemma {:induction false} ReadEncodedAll(packets: seq<Packet>, tail: seq<byte>, ending: Ending, cap: nat)
    requires Framable(packets) && AllFit(packets, cap)
    ensures ReadAll(EncodeAll(packets) + tail, ending, cap) == After(packets, ReadAll(tail, ending, cap))
  {
    if packets == [] {
      assert EncodeAll(packets) + tail == tail;
    } else {
      SplitFirst(packets, tail);
      ReadOne(packets[0], EncodeAll(packets[1..]) + tail, ending, cap);
      ReadEncodedAll(packets[1..], tail, ending, cap);
      PrependAfter(packets, ReadAll(tail, ending, cap));
    }
  }

  lemma RoundTrip(packets: seq<Packet>, cap: nat)
    requires Framable(packets) && AllFit(packets, cap)
    ensures ReadAll(EncodeAll(packets), Finished, cap) == Clean(packets)
  {
    ReadEncodedAll(packets, [], Finished, cap);
    assert EncodeAll(packets) + [] == EncodeAll(packets);
  }

  /** Different packet lists are different on the wire. */
  lemma EncodingIsInjective(a: seq<Packet>, b: seq<Packet>)
    requires Framable(a) && Framable(b) && EncodeAll(a) == EncodeAll(b)
    ensures a == b
  {
    RoundTrip(a, MAX_FRAME);
    RoundTrip(b, MAX_FRAME);
  }

  lemma FrameSplits(data: seq<byte>, ending: Ending, cap: nat)
    requires ReadPacket(data, ending, cap).Frame?
    ensures var f := ReadPacket(data, ending, cap);
            |f.payload| <= MAX_FRAME && |f.payload| <= cap && data == Encode(f.payload) + f.rest
  {
  }

  // What a read result says about the bytes it came from.
  ghost predicate Faithful(data: seq<byte>, ending: Ending, cap: nat, r: Received) {
    && Framable(r.packets) && AllFit(r.packets, cap)
    && EncodeAll(r.packets) <= data
    && (r.Clean? <==> ending == Finished && EncodeAll(r.packets) == data)
  }

  lemma PrependFaithful(p: Packet, rest: seq<byte>, ending: Ending, cap: nat, r: Received)
    requires Faithful(rest, ending, cap, r) && |p| <= MAX_FRAME && |p| <= cap
    ensures Faithful(Encode(p) + rest, ending, cap, Prepend(p, r))
  {
    var all := Prepend(p, r).packets;
    assert all[0] == p && all[1..] == r.packets;
    assert EncodeAll(all) == Encode(p) + EncodeAll(r.packets);
    if r.Broken? && ending == Finished {
      assert rest == (Encode(p) + rest)[|Encode(p)|..];
      assert EncodeAll(r.packets) == EncodeAll(all)[|Encode(p)|..];
    }
  }

  /** Conversely, whatever bytes arrive, the packets read are exactly the frames they start with. */
  lemma {:induction false} ReadIsFaithful(data: seq<byte>, ending: Ending, cap: nat)
    ensures Faithful(data, ending, cap, ReadAll(data, ending, cap))
    decreases |data|
  {
    match ReadPacket(data, ending, cap)
    case EndOfStream =>
    case ReadFailed(e) =>
      assert ending == Finished ==> data != [];
    case Frame(p, rest) =>
      FrameSplits(data, ending, cap);
      ReadIsFaithful(rest, ending, cap);
      PrependFaithful(p, rest, ending, cap, ReadAll(rest, ending, cap));
  }

  // ----- Truncation at any byte

  // How many of the packets have their whole frame within the first k bytes.
  function FramesWithin(packets: seq<Packet>, k: nat): (m: nat)
    requires Framable(packets)
    ensures m <= |packets|
  {
    if packets == [] || |Encode(packets[0])| > k then 0
    else 1 + FramesWithin(packets[1..], k - |Encode(packets[0])|)
  }

  function FrameBoundary(packets: seq<Packet>, k: nat): nat
    requires Framable(packets)
  {
    |EncodeAll(packets[..FramesWithin(packets, k)])|
  }

  // What a reader reports for the last `extra` bytes, which are no whole frame.
  function CutError(extra: nat, ending: Ending): ReadError {
    if ending == ConnectionLost then Lost
    else if extra == HEADER_BYTES then MidPacket
    else MidFrame
  }

  // What a reader should make of the first k bytes of the encoding.
  function CutResult(packets: seq<Packet>, k: nat, ending: Ending): Received
    requires Framable(packets) && FrameBoundary(packets, k) <= k
  {
    var m, extra := FramesWithin(packets, k), k - FrameBoundary(packets, k);
    if extra == 0 && ending == Finished then Clean(packets[..m]) else Broken(packets[..m], CutError(extra, ending))
  }

  lemma CutFrame(p: Packet, k: nat, ending: Ending, cap: nat)
    requires |p| <= MAX_FRAME && |p| <= cap && k < |Encode(p)|
    ensures ReadAll(Encode(p)[..k], ending, cap)
            == if k == 0 && ending == Finished then Clean([]) else Broken([], CutError(k, ending))
  {
  }

  // Cutting inside the first frame, and cutting behind it.
  lemma CutSplits(packets: seq<Packet>, k: nat)
    requires Framable(packets) && packets != [] && k <= |EncodeAll(packets)|
    ensures var frame := Encode(packets[0]);
            EncodeAll(packets)[..k]
            == if k <= |frame| then frame[..k] else frame + EncodeAll(packets[1..])[..k - |frame|]
  {
  }

  lemma CutResultStep(packets: seq<Packet>, k: nat, ending: Ending)
    requires Framable(packets) && packets != [] && |Encode(packets[0])| <= k
    requires FrameBoundary(packets[1..], k - |Encode(packets[0])|) <= k - |Encode(packets[0])|
    ensures FrameBoundary(packets, k) <= k
    ensures CutResult(packets, k, ending)
            == Prepend(packets[0], CutResult(packets[1..], k - |Encode(packets[0])|, ending))
  {
    var m := FramesWithin(packets, k);
    assert packets[..m][0] == packets[0] && packets[..m][1..] == packets[1..][..m - 1];
    assert packets[..m] == [packets[0]] + packets[1..][..m - 1];
  }

  /**
   A stream cut after any k bytes yields exactly the packets whose frames fit, then a clean end if
   it was finished on a frame boundary and an error otherwise.
   */
  lemma {:induction false} Truncation(packets: seq<Packet>, k: nat, ending: Ending, cap: nat)
    requires Framable(packets) && AllFit(packets, cap) && k <= |EncodeAll(packets)|
    ensures FrameBoundary(packets, k) <= k
    ensures ReadAll(EncodeAll(packets)[..k], ending, cap) == CutResult(packets, k, ending)
  {
    if packets != [] {
      var frame := |Encode(packets[0])|;
      CutSplits(packets, k);
      if k < frame {
        CutFrame(packets[0], k, ending, cap);
      } else {
        Truncation(packets[1..], k - frame, ending, cap);
        CutResultStep(packets, k, ending);
        assert k == frame ==> Encode(packets[0])[..k] == Encode(packets[0]) + EncodeAll(packets[1..])[..0];
        ReadOne(packets[0], EncodeAll(packets[1..])[..k - frame], ending, cap);
      }
    }
  }

  /** How a cut stream ends: cleanly if finished on a boundary, otherwise with the error for where it was cut. */
  lemma TruncationEnd(packets: seq<Packet>, k: nat, ending: Ending, cap: nat)
    requires Framable(packets) && AllFit(packets, cap) && k <= |EncodeAll(packets)|
    ensures FrameBoundary(packets, k) <= k
    ensures var r, extra := ReadAll(EncodeAll(packets)[..k], ending, cap), k - FrameBoundary(packets, k);
            && (r.Clean? <==> ending == Finished && extra == 0)
            && (r.Broken? ==> (r.error == Lost <==> ending == ConnectionLost))
            && (r.Broken? && ending == Finished ==> r.error == if extra == 2 then MidPacket else MidFrame)
  {
    Truncation(packets, k, ending, cap);
  }

  /** `FramesWithin` counts as many frames as possible: one more would not fit. */
  lemma {:induction false} FramesWithinIsMaximal(packets: seq<Packet>, k: nat, m: nat)
    requires Framable(packets) && m <= |packets|
    ensures |EncodeAll(packets[..m])| <= k <==> m <= FramesWithin(packets, k)
  {
    if m > 0 {
      assert packets[..m][1..] == packets[1..][..m - 1];
      var frame := |Encode(packets[0])|;
      if frame <= k {
        FramesWithinIsMaximal(packets[1..], k - frame, m - 1);
      }
    }
  }

  lemma OversizedFails(p: Packet, tail: seq<byte>, ending: Ending, cap: nat)
    requires cap < |p| <= MAX_FRAME
    ensures ReadAll(Encode(p) + tail, ending, cap) == Broken([], TooLarge(|p|))
  {
  }

  /** A packet larger than the reader's buffer stops the reader after the packets before it. */
  lemma OversizedStops(before: seq<Packet>, p: Packet, tail: seq<byte>, ending: Ending, cap: nat)
    requires Framable(before) && AllFit(before, cap) && cap < |p| <= MAX_FRAME
    ensures ReadAll(EncodeAll(before) + (Encode(p) + tail), ending, cap) == Broken(before, TooLarge(|p|))
  {
    OversizedFails(p, tail, ending, cap);
    ReadEncodedAll(before, Encode(p) + tail, ending, cap);
    assert After(before, Broken([], TooLarge(|p|))).packets == before;
  }
}
