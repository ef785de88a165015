/** The summary line a benchmark ends with: what the server prints and what the client reads back. */
module BenchSummary {
  import opened Wrappers
  import opened Text
  import opened Auth

  const SUMMARY_MAGIC := "LVPNBENCH "
  const READ_LIMIT := 1024

  // Whole milliseconds of a Duration, whose seconds are a u64.
  type millis = n: nat | n <= U64_MAX * 1000 + 999

  datatype ConnectionStats = ConnectionStats(
    udpTxDatagrams: u64, udpTxBytes: u64, udpRxDatagrams: u64, udpRxBytes: u64,
    lostPackets: u64, lostBytes: u64, congestionEvents: u64, cwnd: u64, rttMs: millis, currentMtu: u64,
    frameTxDatagram: u64, frameRxDatagram: u64)

  datatype Summary = Summary(
    direction: BenchDirection, bytes: u64, packets: u64, payloadBytes: u64, targetMbps: Option<u64>,
    elapsedMs: millis, measuredElapsedMs: millis, stats: ConnectionStats)

  const KEYS: seq<string> :=
    ["direction", "bytes", "packets", "payload_bytes", "target_mbps", "elapsed_ms", "measured_elapsed_ms",
     "udp_tx_datagrams", "udp_tx_bytes", "udp_rx_datagrams", "udp_rx_bytes", "lost_packets", "lost_bytes",
     "congestion_events", "cwnd", "rtt_ms", "current_mtu", "frame_tx_datagram", "frame_rx_datagram"]

  function Values(s: Summary): seq<string> {
    [DirectionName(s.direction), Decimal(s.bytes), Decimal(s.packets), Decimal(s.payloadBytes),
     if s.targetMbps.Some? then Decimal(s.targetMbps.value) else "unlimited",
     Decimal(s.elapsedMs), Decimal(s.measuredElapsedMs),
     Decimal(s.stats.udpTxDatagrams), Decimal(s.stats.udpTxBytes),
     Decimal(s.stats.udpRxDatagrams), Decimal(s.stats.udpRxBytes),
     Decimal(s.stats.lostPackets), Decimal(s.stats.lostBytes), Decimal(s.stats.congestionEvents), Decimal(s.stats.cwnd),
     Decimal(s.stats.rttMs), Decimal(s.stats.currentMtu),
     Decimal(s.stats.frameTxDatagram), Decimal(s.stats.frameRxDatagram)]
  }

  // key=value words.
  function Pairs(keys: seq<string>, values: seq<string>): seq<string>
    requires |keys| == |values|
  {
    seq(|keys|, i requires 0 <= i < |keys| => keys[i] + "=" + values[i])
  }

  function SummaryText(s: Summary): string {
    SUMMARY_MAGIC + Join(Pairs(KEYS, Values(s))) + "\n"
  }

  // ----- Parsing

  datatype ReadError = TooLong | NotASummary

  function ParseBenchSummary(packet: string): Option<string> {
    if SUMMARY_MAGIC <= packet then Some(Trim(packet[|SUMMARY_MAGIC|..])) else None
  }

  function ReadBenchSummary(packet: string): Result<string, ReadError> {
    if Utf8Length(packet) > READ_LIMIT then Err(TooLong)
    else
      match ParseBenchSummary(packet)
      case None => Err(NotASummary)
      case Some(summary) => Ok(summary)
  }

  // The rest of the first word that starts with the prefix.
  function FindPrefixed(words: seq<string>, prefix: string): Option<string> {
    if words == [] then None
    else if prefix <= words[0] then Some(words[0][|prefix|..])
    else FindPrefixed(words[1..], prefix)
  }

  function ParseSummaryU64(summary: string, key: string): Option<u64> {
    match FindPrefixed(SplitWhitespace(summary), key + "=")
    case None => None
    case Some(value) => ParseU64(value)
  }

  datatype Measurement = Measurement(bytes: u64, packets: u64, lostPackets: u64, congestionEvents: u64, elapsedMs: u64)

  function ParseMeasurement(summary: string): Option<Measurement> {
    var bytes, packets := ParseSummaryU64(summary, "bytes"), ParseSummaryU64(summary, "packets");
    var measured, elapsed := ParseSummaryU64(summary, "measured_elapsed_ms"), ParseSummaryU64(summary, "elapsed_ms");
    if bytes.None? || packets.None? || (measured.None? && elapsed.None?) then None
    else
      Some(Measurement(bytes.value, packets.value,
                       ParseSummaryU64(summary, "lost_packets").GetOr(0),
                       ParseSummaryU64(summary, "congestion_events").GetOr(0),
                       if measured.Some? then measured.value else elapsed.value))
  }

  // ----- The characters of keys and values

  predicate IsTokenChar(c: char) {
    'a' <= c <= 'z' || '0' <= c <= '9' || c == '_' || c == '-'
  }

  predicate IsToken(s: string) {
    s != "" && forall i :: 0 <= i < |s| ==> IsTokenChar(s[i])
  }

  predicate IsShortToken(s: string) {
    IsToken(s) && |s| <= 23
  }

  lemma KeysAreTokens(k: nat)
    requires k < |KEYS|
    ensures IsToken(KEYS[k]) && |KEYS[k]| <= 19
  {
    if k < 10 {
      FirstKeysAreTokens(k);
    }
  }

  lemma FirstKeysAreTokens(k: nat)
    requires k < 10
    ensures IsToken(KEYS[k]) && |KEYS[k]| <= 19
  {
  }

  lemma DecimalIsShort(n: nat)
    requires n <= U64_MAX * 1000 + 999
    ensures IsShortToken(Decimal(n))
  {
    assert PowerOfTen(3) == 1000;
    assert PowerOfTen(8) == 100000 * PowerOfTen(3);
    assert PowerOfTen(13) == 100000 * PowerOfTen(8);
    assert PowerOfTen(18) == 100000 * PowerOfTen(13);
    assert PowerOfTen(23) == 100000 * PowerOfTen(18);
    DecimalLength(n, 23);
  }

  lemma DirectionIsShort(d: BenchDirection)
    ensures IsShortToken(DirectionName(d))
  {
  }

  lemma ValuesAreShort(s: Summary, k: nat)
    requires k < |KEYS|
    ensures IsShortToken(Values(s)[k])
  {
    DirectionIsShort(s.direction);
    forall n: nat | n <= U64_MAX * 1000 + 999 ensures IsShortToken(Decimal(n)) {
      DecimalIsShort(n);
    }
  }

  // ----- Looking a key up

  // A word starts with `key=` only if that is its whole key: "payload_bytes=" does not match "bytes".
  lemma PrefixIsWholeKey(key: string, k: string, v: string)
    requires '=' !in key && '=' !in k
    ensures key + "=" <= k + "=" + v <==> key == k
    ensures (k + "=" + v)[|k + "="|..] == v
  {
    var p, w := key + "=", k + "=" + v;
    assert w[|k|] == '=' && p[|key|] == '=';
    assert w[..|k|] == k && p[..|key|] == key;
    assert |key| < |k| ==> k[|key|] == w[|key|];
    assert |k| < |key| ==> key[|k|] == p[|k|];
    assert p <= w && |key| == |k| ==> key == w[..|key|];
  }

  lemma {:induction false} FindAt(keys: seq<string>, values: seq<string>, k: nat)
    requires |keys| == |values| && k < |keys|
    requires forall i :: 0 <= i < |keys| ==> '=' !in keys[i]
    requires forall i :: 0 <= i < k ==> keys[i] != keys[k]
    ensures FindPrefixed(Pairs(keys, values), keys[k] + "=") == Some(values[k])
  {
    var words := Pairs(keys, values);
    PrefixIsWholeKey(keys[k], keys[0], values[0]);
    if k > 0 {
      FindAt(keys[1..], values[1..], k - 1);
      assert words[1..] == Pairs(keys[1..], values[1..]);
    }
  }

  function Line(s: Summary): string {
    Join(Pairs(KEYS, Values(s)))
  }

  lemma PairIsWord(k: string, v: string)
    requires IsToken(k) && IsToken(v)
    ensures IsWord(k + "=" + v) && '=' !in k
    ensures IsAscii(k + "=" + v)
  {
  }

  lemma PairsAreWords(s: Summary)
    ensures forall i :: 0 <= i < |KEYS| ==> '=' !in KEYS[i]
    ensures var words := Pairs(KEYS, Values(s));
            forall i :: 0 <= i < |words| ==> IsWord(words[i]) && IsAscii(words[i]) && |words[i]| <= 43
  {
    forall i | 0 <= i < |KEYS|
      ensures var words := Pairs(KEYS, Values(s));
              '=' !in KEYS[i] && IsWord(words[i]) && IsAscii(words[i]) && |words[i]| <= 43
    {
      KeysAreTokens(i);
      ValuesAreShort(s, i);
      PairIsWord(KEYS[i], Values(s)[i]);
    }
  }

  lemma LookUp(s: Summary, k: nat)
    requires k < |KEYS| && IsFirst(k)
    ensures ParseSummaryU64(Line(s), KEYS[k]) == ParseU64(Values(s)[k])
  {
    PairsAreWords(s);
    SplitJoin(Pairs(KEYS, Values(s)));
    FindAt(KEYS, Values(s), k);
  }

  // The k-th field has this key, which does not come earlier, and prints this number.
  predicate IsField(s: Summary, k: nat, key: string, n: nat) {
    k < |KEYS| && KEYS[k] == key && IsFirst(k) && Values(s)[k] == Decimal(n)
  }

  lemma LookUpNumber(s: Summary, k: nat, key: string, n: nat)
    requires IsField(s, k, key, n)
    ensures ParseSummaryU64(Line(s), key) == if n <= U64_MAX then Some(n) else None
  {
    LookUp(s, k);
    DecimalRoundTrip(n);
  }

  predicate IsFirst(k: nat)
    requires k < |KEYS|
  {
    forall i :: 0 <= i < k ==> KEYS[i] != KEYS[k]
  }

  // No key is printed twice.
  lemma KeysAreDistinct(k: nat)
    requires k < |KEYS|
    ensures IsFirst(k)
  {
  }

  /** Every field of the summary, not only those the client looks for, is found again under its own key. */
  lemma EveryFieldReadsBack(s: Summary, k: nat)
    requires k < |KEYS|
    ensures FindPrefixed(SplitWhitespace(Line(s)), KEYS[k] + "=") == Some(Values(s)[k])
    ensures forall n: nat | Values(s)[k] == Decimal(n) ::
              ParseSummaryU64(Line(s), KEYS[k]) == if n <= U64_MAX then Some(n) else None
  {
    KeysAreDistinct(k);
    PairsAreWords(s);
    SplitJoin(Pairs(KEYS, Values(s)));
    FindAt(KEYS, Values(s), k);
    forall n: nat | Values(s)[k] == Decimal(n)
      ensures ParseSummaryU64(Line(s), KEYS[k]) == if n <= U64_MAX then Some(n) else None
    {
      DecimalRoundTrip(n);
    }
  }

  // Which key is where, and which counter it stands for.
  lemma KeyNames()
    ensures |KEYS| == 19
    ensures KEYS[0] == "direction"
    ensures KEYS[1] == "bytes"
    ensures KEYS[2] == "packets"
    ensures KEYS[3] == "payload_bytes"
    ensures KEYS[4] == "target_mbps"
    ensures KEYS[5] == "elapsed_ms"
    ensures KEYS[6] == "measured_elapsed_ms"
    ensures KEYS[7] == "udp_tx_datagrams"
    ensures KEYS[8] == "udp_tx_bytes"
    ensures KEYS[9] == "udp_rx_datagrams"
    ensures KEYS[10] == "udp_rx_bytes"
    ensures KEYS[11] == "lost_packets"
    ensures KEYS[12] == "lost_bytes"
    ensures KEYS[13] == "congestion_events"
    ensures KEYS[14] == "cwnd"
    ensures KEYS[15] == "rtt_ms"
    ensures KEYS[16] == "current_mtu"
    ensures KEYS[17] == "frame_tx_datagram"
    ensures KEYS[18] == "frame_rx_datagram"
  {
  }

  lemma CountsByPosition(s: Summary)
    ensures Values(s)[0] == DirectionName(s.direction)
    ensures Values(s)[4] == match s.targetMbps case None => "unlimited" case Some(mbps) => Decimal(mbps)
    ensures Values(s)[1] == Decimal(s.bytes)
    ensures Values(s)[2] == Decimal(s.packets)
    ensures Values(s)[3] == Decimal(s.payloadBytes)
    ensures Values(s)[5] == Decimal(s.elapsedMs)
    ensures Values(s)[6] == Decimal(s.measuredElapsedMs)
  {
  }

  lemma StatsByPosition(s: Summary)
    ensures Values(s)[7] == Decimal(s.stats.udpTxDatagrams)
    ensures Values(s)[8] == Decimal(s.stats.udpTxBytes)
    ensures Values(s)[9] == Decimal(s.stats.udpRxDatagrams)
    ensures Values(s)[10] == Decimal(s.stats.udpRxBytes)
    ensures Values(s)[11] == Decimal(s.stats.lostPackets)
    ensures Values(s)[12] == Decimal(s.stats.lostBytes)
    ensures Values(s)[13] == Decimal(s.stats.congestionEvents)
    ensures Values(s)[14] == Decimal(s.stats.cwnd)
    ensures Values(s)[15] == Decimal(s.stats.rttMs)
    ensures Values(s)[16] == Decimal(s.stats.currentMtu)
    ensures Values(s)[17] == Decimal(s.stats.frameTxDatagram)
    ensures Values(s)[18] == Decimal(s.stats.frameRxDatagram)
  {
  }

  lemma BytesField(s: Summary)
    ensures IsField(s, 1, "bytes", s.bytes)
  {
  }

  lemma PacketsField(s: Summary)
    ensures IsField(s, 2, "packets", s.packets)
  {
  }

  lemma ElapsedField(s: Summary)
    ensures IsField(s, 5, "elapsed_ms", s.elapsedMs)
  {
  }

  lemma MeasuredField(s: Summary)
    ensures IsField(s, 6, "measured_elapsed_ms", s.measuredElapsedMs)
  {
  }

  lemma LostPacketsField(s: Summary)
    ensures IsField(s, 11, "lost_packets", s.stats.lostPackets)
  {
  }

  lemma CongestionField(s: Summary)
    ensures IsField(s, 13, "congestion_events", s.stats.congestionEvents)
  {
  }

  // ----- The size of the text

  predicate IsAscii(s: string) {
    forall i :: 0 <= i < |s| ==> s[i] < '\U{0080}'
  }

  lemma {:induction false} AsciiLength(s: string)
    requires IsAscii(s)
    ensures Utf8Length(s) == |s|
  {
    if s != "" {
      AsciiLength(s[1..]);
    }
  }

  lemma {:induction false} JoinIsShort(words: seq<string>)
    requires forall i :: 0 <= i < |words| ==> IsAscii(words[i]) && |words[i]| <= 43
    ensures IsAscii(Join(words)) && |Join(words)| <= 44 * |words|
  {
    if |words| > 1 {
      JoinIsShort(words[1..]);
    }
  }

  /** The printed text always fits the reader's limit. */
  lemma SummaryFits(s: Summary)
    ensures Utf8Length(SummaryText(s)) <= 1024
  {
    PairsAreWords(s);
    JoinIsShort(Pairs(KEYS, Values(s)));
    AsciiLength(SummaryText(s));
  }

  // ----- Round trip

  lemma {:induction false} JoinEnds(words: seq<string>)
    requires words != [] && forall i :: 0 <= i < |words| ==> IsWord(words[i])
    ensures var j := Join(words); j != "" && !IsWhitespace(j[0]) && !IsWhitespace(j[|j| - 1])
  {
    if |words| > 1 {
      JoinEnds(words[1..]);
    }
  }

  lemma SummaryIsRead(s: Summary)
    ensures ReadBenchSummary(SummaryText(s)) == Ok(Line(s))
  {
    SummaryFits(s);
    PairsAreWords(s);
    JoinEnds(Pairs(KEYS, Values(s)));
    TrimLine(Line(s));
    var text := SummaryText(s);
    assert text == SUMMARY_MAGIC + (Line(s) + "\n");
    assert text[|SUMMARY_MAGIC|..] == Line(s) + "\n";
  }

  /** A text is a summary exactly if it has the magic and fits the limit. */
  lemma ReadIffMagic(packet: string, summary: string)
    ensures ReadBenchSummary(packet).Ok? <==> Utf8Length(packet) <= 1024 && "LVPNBENCH " <= packet
    ensures ReadBenchSummary("LVPNBENCH " + summary).Ok? ==>
              ReadBenchSummary("LVPNBENCH " + summary).value == Trim(summary)
  {
    assert ("LVPNBENCH " + summary)[|"LVPNBENCH "|..] == summary;
  }

  const OLDER_KEYS: seq<string> := ["bytes", "packets", "elapsed_ms"]

  function OlderLine(values: seq<string>): string
    requires |values| == 3
  {
    Join(Pairs(OLDER_KEYS, values))
  }

  lemma OlderWords(values: seq<string>)
    requires |values| == 3 && forall i :: 0 <= i < 3 ==> IsToken(values[i])
    ensures SplitWhitespace(OlderLine(values)) == Pairs(OLDER_KEYS, values)
    ensures forall i :: 0 <= i < 3 ==> '=' !in OLDER_KEYS[i]
  {
    forall i | 0 <= i < 3 ensures IsWord(Pairs(OLDER_KEYS, values)[i]) && '=' !in OLDER_KEYS[i] {
      PairIsWord(OLDER_KEYS[i], values[i]);
    }
    SplitJoin(Pairs(OLDER_KEYS, values));
  }

  lemma OlderHas(values: seq<string>, k: nat)
    requires |values| == 3 && k < 3 && forall i :: 0 <= i < 3 ==> IsToken(values[i])
    ensures ParseSummaryU64(OlderLine(values), OLDER_KEYS[k]) == ParseU64(values[k])
  {
    OlderWords(values);
    FindAt(OLDER_KEYS, values, k);
  }

  lemma OlderLacks(values: seq<string>, key: string)
    requires |values| == 3 && '=' !in key && key !in OLDER_KEYS
    requires forall i :: 0 <= i < 3 ==> IsToken(values[i])
    ensures ParseSummaryU64(OlderLine(values), key) == None
  {
    OlderWords(values);
    FindNone(OLDER_KEYS, values, key);
  }

  // Without a measured time the total time counts, and missing loss counters are zero.
  lemma OlderSummaryIsUnderstood(bytes: u64, packets: u64, elapsedMs: u64)
    ensures ParseMeasurement(OlderLine([Decimal(bytes), Decimal(packets), Decimal(elapsedMs)]))
            == Some(Measurement(bytes, packets, 0, 0, elapsedMs))
  {
    var values := [Decimal(bytes), Decimal(packets), Decimal(elapsedMs)];
    DecimalIsShort(bytes);
    DecimalIsShort(packets);
    DecimalIsShort(elapsedMs);
    DecimalRoundTrip(bytes);
    DecimalRoundTrip(packets);
    DecimalRoundTrip(elapsedMs);
    OlderHas(values, 0);
    OlderHas(values, 1);
    OlderHas(values, 2);
    OlderLacks(values, "measured_elapsed_ms");
    OlderLacks(values, "lost_packets");
    OlderLacks(values, "congestion_events");
  }

  lemma {:induction false} FindNone(keys: seq<string>, values: seq<string>, key: string)
    requires |keys| == |values| && '=' !in key
    requires forall i :: 0 <= i < |keys| ==> '=' !in keys[i] && keys[i] != key
    ensures FindPrefixed(Pairs(keys, values), key + "=") == None
  {
    if keys != [] {
      PrefixIsWholeKey(key, keys[0], values[0]);
      FindNone(keys[1..], values[1..], key);
      assert Pairs(keys, values)[1..] == Pairs(keys[1..], values[1..]);
    }
  }

  /**
   The client recovers every counter it looks for from the printed summary, although other keys
   end in the same letters; a measured time beyond 64 bits falls back to the total time.
   */
  lemma SummaryRoundTrip(s: Summary)
    ensures var r := ReadBenchSummary(SummaryText(s));
            && r.Ok?
            && ParseMeasurement(r.value)
               == if s.measuredElapsedMs <= U64_MAX
                  then Some(Measurement(s.bytes, s.packets, s.stats.lostPackets, s.stats.congestionEvents,
                                        s.measuredElapsedMs))
                  else if s.elapsedMs <= U64_MAX
                  then Some(Measurement(s.bytes, s.packets, s.stats.lostPackets, s.stats.congestionEvents, s.elapsedMs))
                  else None
  {
    SummaryIsRead(s);
    BytesField(s);
    PacketsField(s);
    ElapsedField(s);
    MeasuredField(s);
    LostPacketsField(s);
    CongestionField(s);
    LookUpNumber(s, 1, "bytes", s.bytes);
    LookUpNumber(s, 2, "packets", s.packets);
    LookUpNumber(s, 5, "elapsed_ms", s.elapsedMs);
    LookUpNumber(s, 6, "measured_elapsed_ms", s.measuredElapsedMs);
    LookUpNumber(s, 11, "lost_packets", s.stats.lostPackets);
    LookUpNumber(s, 13, "congestion_events", s.stats.congestionEvents);
  }
}
