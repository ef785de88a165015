/**
 The authentication request: what the client builds, what the server parses, and when the two
 agree. Requests are strings of Unicode scalar values; their UTF-8 form is only counted.
 */
module Auth {
  import opened Wrappers
  import opened Text

  const AUTH_MAGIC := "LVPN1 "
  const MAX_AUTH_BYTES := 1024
  const MIN_PAYLOAD := 64
  const MAX_PAYLOAD := 1452

  datatype BenchDirection =
    Upload | Download | StreamUpload | StreamDownload | StreamPacketUpload | StreamPacketDownload

  datatype AuthMode =
    | Vpn
    | Bench(direction: BenchDirection, durationSecs: u64, payloadBytes: u64, targetMbps: Option<u64>)

  datatype AuthError =
    | RequestTooLong | BadMagic | MissingNewline | MissingToken | TooManyLines
    | UnknownMode | BadDirection | BadDuration | BadPayload | BadTarget | TooManyFields
    | ZeroDuration | PayloadOutOfRange | WrongToken

  function DirectionName(d: BenchDirection): string {
    match d
    case Upload => "upload"
    case Download => "download"
    case StreamUpload => "stream-upload"
    case StreamDownload => "stream-download"
    case StreamPacketUpload => "stream-packet-upload"
    case StreamPacketDownload => "stream-packet-download"
  }

  function ParseDirection(s: string): Option<BenchDirection> {
    if s == "upload" then Some(Upload)
    else if s == "download" then Some(Download)
    else if s == "stream-upload" then Some(StreamUpload)
    else if s == "stream-download" then Some(StreamDownload)
    else if s == "stream-packet-upload" then Some(StreamPacketUpload)
    else if s == "stream-packet-download" then Some(StreamPacketDownload)
    else None
  }

  predicate UsesDatagrams(d: BenchDirection) {
    d.Upload? || d.Download?
  }

  // ----- The client's side

  function ModeWords(mode: AuthMode): seq<string>
    requires mode.Bench?
  {
    ["bench", DirectionName(mode.direction), Decimal(mode.durationSecs), Decimal(mode.payloadBytes),
     Decimal(mode.targetMbps.GetOr(0))]
  }

  function RequestOf(token: string, mode: AuthMode): string {
    AUTH_MAGIC + token + "\n" + if mode.Vpn? then "" else Join(ModeWords(mode)) + "\n"
  }

  method BuildRequest(token: string, mode: AuthMode) returns (request: string)
    ensures request == RequestOf(token, mode)
  {
    request := AUTH_MAGIC;
    request := request + token;
    request := request + "\n";
    match mode {
      case Vpn =>
        assert request + "" == request;
      case Bench(direction, durationSecs, payloadBytes, targetMbps) =>
        var target := targetMbps.GetOr(0);
        JoinFive("bench", DirectionName(direction), Decimal(durationSecs), Decimal(payloadBytes), Decimal(target));
        var line := "bench" + " " + DirectionName(direction) + " " + Decimal(durationSecs) + " "
                    + Decimal(payloadBytes) + " " + Decimal(target);
        request := request + (line + "\n");
    }
  }

  lemma JoinFive(a: string, b: string, c: string, d: string, e: string)
    ensures Join([a, b, c, d, e]) == a + " " + b + " " + c + " " + d + " " + e
  {
    assert Join([d, e]) == d + " " + e;
    assert Join([c, d, e]) == c + " " + Join([d, e]);
    assert Join([b, c, d, e]) == b + " " + Join([c, d, e]);
    assert Join([a, b, c, d, e]) == a + " " + Join([b, c, d, e]);
  }

  // ----- The server's side

  function ParseMode(line: string): Result<AuthMode, AuthError> {
    var parts := SplitWhitespace(line);
    if |parts| == 0 || parts[0] != "bench" then Err(UnknownMode)
    else if |parts| == 1 || ParseDirection(parts[1]).None? then Err(BadDirection)
    else if |parts| == 2 || ParseU64(parts[2]).None? then Err(BadDuration)
    else if |parts| == 3 || ParseU64(parts[3]).None? then Err(BadPayload)
    else if |parts| > 4 && ParseU64(parts[4]).None? then Err(BadTarget)
    else if |parts| > 5 then Err(TooManyFields)
    else
      var durationSecs, payloadBytes := ParseU64(parts[2]).value, ParseU64(parts[3]).value;
      var target := if |parts| == 4 || ParseU64(parts[4]) == Some(0) then None else ParseU64(parts[4]);
      if durationSecs == 0 then Err(ZeroDuration)
      else if !(MIN_PAYLOAD <= payloadBytes <= MAX_PAYLOAD) then Err(PayloadOutOfRange)
      else Ok(Bench(ParseDirection(parts[1]).value, durationSecs, payloadBytes, target))
  }

  function ParseRequest(request: string): Result<(string, AuthMode), AuthError> {
    if !(AUTH_MAGIC <= request) then Err(BadMagic)
    else
      var payload := request[|AUTH_MAGIC|..];
      if payload == "" || payload[|payload| - 1] != '\n' then Err(MissingNewline)
      else ParsePayload(payload[..|payload| - 1])
  }

  function ParsePayload(payload: string): Result<(string, AuthMode), AuthError> {
    var lines := Lines(payload);
    if |lines| == 0 then Err(MissingToken)
    else if |lines| == 1 then Ok((lines[0], Vpn))
    else
      match ParseMode(lines[1])
      case Err(e) => Err(e)
      case Ok(mode) => if |lines| > 2 then Err(TooManyLines) else Ok((lines[0], mode))
  }

  // ----- When the two agree

  predicate ValidMode(mode: AuthMode) {
    mode.Bench? ==>
      mode.durationSecs > 0 && MIN_PAYLOAD <= mode.payloadBytes <= MAX_PAYLOAD && mode.targetMbps != Some(0)
  }

  predicate GoodRequest(token: string, mode: AuthMode) {
    && '\n' !in token && ValidMode(mode)
    && (if mode.Vpn? then token != "" else !EndsInCr(token))
  }

  lemma DirectionRoundTrip(d: BenchDirection)
    ensures ParseDirection(DirectionName(d)) == Some(d)
    ensures IsWord(DirectionName(d)) && '\n' !in DirectionName(d)
  {
  }

  lemma ModeWordsAreWords(mode: AuthMode)
    requires mode.Bench?
    ensures forall i :: 0 <= i < |ModeWords(mode)| ==> IsWord(ModeWords(mode)[i]) && '\n' !in ModeWords(mode)[i]
  {
    DirectionRoundTrip(mode.direction);
    DecimalIsWord(mode.durationSecs);
    DecimalIsWord(mode.payloadBytes);
    DecimalIsWord(mode.targetMbps.GetOr(0));
  }

  lemma {:induction false} JoinIsLine(words: seq<string>)
    requires words != [] && forall i :: 0 <= i < |words| ==> words[i] != "" && '\n' !in words[i]
    ensures '\n' !in Join(words) && Join(words) != ""
  {
    if |words| > 1 {
      JoinIsLine(words[1..]);
    }
  }

  lemma ParseModeOf(mode: AuthMode)
    requires mode.Bench? && ValidMode(mode)
    ensures ParseMode(Join(ModeWords(mode))) == Ok(mode)
  {
    ModeWordsAreWords(mode);
    SplitJoin(ModeWords(mode));
    DirectionRoundTrip(mode.direction);
    DecimalRoundTrip(mode.durationSecs);
    DecimalRoundTrip(mode.payloadBytes);
    DecimalRoundTrip(mode.targetMbps.GetOr(0));
  }

  /** A benchmark line may leave out the target, which then is unlimited. */
  lemma TargetIsOptional(mode: AuthMode)
    requires mode.Bench? && ValidMode(mode) && mode.targetMbps == None
    ensures ParseMode(Join(ModeWords(mode)[..4])) == Ok(mode)
  {
    ModeWordsAreWords(mode);
    SplitJoin(ModeWords(mode)[..4]);
    DirectionRoundTrip(mode.direction);
    DecimalRoundTrip(mode.durationSecs);
    DecimalRoundTrip(mode.payloadBytes);
  }

  lemma PayloadOf(token: string, mode: AuthMode)
    ensures ParseRequest(RequestOf(token, mode))
            == ParsePayload(if mode.Vpn? then token else token + "\n" + Join(ModeWords(mode)))
  {
    var request := RequestOf(token, mode);
    var rest := if mode.Vpn? then token else token + "\n" + Join(ModeWords(mode));
    assert request == AUTH_MAGIC + (rest + "\n");
    assert request[|AUTH_MAGIC|..] == rest + "\n";
    assert (rest + "\n")[..|rest|] == rest;
  }

  // The two lines of a bench request, when the token has no line feed of its own.
  lemma BenchLines(token: string, mode: AuthMode)
    requires mode.Bench? && '\n' !in token
    ensures Lines(token + "\n" + Join(ModeWords(mode))) == [StripCr(token), Join(ModeWords(mode))]
  {
    ModeWordsAreWords(mode);
    JoinIsLine(ModeWords(mode));
    LastLine(Join(ModeWords(mode)));
    FirstLine(token, Join(ModeWords(mode)));
  }

  lemma ParsedIsGood(payload: string)
    ensures match ParsePayload(payload)
            case Err(_) => true
            case Ok((token, mode)) => '\n' !in token && ValidMode(mode)
  {
    if |Lines(payload)| > 0 {
      LinesHaveNoLineFeed(payload, 0);
    }
  }

  /** The server gets back the client's token and mode exactly for the good requests, over all tokens and modes. */
  lemma RequestRoundTrip(token: string, mode: AuthMode)
    ensures ParseRequest(RequestOf(token, mode)) == Ok((token, mode)) <==> GoodRequest(token, mode)
  {
    PayloadOf(token, mode);
    ParsedIsGood(if mode.Vpn? then token else token + "\n" + Join(ModeWords(mode)));
    if '\n' !in token {
      if mode.Vpn? {
        if token != "" {
          LastLine(token);
        }
      } else {
        BenchLines(token, mode);
        if ValidMode(mode) {
          ParseModeOf(mode);
        }
      }
    }
  }

  /** Good requests differ whenever the tokens or the modes do. */
  lemma RequestsAreInjective(token: string, mode: AuthMode, token': string, mode': AuthMode)
    requires GoodRequest(token, mode) && GoodRequest(token', mode')
    requires RequestOf(token, mode) == RequestOf(token', mode')
    ensures token == token' && mode == mode'
  {
    RequestRoundTrip(token, mode);
    RequestRoundTrip(token', mode');
  }

  // ----- Authentication

  function ServerAuthenticate(request: string, expectedToken: string): Result<AuthMode, AuthError> {
    if Utf8Length(request) > MAX_AUTH_BYTES then Err(RequestTooLong)
    else
      match ParseRequest(request)
      case Err(e) => Err(e)
      case Ok((token, mode)) => if token == expectedToken then Ok(mode) else Err(WrongToken)
  }

  /** A good request is accepted, with the mode it asks for, exactly when it has the right token and fits. */
  lemma ServerAcceptsExactly(token: string, mode: AuthMode, expectedToken: string)
    requires GoodRequest(token, mode)
    ensures var r := ServerAuthenticate(RequestOf(token, mode), expectedToken);
            && (r == Ok(mode) <==> token == expectedToken && Utf8Length(RequestOf(token, mode)) <= MAX_AUTH_BYTES)
            && (r.Ok? ==> r == Ok(mode))
  {
    RequestRoundTrip(token, mode);
  }

  // ----- What the server accepts, of everything a peer can send

  predicate Names(word: string, d: BenchDirection) {
    || (word == "upload" && d == Upload) || (word == "download" && d == Download)
    || (word == "stream-upload" && d == StreamUpload) || (word == "stream-download" && d == StreamDownload)
    || (word == "stream-packet-upload" && d == StreamPacketUpload)
    || (word == "stream-packet-download" && d == StreamPacketDownload)
  }

  // Four or five words that ask for this benchmark.
  predicate WordsAsk(words: seq<string>, mode: AuthMode) {
    && mode.Bench? && 4 <= |words| <= 5 && words[0] == "bench" && Names(words[1], mode.direction)
    && Denotes(words[2], mode.durationSecs) && mode.durationSecs > 0
    && Denotes(words[3], mode.payloadBytes) && 64 <= mode.payloadBytes <= 1452
    && match mode.targetMbps
       case None => |words| == 4 || Denotes(words[4], 0)
       case Some(mbps) => |words| == 5 && Denotes(words[4], mbps) && mbps > 0
  }

  ghost predicate LineAsks(line: string, mode: AuthMode) {
    exists words :: IsWords(line, words) && WordsAsk(words, mode)
  }

  // One line with the token asks for the tunnel, and a second line for a benchmark.
  ghost predicate TextAsks(text: string, token: string, mode: AuthMode) {
    if mode == Vpn then IsLines(text, [token])
    else exists line :: IsLines(text, [token, line]) && LineAsks(line, mode)
  }

  predicate IsFramed(request: string, text: string) {
    request == "LVPN1 " + text + "\n"
  }

  ghost predicate Asks(request: string, token: string, mode: AuthMode) {
    exists text :: IsFramed(request, text) && TextAsks(text, token, mode)
  }

  lemma ModeIffLineAsks(line: string, mode: AuthMode)
    ensures ParseMode(line) == Ok(mode) <==> LineAsks(line, mode)
  {
    var words := SplitWhitespace(line);
    SplitIffWords(line, words);
    forall words' | IsWords(line, words') ensures words' == words {
      SplitIffWords(line, words');
    }
    ModeIffWordsAsk(line, mode);
  }

  lemma ModeIffWordsAsk(line: string, mode: AuthMode)
    ensures ParseMode(line) == Ok(mode) <==> WordsAsk(SplitWhitespace(line), mode)
  {
    var words := SplitWhitespace(line);
    if mode.Bench? && 4 <= |words| <= 5 {
      NamesIffParsed(words[1], mode.direction);
      ParseU64IffDenotes(words[2], mode.durationSecs);
      ParseU64IffDenotes(words[3], mode.payloadBytes);
      if |words| == 5 {
        ParseU64IffDenotes(words[4], mode.targetMbps.GetOr(0));
      }
    }
  }

  lemma NamesIffParsed(word: string, d: BenchDirection)
    ensures ParseDirection(word) == Some(d) <==> Names(word, d)
  {
  }

  lemma PayloadIffTextAsks(text: string, token: string, mode: AuthMode)
    ensures ParsePayload(text) == Ok((token, mode)) <==> TextAsks(text, token, mode)
  {
    var lines := Lines(text);
    SplitIffLines(text, lines);
    SplitIffLines(text, [token]);
    forall line ensures IsLines(text, [token, line]) <==> lines == [token, line] {
      SplitIffLines(text, [token, line]);
    }
    if |lines| > 1 {
      forall mode' ensures ParseMode(lines[1]) == Ok(mode') <==> LineAsks(lines[1], mode') {
        ModeIffLineAsks(lines[1], mode');
      }
    }
  }

  lemma RequestIffAsks(request: string, token: string, mode: AuthMode)
    ensures ParseRequest(request) == Ok((token, mode)) <==> Asks(request, token, mode)
  {
    if AUTH_MAGIC <= request && request[|AUTH_MAGIC|..] != "" && request[|request| - 1] == '\n' {
      var text := request[|AUTH_MAGIC|..|request| - 1];
      assert IsFramed(request, text);
      assert request[|AUTH_MAGIC|..][..|request| - |AUTH_MAGIC| - 1] == text;
      assert forall text' :: IsFramed(request, text') ==> text' == request[|AUTH_MAGIC|..|request| - 1];
      PayloadIffTextAsks(text, token, mode);
    } else {
      assert forall text :: !IsFramed(request, text);
    }
  }

  /**
   Whatever a peer sends, it is accepted with a mode if and only if it is at most 1024 bytes long and asks for that
   mode with the expected token.
   */
  lemma AcceptedIffAsked(request: string, expectedToken: string, mode: AuthMode)
    ensures ServerAuthenticate(request, expectedToken) == Ok(mode)
            <==> Utf8Length(request) <= 1024 && Asks(request, expectedToken, mode)
  {
    RequestIffAsks(request, expectedToken, mode);
  }

  // ----- What the client's own checks let through

  datatype PayloadError = LimitTooSmall | PayloadTooSmall | PayloadTooLarge

  function BenchPayloadBytes(direction: BenchDirection, requested: nat, maxDatagramSize: Option<nat>,
                             configMtu: nat): Result<nat, PayloadError> {
    var limit := maxDatagramSize.GetOr(configMtu);
    var max := if UsesDatagrams(direction) then (if limit <= configMtu then limit else configMtu) else configMtu;
    if max < 64 then Err(LimitTooSmall)
    else
      var payloadBytes := if requested == 0 then max else requested;
      if payloadBytes < 64 then Err(PayloadTooSmall)
      else if payloadBytes > max then Err(PayloadTooLarge)
      else Ok(payloadBytes)
  }

  function BenchTargetMbps(value: u64): Option<Option<u64>> {
    if value == 0 then Some(None) else if value > 10000 then None else Some(Some(value))
  }

  /** The client's checks let through exactly this. */
  lemma ClientChecksExactly(direction: BenchDirection, requested: nat, maxDatagramSize: Option<nat>, configMtu: nat,
                            n: nat, target: u64, mbps: Option<u64>)
    ensures BenchPayloadBytes(direction, requested, maxDatagramSize, configMtu) == Ok(n)
            <==> && 64 <= n <= configMtu
                 && (direction in {Upload, Download} && maxDatagramSize.Some? ==> n <= maxDatagramSize.value)
                 && (if requested != 0 then n == requested
                     else n == configMtu || (direction in {Upload, Download} && maxDatagramSize == Some(n)))
    ensures BenchTargetMbps(target) == Some(mbps)
            <==> target <= 10000 && mbps == if target == 0 then None else Some(target)
  {
  }

  /** Every benchmark the client starts under a valid MTU is one the server understands. */
  lemma ClientBenchIsAccepted(token: string, direction: BenchDirection, durationSecs: u64, requested: nat,
                              maxDatagramSize: Option<nat>, configMtu: nat, target: u64)
    requires 576 <= configMtu <= 1400 && durationSecs > 0 && '\n' !in token && !EndsInCr(token)
    requires BenchPayloadBytes(direction, requested, maxDatagramSize, configMtu).Ok? && BenchTargetMbps(target).Some?
    ensures var payloadBytes := BenchPayloadBytes(direction, requested, maxDatagramSize, configMtu).value;
            && MIN_PAYLOAD <= payloadBytes <= configMtu
            && (UsesDatagrams(direction) && maxDatagramSize.Some? ==> payloadBytes <= maxDatagramSize.value)
            && (requested != 0 ==> payloadBytes == requested)
            && var mode := Bench(direction, durationSecs, payloadBytes, BenchTargetMbps(target).value);
               ParseRequest(RequestOf(token, mode)) == Ok((token, mode))
  {
    var payloadBytes := BenchPayloadBytes(direction, requested, maxDatagramSize, configMtu).value;
    RequestRoundTrip(token, Bench(direction, durationSecs, payloadBytes, BenchTargetMbps(target).value));
  }
}
