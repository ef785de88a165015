/** The text functions of the standard library that the wire formats rely on, and the laws the formats need. */
module Text {
  import opened Wrappers

  function Utf8Length(s: string): nat {
    if s == "" then 0
    else
      var c := s[0] as nat;
      (if c < 0x80 then 1 else if c < 0x800 then 2 else if c < 0x1_0000 then 3 else 4) + Utf8Length(s[1..])
  }

  // One to four bytes a character, by its code point.
  lemma {:induction false} Utf8LengthAdds(a: string, c: char, b: string)
    ensures Utf8Length(a + [c] + b) == Utf8Length(a) + Utf8Length([c]) + Utf8Length(b)
    ensures Utf8Length([c])
            == if c <= '\U{007F}' then 1 else if c <= '\U{07FF}' then 2 else if c <= '\U{FFFF}' then 3 else 4
    decreases |a|
  {
    assert [c][1..] == "" && Utf8Length("") == 0;
    if a == "" {
      assert a + [c] + b == [c] + b;
      assert ([c] + b)[1..] == b;
    } else {
      assert (a + [c] + b)[1..] == a[1..] + [c] + b;
      Utf8LengthAdds(a[1..], c, b);
    }
  }

  // ----- Words

  // Unicode White_Space, as in char::is_whitespace.
  predicate IsWhitespace(c: char) {
    '\U{0009}' <= c <= '\U{000D}' || c == ' ' || c == '\U{0085}' || c == '\U{00A0}' || c == '\U{1680}'
    || '\U{2000}' <= c <= '\U{200A}' || c == '\U{2028}' || c == '\U{2029}' || c == '\U{202F}' || c == '\U{205F}'
    || c == '\U{3000}'
  }

  predicate IsWord(s: string) {
    s != "" && forall i :: 0 <= i < |s| ==> !IsWhitespace(s[i])
  }

  function WordLength(s: string): (n: nat)
    ensures n <= |s|
  {
    if s == "" || IsWhitespace(s[0]) then 0 else 1 + WordLength(s[1..])
  }

  function SplitWhitespace(s: string): seq<string>
    decreases |s|
  {
    if s == "" then []
    else if IsWhitespace(s[0]) then SplitWhitespace(s[1..])
    else [s[..WordLength(s)]] + SplitWhitespace(s[WordLength(s)..])
  }

  function Join(words: seq<string>): string {
    if words == [] then ""
    else if |words| == 1 then words[0]
    else words[0] + " " + Join(words[1..])
  }

  lemma {:induction false} WordLengthOf(w: string, rest: string)
    requires forall i :: 0 <= i < |w| ==> !IsWhitespace(w[i])
    requires rest == "" || IsWhitespace(rest[0])
    ensures WordLength(w + rest) == |w|
  {
    if w == "" {
      assert w + rest == rest;
    } else {
      assert (w + rest)[1..] == w[1..] + rest;
      WordLengthOf(w[1..], rest);
    }
  }

  lemma SplitFirstWord(w: string, rest: string)
    requires IsWord(w) && (rest == "" || IsWhitespace(rest[0]))
    ensures SplitWhitespace(w + rest) == [w] + SplitWhitespace(rest)
  {
    WordLengthOf(w, rest);
    assert (w + rest)[..|w|] == w && (w + rest)[|w|..] == rest;
  }

  lemma {:induction false} SplitJoin(words: seq<string>)
    requires forall i :: 0 <= i < |words| ==> IsWord(words[i])
    ensures SplitWhitespace(Join(words)) == words
  {
    if |words| == 1 {
      assert words[0] + "" == words[0];
      SplitFirstWord(words[0], "");
      assert words == [words[0]];
    } else if |words| > 1 {
      var rest := " " + Join(words[1..]);
      assert Join(words) == words[0] + rest;
      SplitFirstWord(words[0], rest);
      assert rest[1..] == Join(words[1..]);
      SplitJoin(words[1..]);
    }
  }

  // The first word of a text, what is blank before it, and what comes after it.
  predicate FirstWord(text: string, blank: string, word: string, rest: string) {
    && text == blank + word + rest && IsBlank(blank) && IsWord(word)
    && (rest == "" || IsWhitespace(rest[0]))
  }

  predicate IsBlank(s: string) {
    forall i :: 0 <= i < |s| ==> IsWhitespace(s[i])
  }

  // The text is these words, with blanks between them and around them.
  ghost predicate IsWords(text: string, words: seq<string>)
    decreases |words|
  {
    if words == [] then IsBlank(text)
    else exists blank, rest :: FirstWord(text, blank, words[0], rest) && IsWords(rest, words[1..])
  }

  lemma {:induction false} SkipBlank(blank: string, rest: string)
    requires IsBlank(blank)
    ensures SplitWhitespace(blank + rest) == SplitWhitespace(rest)
  {
    if blank == "" {
      assert blank + rest == rest;
    } else {
      assert (blank + rest)[1..] == blank[1..] + rest;
      SkipBlank(blank[1..], rest);
    }
  }

  lemma {:induction false} WordsAreSplit(text: string, words: seq<string>)
    requires IsWords(text, words)
    ensures SplitWhitespace(text) == words
    decreases |words|
  {
    if words == [] {
      SkipBlank(text, "");
      assert text + "" == text;
    } else {
      var blank, rest :| FirstWord(text, blank, words[0], rest) && IsWords(rest, words[1..]);
      assert text == blank + (words[0] + rest);
      SkipBlank(blank, words[0] + rest);
      SplitFirstWord(words[0], rest);
      WordsAreSplit(rest, words[1..]);
    }
  }

  lemma {:induction false} WordEnds(s: string)
    ensures forall i :: 0 <= i < WordLength(s) ==> !IsWhitespace(s[i])
    ensures WordLength(s) < |s| ==> IsWhitespace(s[WordLength(s)])
    ensures s != "" && !IsWhitespace(s[0]) ==> WordLength(s) > 0
  {
    if s != "" && !IsWhitespace(s[0]) {
      WordEnds(s[1..]);
    }
  }

  lemma MoreBlank(text: string, words: seq<string>)
    requires text != "" && IsWhitespace(text[0]) && IsWords(text[1..], words)
    ensures IsWords(text, words)
  {
    if words != [] {
      var blank, rest :| FirstWord(text[1..], blank, words[0], rest) && IsWords(rest, words[1..]);
      assert FirstWord(text, [text[0]] + blank, words[0], rest);
    }
  }

  lemma OneMoreWord(text: string, blank: string, word: string, rest: string, words: seq<string>)
    requires FirstWord(text, blank, word, rest) && IsWords(rest, words)
    ensures IsWords(text, [word] + words)
  {
    var all := [word] + words;
    assert all[0] == word && all[1..] == words;
    assert FirstWord(text, blank, all[0], rest) && IsWords(rest, all[1..]);
  }

  lemma {:induction false} SplitIsWords(text: string)
    ensures IsWords(text, SplitWhitespace(text))
    decreases |text|
  {
    if text != "" {
      if IsWhitespace(text[0]) {
        SplitIsWords(text[1..]);
        MoreBlank(text, SplitWhitespace(text[1..]));
      } else {
        var n := WordLength(text);
        WordEnds(text);
        SplitIsWords(text[n..]);
        assert text == "" + text[..n] + text[n..];
        OneMoreWord(text, "", text[..n], text[n..], SplitWhitespace(text[n..]));
      }
    }
  }

  /** Splitting gives exactly the words a text consists of. */
  lemma SplitIffWords(text: string, words: seq<string>)
    ensures SplitWhitespace(text) == words <==> IsWords(text, words)
  {
    SplitIsWords(text);
    if IsWords(text, words) {
      WordsAreSplit(text, words);
    }
  }

  // ----- Lines

  function LineLength(s: string): (n: nat)
    ensures n <= |s|
    ensures n < |s| ==> s[n] == '\n'
    ensures forall i :: 0 <= i < n ==> s[i] != '\n'
  {
    if s == "" || s[0] == '\n' then 0 else 1 + LineLength(s[1..])
  }

  predicate EndsInCr(s: string) {
    s != "" && s[|s| - 1] == '\r'
  }

  function StripCr(s: string): string {
    if EndsInCr(s) then s[..|s| - 1] else s
  }

  // str::lines: a carriage return is dropped only in front of a line feed.
  function Lines(s: string): seq<string>
    decreases |s|
  {
    if s == "" then []
    else if LineLength(s) == |s| then [s]
    else [StripCr(s[..LineLength(s)])] + Lines(s[LineLength(s) + 1..])
  }

  lemma LineLengthIs(line: string, rest: string)
    requires '\n' !in line
    ensures LineLength(line + rest) >= |line|
    ensures rest == "" || rest[0] == '\n' ==> LineLength(line + rest) == |line|
  {
    var s := line + rest;
    assert forall i :: 0 <= i < |line| ==> s[i] == line[i];
    assert rest != "" ==> s[|line|] == rest[0];
  }

  lemma LastLine(line: string)
    requires '\n' !in line && line != ""
    ensures Lines(line) == [line]
  {
    LineLengthIs(line, "");
    assert line + "" == line;
  }

  lemma FirstLine(line: string, rest: string)
    requires '\n' !in line
    ensures Lines(line + "\n" + rest) == [StripCr(line)] + Lines(rest)
  {
    var s := line + "\n" + rest;
    assert s == line + ("\n" + rest);
    LineLengthIs(line, "\n" + rest);
    assert s[..|line|] == line && s[|line| + 1..] == rest;
  }

  // A line and its end, which is a line feed with or without one carriage return before it.
  predicate EndedLine(text: string, line: string) {
    '\n' !in line && ((text == line + "\n" && !EndsInCr(line)) || text == line + "\r\n")
  }

  // The text is these lines, of which the last need not be ended unless it is empty.
  ghost predicate IsLines(text: string, lines: seq<string>)
    decreases |lines|
  {
    if lines == [] then text == ""
    else
      || IsLastLine(text, lines)
      || exists first, rest :: StartsWithLine(text, first, rest, lines[0]) && IsLines(rest, lines[1..])
  }

  predicate IsLastLine(text: string, lines: seq<string>) {
    lines == [text] && text != "" && '\n' !in text
  }

  predicate StartsWithLine(text: string, first: string, rest: string, line: string) {
    text == first + rest && EndedLine(first, line)
  }

  lemma EndedFirst(first: string, line: string, rest: string)
    requires EndedLine(first, line)
    ensures Lines(first + rest) == [line] + Lines(rest)
  {
    if first == line + "\n" && !EndsInCr(line) {
      FirstLine(line, rest);
    } else {
      FirstLine(line + "\r", rest);
      assert line + "\r" + "\n" + rest == first + rest;
      assert (line + "\r")[..|line|] == line;
    }
  }

  lemma {:induction false} LinesAreSplit(text: string, lines: seq<string>)
    requires IsLines(text, lines)
    ensures Lines(text) == lines
    decreases |lines|
  {
    if lines != [] {
      if IsLastLine(text, lines) {
        LastLine(text);
      } else {
        var first, rest :| StartsWithLine(text, first, rest, lines[0]) && IsLines(rest, lines[1..]);
        EndedFirst(first, lines[0], rest);
        LinesAreSplit(rest, lines[1..]);
      }
    }
  }

  lemma IsEnded(line: string)
    requires '\n' !in line
    ensures EndedLine(line + "\n", StripCr(line))
  {
    if EndsInCr(line) {
      assert line + "\n" == StripCr(line) + "\r\n";
    }
  }

  lemma OneMoreLine(text: string, first: string, rest: string, line: string, lines: seq<string>)
    requires StartsWithLine(text, first, rest, line) && IsLines(rest, lines)
    ensures IsLines(text, [line] + lines)
  {
    var all := [line] + lines;
    assert all[0] == line && all[1..] == lines;
    assert StartsWithLine(text, first, rest, all[0]) && IsLines(rest, all[1..]);
  }

  lemma {:induction false} SplitIsLines(text: string)
    ensures IsLines(text, Lines(text))
    decreases |text|
  {
    var n := LineLength(text);
    if text != "" && n < |text| {
      var first, rest := text[..n + 1], text[n + 1..];
      SplitIsLines(rest);
      assert text == first + rest && first == text[..n] + "\n";
      IsEnded(text[..n]);
      OneMoreLine(text, first, rest, StripCr(text[..n]), Lines(rest));
    }
  }

  /** Splitting gives exactly the lines a text consists of. */
  lemma SplitIffLines(text: string, lines: seq<string>)
    ensures Lines(text) == lines <==> IsLines(text, lines)
  {
    SplitIsLines(text);
    if IsLines(text, lines) {
      LinesAreSplit(text, lines);
    }
  }

  lemma {:induction false} LinesHaveNoLineFeed(s: string, k: nat)
    requires k < |Lines(s)|
    ensures '\n' !in Lines(s)[k]
    decreases |s|
  {
    if LineLength(s) < |s| && k > 0 {
      LinesHaveNoLineFeed(s[LineLength(s) + 1..], k - 1);
    }
  }

  // ----- Decimal numbers

  predicate IsDigit(c: char) {
    '0' <= c <= '9'
  }

  function DigitValue(c: char): nat
    requires IsDigit(c)
  {
    c as nat - '0' as nat
  }

  function Digit(d: nat): (c: char)
    requires d < 10
    ensures IsDigit(c) && DigitValue(c) == d
  {
    ('0' as nat + d) as char
  }

  function Decimal(n: nat): (s: string)
    ensures s != "" && forall i :: 0 <= i < |s| ==> IsDigit(s[i])
  {
    if n < 10 then [Digit(n)] else Decimal(n / 10) + [Digit(n % 10)]
  }

  // str::parse::<u64>: an optional plus sign, at least one digit, no overflow at any digit.
  function ParseU64(s: string): Option<u64> {
    if s == "" then None
    else if s[0] == '+' then (if |s| == 1 then None else ParseDigits(s[1..], 0))
    else ParseDigits(s, 0)
  }

  function ParseDigits(s: string, acc: u64): Option<u64>
    decreases |s|
  {
    if s == "" then Some(acc)
    else if !IsDigit(s[0]) || acc * 10 + DigitValue(s[0]) > U64_MAX then None
    else ParseDigits(s[1..], acc * 10 + DigitValue(s[0]))
  }

  lemma {:induction false} ParseDigitsAppend(s: string, c: char, acc: u64)
    requires IsDigit(c)
    ensures ParseDigits(s + [c], acc)
            == match ParseDigits(s, acc)
               case None => None
               case Some(v) => if v * 10 + DigitValue(c) > U64_MAX then None else Some(v * 10 + DigitValue(c))
    decreases |s|
  {
    if s == "" {
      assert s + [c] == [c];
      assert [c][1..] == "";
    } else if IsDigit(s[0]) && acc * 10 + DigitValue(s[0]) <= U64_MAX {
      assert (s + [c])[1..] == s[1..] + [c];
      ParseDigitsAppend(s[1..], c, acc * 10 + DigitValue(s[0]));
    }
  }

  /** Printing and parsing a number agree exactly up to the 64-bit limit. */
  lemma {:induction false} DecimalRoundTrip(n: nat)
    ensures ParseU64(Decimal(n)) == if n <= U64_MAX then Some(n) else None
    ensures ParseU64(Decimal(n)) == ParseDigits(Decimal(n), 0)
  {
    assert Decimal(n)[0] != '+';
    if n < 10 {
      var d := Digit(n);
      assert 0 * 10 + DigitValue(d) == n && [d][1..] == "";
      assert ParseDigits([d], 0) == ParseDigits("", n);
    } else {
      DecimalRoundTrip(n / 10);
      ParseDigitsAppend(Decimal(n / 10), Digit(n % 10), 0);
      assert n == n / 10 * 10 + n % 10;
    }
  }

  predicate AreDigits(s: string) {
    s != "" && forall i :: 0 <= i < |s| ==> IsDigit(s[i])
  }

  // The number that digits denote, by place value.
  function Value(s: string): nat
    requires forall i :: 0 <= i < |s| ==> IsDigit(s[i])
  {
    if s == "" then 0 else 10 * Value(s[..|s| - 1]) + DigitValue(s[|s| - 1])
  }

  // Digits, leading zeros allowed, with or without one plus sign.
  predicate Denotes(s: string, n: nat) {
    (AreDigits(s) && Value(s) == n) || (s != "" && s[0] == '+' && AreDigits(s[1..]) && Value(s[1..]) == n)
  }

  lemma {:induction false} ParseDigitsValue(s: string)
    requires forall i :: 0 <= i < |s| ==> IsDigit(s[i])
    ensures ParseDigits(s, 0) == if Value(s) <= U64_MAX then Some(Value(s)) else None
  {
    if s != "" {
      var most, c := s[..|s| - 1], s[|s| - 1];
      assert s == most + [c];
      ParseDigitsValue(most);
      ParseDigitsAppend(most, c, 0);
    }
  }

  lemma {:induction false} ParsedAreDigits(s: string, acc: u64)
    requires ParseDigits(s, acc).Some?
    ensures forall i :: 0 <= i < |s| ==> IsDigit(s[i])
    decreases |s|
  {
    if s != "" {
      ParsedAreDigits(s[1..], acc * 10 + DigitValue(s[0]));
      assert forall i :: 1 <= i < |s| ==> s[i] == s[1..][i - 1];
    }
  }

  /** Parsing yields a number exactly for the texts that denote it, whatever they look like. */
  lemma ParseU64IffDenotes(s: string, n: u64)
    ensures ParseU64(s) == Some(n) <==> Denotes(s, n)
  {
    if s != "" {
      var digits := if s[0] == '+' then s[1..] else s;
      if forall i :: 0 <= i < |digits| ==> IsDigit(digits[i]) {
        ParseDigitsValue(digits);
      } else if ParseDigits(digits, 0).Some? {
        ParsedAreDigits(digits, 0);
      }
    }
  }

  lemma DecimalIsWord(n: nat)
    ensures IsWord(Decimal(n)) && '\n' !in Decimal(n)
  {
  }

  function PowerOfTen(k: nat): nat {
    if k == 0 then 1 else 10 * PowerOfTen(k - 1)
  }

  lemma {:induction false} DecimalLength(n: nat, k: nat)
    requires 0 < k && n < PowerOfTen(k)
    ensures |Decimal(n)| <= k
  {
    if n >= 10 {
      DecimalLength(n / 10, k - 1);
    }
  }

  // ----- Trimming

  function TrimStart(s: string): string {
    if s != "" && IsWhitespace(s[0]) then TrimStart(s[1..]) else s
  }

  function TrimEnd(s: string): string {
    if s != "" && IsWhitespace(s[|s| - 1]) then TrimEnd(s[..|s| - 1]) else s
  }

  function Trim(s: string): string {
    TrimEnd(TrimStart(s))
  }

  lemma TrimLine(line: string)
    requires line != "" && !IsWhitespace(line[0]) && !IsWhitespace(line[|line| - 1])
    ensures Trim(line + "\n") == line
  {
    var s := line + "\n";
    assert s[0] == line[0] && s[|s| - 1] == '\n' && s[..|s| - 1] == line;
    assert TrimEnd(s) == TrimEnd(line);
  }
}
