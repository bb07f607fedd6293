/** The whole response reader of the native control client: status line, header section and body, from the raw bytes
    (sections 4, 5, 6.3 and 7.1 of RFC 9112). */
module Response {
  import opened Outcomes
  import opened RustText
  import Chunked
  import opened Headers
  import FramingLines

  datatype ResponseError =
    | NoHeaderEnd
    | NotText
    | BadHead(head: HeadError)
    | BadChunks(chunks: Chunked.ChunkError)
    | Truncated
    | Oversized
    | BadJson

  // ----- the status line

  /** The length of the leading run without white space. */
  function WordLength(s: string): (n: nat)
    ensures n <= |s|
    ensures s != "" && !IsSpace(s[0]) ==> n > 0
  {
    if s == "" || IsSpace(s[0]) then 0 else 1 + WordLength(s[1..])
  }

  /** `split_whitespace`. */
  function Words(s: string): seq<string>
    decreases |s|
  {
    if s == "" then []
    else if IsSpace(s[0]) then Words(s[1..])
    else [s[..WordLength(s)]] + Words(s[WordLength(s)..])
  }

  predicate KnownVersion(word: string) {
    word == "HTTP/1.0" || word == "HTTP/1.1"
  }

  function StatusOf(line: string): Result<nat, HeadError> {
    var words := Words(line);
    if |words| < 1 then Err(MissingVersion)
    else if !KnownVersion(words[0]) then Err(UnsupportedVersion)
    else if |words| < 2 then Err(MissingStatus)
    else if |words[1]| != 3 || !AllDigits(words[1], 10) then Err(InvalidStatus)
    else
      var status := Value(words[1], 10);
      if 200 <= status <= 599 then Ok(status) else Err(UnsupportedStatus)
  }

  lemma {:induction false} ThreeDigits(s: string)
    requires |s| == 3 && AllDigits(s, 10)
    ensures var a, b, c := DigitValue(s[0], 10).value, DigitValue(s[1], 10).value, DigitValue(s[2], 10).value;
      Value(s, 10) == a * 100 + b * 10 + c
  {
    assert s[..2][..1][..0] == "";
    assert s[..2][..1] == s[..1] && s[..1][..0] == "";
    assert Value(s[..1], 10) == DigitValue(s[0], 10).value;
    assert Value(s[..2], 10) == DigitValue(s[0], 10).value * 10 + DigitValue(s[1], 10).value;
  }

  lemma {:induction false} DigitInverse(c: char)
    requires DigitValue(c, 10).Some?
    ensures Digit(DigitValue(c, 10).value) == c
  {
  }

  lemma {:induction false} PrintThree(a: nat, b: nat, c: nat)
    requires 1 <= a < 10 && b < 10 && c < 10
    ensures PrintNat(a * 100 + b * 10 + c, 10) == [Digit(a), Digit(b), Digit(c)]
  {
    var n := a * 100 + b * 10 + c;
    assert n / 10 == a * 10 + b && n % 10 == c;
    assert n / 10 / 10 == a && n / 10 % 10 == b;
    assert PrintNat(a, 10) == [Digit(a)];
    assert PrintNat(n / 10, 10) == [Digit(a)] + [Digit(b)];
  }

  lemma {:induction false} WordPrints(word: string)
    requires |word| == 3 && AllDigits(word, 10) && Value(word, 10) >= 200
    ensures word == PrintNat(Value(word, 10), 10)
  {
    hide Value, PrintNat;
    ThreeDigits(word);
    DigitInverse(word[0]);
    DigitInverse(word[1]);
    DigitInverse(word[2]);
    PrintThree(DigitValue(word[0], 10).value, DigitValue(word[1], 10).value, DigitValue(word[2], 10).value);
  }

  lemma {:induction false} PrintedWord(status: nat)
    requires 200 <= status <= 599
    ensures |PrintNat(status, 10)| == 3 && AllDigits(PrintNat(status, 10), 10)
      && Value(PrintNat(status, 10), 10) == status
  {
    hide Value, PrintNat;
    var a, b, c := status / 100, status / 10 % 10, status % 10;
    assert status == a * 100 + b * 10 + c;
    PrintThree(a, b, c);
    PrintNatValue(status, 10);
  }

  lemma {:induction false} WordsAfterSpace(lead: string, rest: string)
    requires AllSpace(lead)
    ensures Words(lead + rest) == Words(rest)
  {
    if lead == "" {
      assert lead + rest == rest;
    } else {
      assert (lead + rest)[1..] == lead[1..] + rest;
      WordsAfterSpace(lead[1..], rest);
    }
  }

  predicate NoSpace(word: string) {
    forall i :: 0 <= i < |word| ==> !IsSpace(word[i])
  }

  lemma {:induction false} WordLengthOf(word: string, rest: string)
    requires NoSpace(word) && (rest != "" ==> IsSpace(rest[0]))
    ensures WordLength(word + rest) == |word|
  {
    hide IsSpace;
    if word == "" {
      assert word + rest == rest;
    } else {
      assert (word + rest)[1..] == word[1..] + rest;
      WordLengthOf(word[1..], rest);
    }
  }

  lemma {:induction false} WordsAfterWord(word: string, rest: string)
    requires word != "" && NoSpace(word) && (rest != "" ==> IsSpace(rest[0]))
    ensures Words(word + rest) == [word] + Words(rest)
  {
    hide IsSpace, WordLength;
    WordLengthOf(word, rest);
    assert (word + rest)[..|word|] == word && (word + rest)[|word|..] == rest;
  }

  lemma {:induction false} LeadingRun(s: string)
    ensures NoSpace(s[..WordLength(s)])
    ensures s[WordLength(s)..] != "" ==> IsSpace(s[WordLength(s)..][0])
  {
    hide IsSpace;
    if s != "" && !IsSpace(s[0]) {
      LeadingRun(s[1..]);
      assert s[WordLength(s)..] == s[1..][WordLength(s[1..])..];
    }
  }

  /** A text with a first word is white space, that word, and a rest that does not go on with the word. */
  lemma {:induction false} FirstWord(s: string) returns (lead: string, word: string, rest: string)
    requires Words(s) != []
    ensures s == lead + word + rest && AllSpace(lead)
    ensures word != "" && NoSpace(word) && (rest != "" ==> IsSpace(rest[0]))
    ensures Words(s) == [word] + Words(rest)
    decreases |s|
  {
    hide IsSpace, WordLength;
    if IsSpace(s[0]) {
      var l: string;
      l, word, rest := FirstWord(s[1..]);
      lead := [s[0]] + l;
    } else {
      lead, word, rest := "", s[..WordLength(s)], s[WordLength(s)..];
      LeadingRun(s);
    }
  }

  /** White space, a version, white space, a status, and nothing more or white space and anything. */
  predicate StatusText(line: string, lead: string, version: string, gap: string, status: string, tail: string) {
    && line == lead + version + (gap + status + tail)
    && AllSpace(lead) && (version == "HTTP/1.0" || version == "HTTP/1.1")
    && gap != "" && AllSpace(gap)
    && (tail != "" ==> IsSpace(tail[0]))
  }

  lemma {:induction false} VersionIsWord(version: string)
    requires version == "HTTP/1.0" || version == "HTTP/1.1"
    ensures version != "" && NoSpace(version)
  {
  }

  lemma {:induction false} DigitsAreWord(s: string)
    requires AllDigits(s, 10)
    ensures NoSpace(s)
  {
    forall i | 0 <= i < |s| ensures !IsSpace(s[i]) {
      assert DigitValue(s[i], 10).Some?;
    }
  }

  lemma {:induction false} TextWords(line: string, lead: string, version: string, gap: string, status: string,
      tail: string)
    requires StatusText(line, lead, version, gap, status, tail) && status != "" && NoSpace(status)
    ensures Words(line) == [version, status] + Words(tail)
  {
    hide Words, IsSpace, KnownVersion, NoSpace;
    var rest := gap + status + tail;
    VersionIsWord(version);
    assert line == lead + (version + rest);
    WordsAfterSpace(lead, version + rest);
    assert rest[0] == gap[0];
    WordsAfterWord(version, rest);
    assert rest == gap + (status + tail);
    WordsAfterSpace(gap, status + tail);
    WordsAfterWord(status, tail);
  }

  lemma {:induction false} WordsText(line: string) returns (lead: string, gap: string, tail: string)
    requires |Words(line)| >= 2 && KnownVersion(Words(line)[0])
    ensures StatusText(line, lead, Words(line)[0], gap, Words(line)[1], tail)
  {
    hide Words, IsSpace, NoSpace;
    var version, status, rest: string;
    lead, version, rest := FirstWord(line);
    assert Words(rest) == Words(line)[1..];
    gap, status, tail := FirstWord(rest);
    if gap == "" {
      assert rest == status + tail;
      assert rest[0] == status[0];
      hide StatusText;
      GapNeeded(status, rest);
    }
    assert line == lead + version + (gap + status + tail);
  }

  /** Two words are never next to each other. */
  lemma {:induction false} GapNeeded(word: string, rest: string)
    requires word != "" && NoSpace(word) && rest != "" && rest[0] == word[0]
    ensures !IsSpace(rest[0])
  {
  }

  /** A status line is accepted with a status exactly when it is white space, a known version, white space, that status
      in decimal, between 200 and 599, and then ends or goes on with white space. */
  lemma {:induction false} StatusIff(line: string, status: nat)
    ensures StatusOf(line) == Ok(status) <==>
      && 200 <= status <= 599
      && exists lead, version, gap, tail :: StatusText(line, lead, version, gap, PrintNat(status, 10), tail)
  {
    hide Words, Value, PrintNat, AllDigits, KnownVersion, StatusText;
    if StatusOf(line) == Ok(status) {
      WordPrints(Words(line)[1]);
      var lead, gap, tail := WordsText(line);
    }
    if 200 <= status <= 599 {
      PrintedWord(status);
      var word := PrintNat(status, 10);
      DigitsAreWord(word);
      if lead, version, gap, tail :| StatusText(line, lead, version, gap, word, tail) {
        TextWords(line, lead, version, gap, word, tail);
        assert KnownVersion(version) by { TextVersion(line, lead, version, gap, word, tail); }
      }
    }
  }

  /** The first word of a text, "" if there is none: what stands between leading white space and the next. */
  predicate Splits(text: string, lead: string, word: string, rest: string) {
    && text == lead + word + rest && AllSpace(lead) && NoSpace(word)
    && (rest != "" ==> IsSpace(rest[0])) && (word == "" ==> rest == "")
  }

  lemma {:induction false} SplitWords(text: string, lead: string, word: string, rest: string)
    requires Splits(text, lead, word, rest)
    ensures Words(text) == if word == "" then [] else [word] + Words(rest)
  {
    hide Words, IsSpace;
    assert text == lead + (word + rest);
    WordsAfterSpace(lead, word + rest);
    if word == "" {
      assert word + rest == "";
      NoWords();
    } else {
      WordsAfterWord(word, rest);
    }
  }

  lemma {:induction false} NoWords()
    ensures Words("") == []
  {
  }

  lemma {:induction false} SomeSplit(text: string) returns (lead: string, word: string, rest: string)
    ensures Splits(text, lead, word, rest)
  {
    hide IsSpace;
    if Words(text) == [] {
      lead, word, rest := text, "", "";
      NoWordsBlank(text);
    } else {
      lead, word, rest := FirstWord(text);
    }
  }

  lemma {:induction false} NoWordsBlank(text: string)
    requires Words(text) == []
    ensures AllSpace(text)
  {
    hide IsSpace;
    if text != "" {
      NoWordsBlank(text[1..]);
    }
  }

  predicate ThreeDecimals(word: string) {
    |word| == 3 && forall i :: 0 <= i < 3 ==> 48 <= word[i] as nat <= 57
  }

  lemma {:induction false} DecimalsIff(word: string)
    ensures |word| == 3 && AllDigits(word, 10) <==> ThreeDecimals(word)
    ensures ThreeDecimals(word) ==>
      Value(word, 10) == 100 * (word[0] as nat - 48) + 10 * (word[1] as nat - 48) + (word[2] as nat - 48)
  {
    hide Value;
    if |word| == 3 && AllDigits(word, 10) {
      ThreeDigits(word);
    }
  }

  /** What becomes of a status line, by its first two words: each error has its own condition, in this order. */
  lemma {:induction false} StatusSays(line: string)
      returns (lead: string, first: string, rest: string, gap: string, second: string, tail: string)
    ensures Splits(line, lead, first, rest) && Splits(rest, gap, second, tail)
    ensures StatusOf(line) ==
      if first == "" then Err(MissingVersion)
      else if first != "HTTP/1.0" && first != "HTTP/1.1" then Err(UnsupportedVersion)
      else if second == "" then Err(MissingStatus)
      else if !ThreeDecimals(second) then Err(InvalidStatus)
      else
        var n := 100 * (second[0] as nat - 48) + 10 * (second[1] as nat - 48) + (second[2] as nat - 48);
        if n < 200 || n > 599 then Err(UnsupportedStatus) else Ok(n)
  {
    hide Words, Splits, Value, AllDigits, ThreeDecimals;
    lead, first, rest := SomeSplit(line);
    SplitWords(line, lead, first, rest);
    gap, second, tail := SomeSplit(rest);
    SplitWords(rest, gap, second, tail);
    DecimalsIff(second);
  }

  lemma {:induction false} TextVersion(line: string, lead: string, version: string, gap: string, status: string,
      tail: string)
    requires StatusText(line, lead, version, gap, status, tail)
    ensures KnownVersion(version)
  {
  }

  // ----- where the header section ends

  predicate BlankAt(raw: seq<byte>, i: nat) {
    i + 3 < |raw| && raw[i] == 13 && raw[i + 1] == 10 && raw[i + 2] == 13 && raw[i + 3] == 10
  }

  /** The position of the first blank line, or the length if there is none. */
  function FindBlank(raw: seq<byte>): (k: nat)
    ensures k <= |raw|
    ensures k < |raw| ==> BlankAt(raw, k)
    ensures forall i: nat :: i < k ==> !BlankAt(raw, i)
  {
    if raw == [] then 0
    else if BlankAt(raw, 0) then 0
    else
      var k := 1 + FindBlank(raw[1..]);
      assert forall i: nat :: 0 < i < k && BlankAt(raw, i) ==> BlankAt(raw[1..], i - 1);
      k
  }

  /** `split("\r\n")`: at least one line. */
  function Lines(s: string): (ls: seq<string>)
    ensures ls != []
    decreases |s|
  {
    if s == "" then [""]
    else if |s| >= 2 && s[0] == '\r' && s[1] == '\n' then [""] + Lines(s[2..])
    else
      var rest := Lines(s[1..]);
      [[s[0]] + rest[0]] + rest[1..]
  }

  // ----- the reader

  function BoundedBody(body: seq<byte>, contentLength: Option<nat>): Result<seq<byte>, ResponseError> {
    if contentLength.None? then Ok(body)
    else if |body| < contentLength.value then Err(Truncated)
    else if |body| > contentLength.value then Err(Oversized)
    else Ok(body)
  }

  function BodyOf(body: seq<byte>, framing: Framing): Result<seq<byte>, ResponseError> {
    if framing.chunked then
      var decoded := Chunked.Dechunk(body);
      if decoded.Err? then Err(BadChunks(decoded.error)) else Ok(decoded.value)
    else BoundedBody(body, framing.contentLength)
  }

  /** The JSON value of a body, if the library can read it, and the value built from an unreadable error body. */
  datatype Json<!J> = Json(read: seq<byte> -> Option<J>, fromError: (nat, seq<byte>) -> J)

  datatype Response<J> = Response(status: nat, body: Option<J>)

  function Deliver<J>(json: Json<J>, status: nat, body: seq<byte>): Result<Response<J>, ResponseError> {
    if body == [] then Ok(Response(status, None))
    else
      var value := json.read(body);
      if value.Some? then Ok(Response(status, value))
      else if status >= 400 then Ok(Response(status, Some(json.fromError(status, body))))
      else Err(BadJson)
  }

  /** What the head's two parts and the bytes after it amount to. */
  function Assemble<J>(json: Json<J>, status: Result<nat, HeadError>, framing: Result<Framing, HeadError>,
      body: seq<byte>)
    : Result<Response<J>, ResponseError>
  {
    if status.Err? then Err(BadHead(status.error))
    else if framing.Err? then Err(BadHead(framing.error))
    else
      var bytes := BodyOf(body, framing.value);
      if bytes.Err? then Err(bytes.error) else Deliver(json, status.value, bytes.value)
  }

  function Parse<J>(json: Json<J>, raw: seq<byte>): Result<Response<J>, ResponseError> {
    var end := FindBlank(raw);
    if end == |raw| then Err(NoHeaderEnd)
    else
      var text := Decode(raw[..end]);
      if text.None? then Err(NotText)
      else
        var lines := Lines(text.value);
        Assemble(json, StatusOf(lines[0]), Fold(lines[1..]), raw[end + 4..])
  }

  // ----- the printer

  /** A line that does not itself hold a line break; a lone CR or LF is none. */
  predicate Unbroken(line: string) {
    forall i :: 0 <= i < |line| - 1 ==> !(line[i] == '\r' && line[i + 1] == '\n')
  }

  /** Lines that can follow the first one in a header section: an empty one would end it. */
  predicate FieldLines(lines: seq<string>) {
    forall i :: 0 <= i < |lines| ==> Unbroken(lines[i]) && lines[i] != ""
  }

  function Join(lines: seq<string>): string
    requires lines != []
  {
    if |lines| == 1 then lines[0] else lines[0] + "\r\n" + Join(lines[1..])
  }

  const BLANK: seq<byte> := [13, 10, 13, 10]

  function Wire(statusLine: string, fields: seq<string>, body: seq<byte>): seq<byte> {
    Encode(Join([statusLine] + fields)) + BLANK + body
  }

  lemma {:induction false} EncodeConcat(a: string, b: string)
    ensures Encode(a + b) == Encode(a) + Encode(b)
  {
    hide EncodeOne;
    if a == "" {
      assert a + b == b;
    } else {
      assert (a + b)[1..] == a[1..] + b;
      EncodeConcat(a[1..], b);
      assert EncodeOne(a[0]) + (Encode(a[1..]) + Encode(b)) == EncodeOne(a[0]) + Encode(a[1..]) + Encode(b);
    }
  }

  lemma {:induction false} EncodeCrlf()
    ensures Encode("\r\n") == [13, 10]
  {
    assert Encode("\n") == [10];
    assert "\r\n"[1..] == "\n";
  }

  lemma {:induction false} EncodeOneClean(c: char)
    ensures EncodeOne(c) != []
    ensures c != '\r' ==> 13 !in EncodeOne(c)
    ensures c != '\n' ==> EncodeOne(c)[0] != 10
    ensures c == '\r' ==> EncodeOne(c) == [13]
  {
    var n := c as nat;
    if n >= 0x80 {
      assert forall k: nat :: Tail(k) >= 0x80;
    }
  }

  lemma {:induction false} SkipClean(a: seq<byte>, rest: seq<byte>)
    requires 13 !in a
    ensures FindBlank(a + rest) == |a| + FindBlank(rest)
  {
    if a == [] {
      assert a + rest == rest;
    } else {
      assert (a + rest)[1..] == a[1..] + rest;
      assert a[0] in a;
      SkipClean(a[1..], rest);
    }
  }

  predicate StartsWithCrlf(b: seq<byte>) {
    |b| >= 2 && b[0] == 13 && b[1] == 10
  }

  lemma {:induction false} SkipCrlf(rest: seq<byte>)
    requires !StartsWithCrlf(rest)
    ensures FindBlank([13, 10] + rest) == 2 + FindBlank(rest)
  {
    var raw := [13, 10] + rest;
    assert raw[1..] == [10] + rest && raw[1..][1..] == rest;
    assert !BlankAt(raw, 0) && !BlankAt(raw[1..], 0);
  }

  lemma {:induction false} SkipCr(rest: seq<byte>)
    requires rest != [] && rest[0] != 10
    ensures FindBlank([13] + rest) == 1 + FindBlank(rest)
  {
    assert ([13] + rest)[1..] == rest;
    assert !BlankAt([13] + rest, 0);
  }

  lemma {:induction false} UnbrokenTail(line: string)
    requires Unbroken(line) && line != ""
    ensures Unbroken(line[1..])
    ensures line[0] == '\r' && line[1..] != "" ==> line[1..][0] != '\n'
  {
  }

  /** What follows the CR of an unbroken line is no LF. */
  lemma {:induction false} AfterCr(line: string, rest: seq<byte>)
    requires rest != [] && rest[0] == 13 && (line != "" ==> line[0] != '\n')
    ensures Encode(line) + rest != [] && (Encode(line) + rest)[0] != 10
  {
    hide EncodeOne;
    if line != "" {
      EncodeOneClean(line[0]);
    }
  }

  /** An unbroken line in front of a line break holds no part of a blank line. */
  lemma {:induction false} SkipUnbroken(line: string, rest: seq<byte>)
    requires Unbroken(line) && rest != [] && rest[0] == 13
    ensures FindBlank(Encode(line) + rest) == |Encode(line)| + FindBlank(rest)
  {
    hide EncodeOne, FindBlank, Unbroken;
    if line == "" {
      assert Encode(line) + rest == rest;
    } else {
      var one, more := EncodeOne(line[0]), Encode(line[1..]);
      EncodeOneClean(line[0]);
      UnbrokenTail(line);
      SkipUnbroken(line[1..], rest);
      assert one + more + rest == one + (more + rest);
      if line[0] == '\r' {
        AfterCr(line[1..], rest);
        SkipCr(more + rest);
      } else {
        SkipClean(one, more + rest);
      }
    }
  }

  lemma {:induction false} NoCrlfFirst(line: string, rest: seq<byte>)
    requires Unbroken(line) && line != "" && rest != [] && rest[0] == 13
    ensures !StartsWithCrlf(Encode(line) + rest)
  {
    hide EncodeOne, Unbroken;
    EncodeOneClean(line[0]);
    UnbrokenTail(line);
    var one, more := EncodeOne(line[0]), Encode(line[1..]);
    assert one + more + rest == one + (more + rest);
    if line[0] == '\r' {
      AfterCr(line[1..], rest);
    }
  }

  /** What follows the first of the joined lines. */
  function AfterFirst(lines: seq<string>, body: seq<byte>): (b: seq<byte>)
    requires lines != []
    ensures b != [] && b[0] == 13
  {
    if |lines| == 1 then BLANK + body else [13, 10] + (Encode(Join(lines[1..])) + (BLANK + body))
  }

  lemma {:induction false} HeadSplits(lines: seq<string>, body: seq<byte>)
    requires lines != []
    ensures Encode(Join(lines)) + (BLANK + body) == Encode(lines[0]) + AfterFirst(lines, body)
  {
    hide Encode;
    if |lines| > 1 {
      EncodeJoin(lines);
      var head, more := Encode(lines[0]), Encode(Join(lines[1..]));
      assert head + [13, 10] + more + (BLANK + body) == head + ([13, 10] + (more + (BLANK + body)));
    }
  }

  /** The first blank line of a printed message is the one after its last header line. */
  lemma {:induction false} FindPrintedEnd(lines: seq<string>, body: seq<byte>)
    requires lines != [] && Unbroken(lines[0]) && FieldLines(lines[1..])
    ensures FindBlank(Encode(Join(lines)) + (BLANK + body)) == |Encode(Join(lines))|
    decreases |lines|
  {
    hide FindBlank, Encode, Unbroken, StartsWithCrlf;
    HeadSplits(lines, body);
    SkipUnbroken(lines[0], AfterFirst(lines, body));
    if |lines| == 1 {
      BlankFirst(body);
    } else {
      RestFieldLines(lines);
      FindPrintedEnd(lines[1..], body);
      HeadSplits(lines[1..], body);
      NoCrlfFirst(lines[1], AfterFirst(lines[1..], body));
      SkipCrlf(Encode(Join(lines[1..])) + (BLANK + body));
      EncodeJoin(lines);
    }
  }

  lemma {:induction false} RestFieldLines(lines: seq<string>)
    requires |lines| > 1 && FieldLines(lines[1..])
    ensures Unbroken(lines[1]) && lines[1] != "" && FieldLines(lines[1..][1..])
  {
    hide Unbroken;
    assert lines[1..][0] == lines[1];
    forall i | 0 <= i < |lines[1..][1..]| ensures Unbroken(lines[1..][1..][i]) && lines[1..][1..][i] != "" {
      assert lines[1..][1..][i] == lines[1..][i + 1];
    }
  }

  lemma {:induction false} EncodeJoin(lines: seq<string>)
    requires |lines| > 1
    ensures Encode(Join(lines)) == Encode(lines[0]) + [13, 10] + Encode(Join(lines[1..]))
  {
    hide Encode;
    EncodeCrlf();
    EncodeConcat(lines[0] + "\r\n", Join(lines[1..]));
    EncodeConcat(lines[0], "\r\n");
  }

  lemma {:induction false} BlankFirst(body: seq<byte>)
    ensures FindBlank(BLANK + body) == 0
  {
    assert BlankAt(BLANK + body, 0);
  }

  lemma {:induction false} LinesOfUnbroken(line: string, rest: string)
    requires Unbroken(line) && (rest != "" ==> rest[0] == '\r')
    ensures Lines(line + rest) == [line + Lines(rest)[0]] + Lines(rest)[1..]
  {
    hide Unbroken, Lines;
    if line == "" {
      assert line + rest == rest;
      assert line + Lines(rest)[0] == Lines(rest)[0];
    } else {
      UnbrokenTail(line);
      assert line + rest == [line[0]] + (line[1..] + rest);
      LinesOfUnbroken(line[1..], rest);
      LinesLonger(line[0], line[1..] + rest);
      assert [line[0]] + (line[1..] + Lines(rest)[0]) == line + Lines(rest)[0];
    }
  }

  lemma {:induction false} LinesLonger(c: char, s: string)
    requires !(c == '\r' && s != "" && s[0] == '\n')
    ensures Lines([c] + s) == [[c] + Lines(s)[0]] + Lines(s)[1..]
  {
    assert ([c] + s)[1..] == s;
  }

  lemma {:induction false} LinesCrlf(rest: string)
    ensures Lines("\r\n" + rest) == [""] + Lines(rest)
  {
    assert ("\r\n" + rest)[2..] == rest;
  }

  /** Splitting joined lines gives the lines back. */
  lemma {:induction false} LinesJoin(lines: seq<string>)
    requires lines != [] && Unbroken(lines[0]) && FieldLines(lines[1..])
    ensures Lines(Join(lines)) == lines
    decreases |lines|
  {
    hide Lines, Unbroken;
    assert lines[0] + "" == lines[0];
    if |lines| == 1 {
      LinesOfUnbroken(lines[0], "");
      LinesOfNothing();
    } else {
      RestFieldLines(lines);
      LinesJoin(lines[1..]);
      LinesCrlf(Join(lines[1..]));
      LinesOfUnbroken(lines[0], "\r\n" + Join(lines[1..]));
      assert lines[0] + ("\r\n" + Join(lines[1..])) == Join(lines);
    }
  }

  lemma {:induction false} LinesOfNothing()
    ensures Lines("") == [""]
  {
  }

  /** Reading a printed message reads its status line, its header lines and its body, whatever they are. */
  lemma {:induction false} ParseWire<J>(json: Json<J>, statusLine: string, fields: seq<string>, body: seq<byte>)
    requires Unbroken(statusLine) && FieldLines(fields)
    ensures Parse(json, Wire(statusLine, fields, body)) == Assemble(json, StatusOf(statusLine), Fold(fields), body)
  {
    hide FindBlank, Lines, StatusOf, Fold, Assemble, Decode, Encode, Join, Unbroken, FieldLines;
    var lines := [statusLine] + fields;
    assert lines[1..] == fields;
    FindPrintedEnd(lines, body);
    LinesJoin(lines);
    var text := Join(lines);
    var head := Encode(text);
    var raw := Wire(statusLine, fields, body);
    assert raw == head + (BLANK + body);
    assert raw[..|head|] == head && raw[|head| + 4..] == body;
    DecodeWhole(text);
    assert lines[0] == statusLine && lines[1..] == fields;
  }

  lemma {:induction false} DecodeWhole(s: string)
    ensures Decode(Encode(s)) == Some(s)
  {
    hide Encode;
    DecodeEncode(s, []);
    assert Encode(s) + [] == Encode(s);
    assert s + "" == s;
  }

  // ----- what is accepted

  /** Splitting a text into lines takes it apart at its line breaks. */
  lemma {:induction false} LinesSplit(s: string)
    ensures Join(Lines(s)) == s
    ensures forall i :: 0 <= i < |Lines(s)| ==> Unbroken(Lines(s)[i])
    ensures Lines(s)[0] <= s
    decreases |s|
  {
    hide Unbroken;
    if s == "" {
      ShortUnbroken("");
    } else if |s| >= 2 && s[0] == '\r' && s[1] == '\n' {
      LinesSplit(s[2..]);
      ShortUnbroken("");
      assert Lines(s)[1..] == Lines(s[2..]);
      assert s == "" + "\r\n" + s[2..];
    } else {
      LinesSplit(s[1..]);
      var rest := Lines(s[1..]);
      assert Lines(s)[1..] == rest[1..];
      JoinLonger(s[0], rest);
      UnbrokenLonger(s[0], rest[0], s[1..]);
      assert s == [s[0]] + s[1..];
    }
  }

  lemma {:induction false} ShortUnbroken(s: string)
    requires |s| < 2
    ensures Unbroken(s)
  {
  }

  lemma {:induction false} JoinLonger(c: char, lines: seq<string>)
    requires lines != []
    ensures Join([[c] + lines[0]] + lines[1..]) == [c] + Join(lines)
  {
    var longer := [[c] + lines[0]] + lines[1..];
    assert longer[1..] == lines[1..];
    if |lines| > 1 {
      assert [c] + lines[0] + "\r\n" + Join(lines[1..]) == [c] + (lines[0] + "\r\n" + Join(lines[1..]));
    }
  }

  lemma {:induction false} UnbrokenLonger(c: char, line: string, s: string)
    requires Unbroken(line) && line <= s && !(s != "" && c == '\r' && s[0] == '\n')
    ensures Unbroken([c] + line)
  {
  }

  /** An empty line after the first one makes a blank line before the end of the head. */
  lemma {:induction false} EmptyLineIsBlank(lines: seq<string>, i: nat, body: seq<byte>) returns (k: nat)
    requires 1 <= i < |lines| && lines[i] == ""
    ensures k < |Encode(Join(lines))| && BlankAt(Encode(Join(lines)) + (BLANK + body), k)
  {
    hide Encode, BlankAt, Join, AfterFirst;
    var head, more := Encode(lines[0]), Encode(Join(lines[1..]));
    var rest := more + (BLANK + body);
    BreakAfterFirst(lines, body);
    if i == 1 {
      k := |head|;
      SecondLineIsBlank(lines, body);
      BlankShifts(head, [13, 10] + rest, 0);
    } else {
      var j := EmptyLineIsBlank(lines[1..], i - 1, body);
      k := |head| + (2 + j);
      BlankShifts([13, 10], rest, j);
      BlankShifts(head, [13, 10] + rest, 2 + j);
    }
  }

  lemma {:induction false} BreakAfterFirst(lines: seq<string>, body: seq<byte>)
    requires |lines| > 1
    ensures var head, more := Encode(lines[0]), Encode(Join(lines[1..]));
      && |Encode(Join(lines))| == |head| + 2 + |more|
      && Encode(Join(lines)) + (BLANK + body) == head + ([13, 10] + (more + (BLANK + body)))
  {
    hide Encode;
    HeadSplits(lines, body);
    EncodeJoin(lines);
  }

  lemma {:induction false} SecondLineIsBlank(lines: seq<string>, body: seq<byte>)
    requires |lines| > 1 && lines[1] == ""
    ensures BlankAt([13, 10] + (Encode(Join(lines[1..])) + (BLANK + body)), 0)
  {
    hide Encode, BlankAt, Join;
    HeadSplits(lines[1..], body);
    EncodeNothing();
    var after := AfterFirst(lines[1..], body);
    assert [] + after == after;
    TwoBreaks(lines[1..], body);
  }

  lemma {:induction false} EncodeNothing()
    ensures Encode("") == []
  {
  }

  lemma {:induction false} TwoBreaks(lines: seq<string>, body: seq<byte>)
    requires lines != []
    ensures BlankAt([13, 10] + AfterFirst(lines, body), 0)
  {
    hide Encode;
  }

  lemma {:induction false} BlankShifts(a: seq<byte>, b: seq<byte>, i: nat)
    requires BlankAt(b, i)
    ensures BlankAt(a + b, |a| + i)
  {
  }

  /** Bytes with a blank line and a head in UTF-8 are the printed form of the head's lines. */
  lemma {:induction false} HeadIsPrinted(raw: seq<byte>, text: string)
    requires FindBlank(raw) < |raw| && Decode(raw[..FindBlank(raw)]) == Some(text)
    ensures var lines := Lines(text); Unbroken(lines[0]) && FieldLines(lines[1..])
    ensures raw == Wire(Lines(text)[0], Lines(text)[1..], raw[FindBlank(raw) + 4..])
  {
    hide FindBlank, Lines, Decode, Encode, Unbroken, Join;
    var lines, end := Lines(text), FindBlank(raw);
    var body := raw[end + 4..];
    DecodeIff(raw[..end], text);
    LinesSplit(text);
    assert [lines[0]] + lines[1..] == lines;
    assert raw == raw[..end] + (BLANK + body);
    forall i | 0 <= i < |lines[1..]| ensures Unbroken(lines[1..][i]) && lines[1..][i] != "" {
      assert lines[1..][i] == lines[i + 1];
      if lines[i + 1] == "" {
        var k := EmptyLineIsBlank(lines, i + 1, body);
        NoEarlierBlank(raw, k);
        assert false;
      }
    }
  }

  lemma {:induction false} NoEarlierBlank(raw: seq<byte>, k: nat)
    requires k < FindBlank(raw)
    ensures !BlankAt(raw, k)
  {
  }

  /** The framing of a body: chunked, of a stated length, or up to the end. */
  ghost predicate Framed(framing: Framing, body: seq<byte>, bytes: seq<byte>) {
    if framing.chunked then
      exists cs, last, rest :: Chunked.Encodes(body, cs, last, rest, bytes)
    else
      body == bytes && (framing.contentLength.Some? ==> framing.contentLength.value == |bytes|)
  }

  lemma {:induction false} BodyIff(body: seq<byte>, framing: Framing, bytes: seq<byte>)
    ensures BodyOf(body, framing) == Ok(bytes) <==> Framed(framing, body, bytes)
  {
    hide Chunked.Dechunk, Chunked.Encodes;
    Chunked.DechunkIff(body, bytes);
  }

  /** A response in its parts: a status line and field lines that are right, and a framed body. */
  ghost predicate Message(raw: seq<byte>, statusLine: string, fields: seq<string>, body: seq<byte>, status: nat,
      framing: Framing, bytes: seq<byte>) {
    && raw == Wire(statusLine, fields, body) && Unbroken(statusLine)
    && StatusOf(statusLine) == Ok(status) && Fold(fields) == Ok(framing) && Framed(framing, body, bytes)
  }

  lemma {:induction false} MessageParses<J>(json: Json<J>, raw: seq<byte>, statusLine: string, fields: seq<string>,
      body: seq<byte>, status: nat, framing: Framing, bytes: seq<byte>)
    requires Message(raw, statusLine, fields, body, status, framing, bytes)
    ensures Parse(json, raw) == Deliver(json, status, bytes)
  {
    hide Parse, Wire, Unbroken, FieldLines, StatusOf, Fold, Framed, BodyOf, Deliver;
    FoldedLines(fields);
    ParseWire(json, statusLine, fields, body);
    BodyIff(body, framing, bytes);
  }

  lemma {:induction false} ParsedIsMessage<J>(json: Json<J>, raw: seq<byte>)
      returns (statusLine: string, fields: seq<string>, body: seq<byte>, status: nat, framing: Framing,
        bytes: seq<byte>)
    requires Parse(json, raw).Ok?
    ensures Message(raw, statusLine, fields, body, status, framing, bytes)
    ensures Parse(json, raw) == Deliver(json, status, bytes)
  {
    hide FindBlank, Lines, Decode, Wire, Unbroken, FieldLines, StatusOf, Fold, Framed, BodyOf, Deliver;
    var end := FindBlank(raw);
    var text := Decode(raw[..end]).value;
    HeadIsPrinted(raw, text);
    statusLine, fields, body := Lines(text)[0], Lines(text)[1..], raw[end + 4..];
    status, framing := StatusOf(statusLine).value, Fold(fields).value;
    bytes := BodyOf(body, framing).value;
    BodyIff(body, framing, bytes);
  }

  /** The response for a status and a body: no body at all, the value the body holds, or, for an error status only, the
      value made of a body that holds none. */
  ghost predicate Answers<J>(json: Json<J>, status: nat, bytes: seq<byte>, response: Response<J>) {
    && response.status == status
    && (response.body.None? <==> bytes == [])
    && (bytes != [] && json.read(bytes).Some? ==> response.body == json.read(bytes))
    && (bytes != [] && json.read(bytes).None? ==>
        status >= 400 && response.body == Some(json.fromError(status, bytes)))
  }

  lemma {:induction false} DeliverIff<J>(json: Json<J>, status: nat, bytes: seq<byte>, response: Response<J>)
    ensures Deliver(json, status, bytes) == Ok(response) <==> Answers(json, status, bytes, response)
    ensures Deliver(json, status, bytes).Err? ==> Deliver(json, status, bytes).error == BadJson
  {
  }

  /** The reader returns a response exactly when the bytes are a status line and field lines that are right, joined by
      line breaks and in UTF-8, a blank line and a framed body, and that is the response for this status and body. */
  lemma {:induction false} ParseIff<J>(json: Json<J>, raw: seq<byte>, response: Response<J>)
    ensures Parse(json, raw) == Ok(response) <==>
      exists statusLine, fields, body, status, framing, bytes ::
        && Message(raw, statusLine, fields, body, status, framing, bytes)
        && Answers(json, status, bytes, response)
  {
    hide Parse, Message, Deliver, Answers;
    if Parse(json, raw) == Ok(response) {
      var statusLine, fields, body, status, framing, bytes := ParsedIsMessage(json, raw);
      DeliverIff(json, status, bytes, response);
    }
    if statusLine, fields, body, status, framing, bytes :|
      && Message(raw, statusLine, fields, body, status, framing, bytes)
      && Answers(json, status, bytes, response)
    {
      MessageParses(json, raw, statusLine, fields, body, status, framing, bytes);
      DeliverIff(json, status, bytes, response);
    }
  }

  /** The decoder with machine positions does not panic on any message. */
  lemma {:induction false} MessagesDoNotPanic(checked: bool, raw: seq<byte>, statusLine: string, fields: seq<string>,
      body: seq<byte>, status: nat, framing: Framing, bytes: seq<byte>)
    requires Message(raw, statusLine, fields, body, status, framing, bytes) && framing.chunked
    requires |body| <= Chunked.ISIZE_MAX
    ensures !Chunked.Panics(checked, body, 0)
  {
    hide Wire, Unbroken, StatusOf, Fold, Chunked.Encodes, Chunked.Dechunk, Chunked.Panics;
    Chunked.DechunkIff(body, bytes);
    assert body[0..] == body;
    if Chunked.Panics(checked, body, 0) {
      Chunked.PanicIsInvalidBody(checked, body, 0);
    }
  }

  lemma {:induction false} NoBlankIff(raw: seq<byte>)
    ensures FindBlank(raw) == |raw| <==> forall i: nat :: !BlankAt(raw, i)
  {
  }

  /** The head is missing exactly when there is no blank line, and unreadable exactly when what stands before the first
      one is no UTF-8 text. */
  lemma {:induction false} HeadErrorsIff<J>(json: Json<J>, raw: seq<byte>)
    ensures Parse(json, raw) == Err(NoHeaderEnd) <==> forall i: nat :: !BlankAt(raw, i)
    ensures Parse(json, raw) == Err(NotText) <==>
      FindBlank(raw) < |raw| && forall text :: raw[..FindBlank(raw)] != Encode(text)
  {
    hide Lines, Decode, Encode, StatusOf, Fold, Chunked.Dechunk, BlankAt;
    NoBlankIff(raw);
    var head := raw[..FindBlank(raw)];
    if Decode(head).Some? {
      DecodeIff(head, Decode(head).value);
    }
    forall text | head == Encode(text) ensures Decode(head) == Some(text) {
      DecodeIff(head, text);
    }
  }

  // ----- the same body either way

  lemma {:induction false} FoldedLines(fields: seq<string>)
    requires Fold(fields).Ok?
    ensures FieldLines(fields)
  {
    hide ReadLine, Fold, LineChar;
    FoldIff(fields, Fold(fields).value);
    forall i | 0 <= i < |fields| ensures Unbroken(fields[i]) && fields[i] != "" {
      ReadLineUnbroken(fields[i]);
    }
  }

  lemma {:induction false} ReadLineUnbroken(line: string)
    requires ReadLine(line).Ok?
    ensures Unbroken(line) && line != ""
  {
    assert forall j :: 0 <= j < |line| ==> LineChar(line[j]);
  }

  /** A body sent whole under its Content-Length and the same body sent in chunks give the same response, whatever the
      pieces, extensions and trailer, and wherever the framing lines stand among the others. */
  lemma {:induction false} SameBodyEitherWay<J>(json: Json<J>, statusLine: string, sized: seq<string>,
      chunked: seq<string>, pieces: seq<Chunked.Piece>, lastExtension: seq<byte>, trailer: seq<byte>)
    requires Unbroken(statusLine)
    requires Fold(sized) == Ok(Framing(false, Some(|Chunked.Joined(pieces)|)))
    requires Fold(chunked).Ok? && Fold(chunked).value.chunked
    requires (forall p :: p in pieces ==> Chunked.Sendable(p)) && Chunked.Extension(lastExtension)
    ensures Parse(json, Wire(statusLine, sized, Chunked.Joined(pieces))) ==
      Parse(json, Wire(statusLine, chunked, Chunked.Message(pieces, lastExtension, trailer)))
    ensures StatusOf(statusLine).Ok? ==>
      Parse(json, Wire(statusLine, sized, Chunked.Joined(pieces))) ==
        Deliver(json, StatusOf(statusLine).value, Chunked.Joined(pieces))
  {
    hide Parse, Wire, Fold, StatusOf, Unbroken, FieldLines, Deliver, Chunked.Message, Chunked.Dechunk, Chunked.Joined,
      Chunked.Sendable, Chunked.Extension;
    FoldedLines(sized);
    FoldedLines(chunked);
    ParseWire(json, statusLine, sized, Chunked.Joined(pieces));
    ParseWire(json, statusLine, chunked, Chunked.Message(pieces, lastExtension, trailer));
    Chunked.ChunkedRoundTrip(pieces, lastExtension, trailer);
  }

  /** The same with the framing lines written out: fields that say nothing about framing, with a Content-Length line
      or a chunked Transfer-Encoding line (names and coding in any letter case) put anywhere among them. */
  lemma {:induction false} ContentLengthOrChunked<J>(json: Json<J>, statusLine: string,
      a: seq<string>, b: seq<string>, c: seq<string>, d: seq<string>,
      lengthName: string, encodingName: string, coding: string,
      pieces: seq<Chunked.Piece>, lastExtension: seq<byte>, trailer: seq<byte>)
    requires Unbroken(statusLine) && StatusOf(statusLine).Ok?
    requires Fold(a + b) == Ok(Framing(false, None)) && Fold(c + d) == Ok(Framing(false, None))
    requires Lower(lengthName) == "content-length" && Lower(encodingName) == "transfer-encoding"
      && Lower(coding) == "chunked"
    requires (forall p :: p in pieces ==> Chunked.Sendable(p)) && Chunked.Extension(lastExtension)
    requires |Chunked.Joined(pieces)| <= USIZE_MAX
    ensures var body := Chunked.Joined(pieces);
      var lengthLine := lengthName + ":" + (" " + PrintNat(|body|, 10));
      var chunkedLine := encodingName + ":" + (" " + coding);
      var sized := Parse(json, Wire(statusLine, a + [lengthLine] + b, body));
      var chunked := Parse(json,
        Wire(statusLine, c + [chunkedLine] + d, Chunked.Message(pieces, lastExtension, trailer)));
      sized == chunked == Deliver(json, StatusOf(statusLine).value, body)
  {
    hide Parse, Wire, Fold, StatusOf, Unbroken, FieldLines, Deliver, ReadLine, Lower, PrintNat, Chunked.Message,
      Chunked.Joined, Chunked.Sendable, Chunked.Extension;
    var n := |Chunked.Joined(pieces)|;
    var lengthLine, chunkedLine := lengthName + ":" + (" " + PrintNat(n, 10)), encodingName + ":" + (" " + coding);
    FramingLines.LengthLine(lengthName, n);
    FramingLines.ChunkedLine(encodingName, coding);
    FramingLines.OneFramingLine(a, lengthLine, b);
    FramingLines.OneFramingLine(c, chunkedLine, d);
    SameBodyEitherWay(json, statusLine, a + [lengthLine] + b, c + [chunkedLine] + d, pieces, lastExtension, trailer);
  }

  /** A message whose fields state a length and no chunked coding is read as its body exactly when the body has that
      length, and otherwise refused as truncated or oversized. */
  lemma {:induction false} LengthMustMatch<J>(json: Json<J>, statusLine: string, fields: seq<string>, n: nat,
      body: seq<byte>)
    requires Unbroken(statusLine) && StatusOf(statusLine).Ok? && Fold(fields) == Ok(Framing(false, Some(n)))
    ensures Parse(json, Wire(statusLine, fields, body)) ==
      if |body| < n then Err(Truncated) else if |body| > n then Err(Oversized)
        else Deliver(json, StatusOf(statusLine).value, body)
  {
    hide Parse, Wire, Fold, StatusOf, Unbroken, FieldLines, Deliver;
    FoldedLines(fields);
    ParseWire(json, statusLine, fields, body);
  }
}
