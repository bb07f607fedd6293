/** The header section of a native control response (sections 4 to 6.3 of RFC 9112): the status line, single header
    lines, and the fold of all lines into the two facts that frame the body. */
module Headers {
  import opened Outcomes
  import opened RustText

  datatype HeadError =
    | InvalidHeader
    | UnsupportedTransferEncoding
    | InvalidContentLength
    | ConflictingContentLength
    | MissingVersion
    | UnsupportedVersion
    | MissingStatus
    | InvalidStatus
    | UnsupportedStatus

  // ----- one header line

  predicate LineChar(c: char) {
    c == '\t' || (c >= ' ' && c != '\U{7F}')
  }

  predicate TokenChar(c: char) {
    '0' <= c <= '9' || 'a' <= c <= 'z' || 'A' <= c <= 'Z' || c in "!#$%&'*+-.^_`|~"
  }

  predicate ValidLine(line: string) {
    line != "" && ':' in line && forall i :: 0 <= i < |line| ==> LineChar(line[i])
  }

  predicate ValidName(name: string) {
    name != "" && forall i :: 0 <= i < |name| ==> TokenChar(name[i])
  }

  /** `split(c)`: the parts between the separators, at least one. */
  function Split(s: string, c: char): (parts: seq<string>)
    ensures parts != []
  {
    if s == "" then [""]
    else
      var rest := Split(s[1..], c);
      if s[0] == c then [""] + rest else [[s[0]] + rest[0]] + rest[1..]
  }

  /** The non-empty parts, trimmed and in lower case. */
  function Tokens(parts: seq<string>): seq<string> {
    if parts == [] then []
    else
      var token := Lower(Trim(parts[0]));
      (if token == "" then [] else [token]) + Tokens(parts[1..])
  }

  /** What one header line says about framing. */
  datatype Field = Chunked | Length(n: nat) | Other

  function ReadValue(name: string, value: string): Result<Field, HeadError> {
    if Lower(name) == "transfer-encoding" then
      var tokens := Tokens(Split(value, ','));
      if tokens == ["chunked"] then Ok(Chunked)
      else if tokens != [] then Err(UnsupportedTransferEncoding)
      else Ok(Other)
    else if Lower(name) == "content-length" then
      var length := ParseUsize(Trim(value), 10);
      if length.None? then Err(InvalidContentLength) else Ok(Length(length.value))
    else Ok(Other)
  }

  function ReadLine(line: string): Result<Field, HeadError> {
    if !ValidLine(line) then Err(InvalidHeader)
    else
      var name := UpTo(line, ':');
      if !ValidName(name) || |line| <= |name| then Err(InvalidHeader)
      else ReadValue(name, line[|name| + 1..])
  }

  lemma {:induction false} TokenIsLineChar(c: char)
    requires TokenChar(c)
    ensures LineChar(c) && c != ':'
  {
  }

  predicate FieldLine(line: string, name: string, value: string) {
    line == name + ":" + value && ValidName(name) && forall i :: 0 <= i < |value| ==> LineChar(value[i])
  }

  /** A line made of a name, a colon and a value without control characters is read as that name and value. */
  lemma {:induction false} FieldLineIsRead(line: string, name: string, value: string)
    requires FieldLine(line, name, value)
    ensures ReadLine(line) == ReadValue(name, value)
  {
    hide TokenChar, LineChar, ReadValue;
    forall i | 0 <= i < |name| ensures LineChar(name[i]) && name[i] != ':' {
      TokenIsLineChar(name[i]);
    }
    ColonIsLineChar();
    UpToName(name, ':', value);
    assert line[|name|] == ':' && line[|name| + 1..] == value;
    assert ValidLine(line);
  }

  lemma {:induction false} ColonIsLineChar()
    ensures LineChar(':') && LineChar(' ')
  {
  }

  lemma {:induction false} ValueIsNeverInvalid(name: string, value: string)
    ensures ReadValue(name, value) != Err(InvalidHeader)
  {
    hide Lower, Tokens, Split, ParseUsize, Trim;
  }

  /** No other line is accepted (section 5 of RFC 9112). */
  lemma {:induction false} LineIff(line: string)
    ensures ReadLine(line) != Err(InvalidHeader) <==> exists name, value :: FieldLine(line, name, value)
  {
    hide TokenChar, LineChar, ReadValue;
    if ReadLine(line) != Err(InvalidHeader) {
      var name := UpTo(line, ':');
      UpToSplits(line, ':');
      var value := line[|name| + 1..];
      assert line == name + ":" + value;
      assert FieldLine(line, name, value);
    }
    if name, value :| FieldLine(line, name, value) {
      FieldLineIsRead(line, name, value);
      ValueIsNeverInvalid(name, value);
    }
  }

  function Commas(parts: seq<string>): string
    requires parts != []
  {
    if |parts| == 1 then parts[0] else parts[0] + "," + Commas(parts[1..])
  }

  lemma {:induction false} SplitPart(part: string, c: char, rest: string)
    requires c !in part
    ensures Split(part + rest, c) == [part + Split(rest, c)[0]] + Split(rest, c)[1..]
  {
    if part == "" {
      assert part + rest == rest && part + Split(rest, c)[0] == Split(rest, c)[0];
    } else {
      assert part[0] in part && (part + rest)[1..] == part[1..] + rest;
      SplitPart(part[1..], c, rest);
      assert [part[0]] + (part[1..] + Split(rest, c)[0]) == part + Split(rest, c)[0];
    }
  }

  lemma {:induction false} SplitHead(c: char, rest: string)
    ensures Split([c] + rest, c) == [""] + Split(rest, c)
  {
    assert ([c] + rest)[1..] == rest;
  }

  /** Splitting what commas joined gives the parts back. */
  lemma {:induction false} SplitCommas(parts: seq<string>)
    requires parts != [] && forall i :: 0 <= i < |parts| ==> ',' !in parts[i]
    ensures Split(Commas(parts), ',') == parts
    decreases |parts|
  {
    hide Split;
    assert parts[0] + "" == parts[0];
    if |parts| == 1 {
      SplitPart(parts[0], ',', "");
      SplitNothing(',');
    } else {
      SplitCommas(parts[1..]);
      SplitHead(',', Commas(parts[1..]));
      SplitPart(parts[0], ',', "," + Commas(parts[1..]));
      assert parts[0] + ("," + Commas(parts[1..])) == Commas(parts);
    }
  }

  lemma {:induction false} SplitNothing(c: char)
    ensures Split("", c) == [""]
  {
  }

  predicate Blank(part: string) {
    Trim(part) == ""
  }

  lemma {:induction false} TokensOf(parts: seq<string>, i: nat)
    requires i < |parts|
    requires forall j :: 0 <= j < |parts| && j != i ==> Blank(parts[j])
    ensures Tokens(parts) == if Blank(parts[i]) then [] else [Lower(Trim(parts[i]))]
  {
    hide Trim;
    if i == 0 {
      AllBlank(parts[1..]);
    } else {
      assert Blank(parts[0]) && parts[1..][i - 1] == parts[i];
      TokensOf(parts[1..], i - 1);
    }
  }

  lemma {:induction false} AllBlank(parts: seq<string>)
    ensures Tokens(parts) == [] <==> forall j :: 0 <= j < |parts| ==> Blank(parts[j])
  {
    hide Trim;
    if parts != [] {
      AllBlank(parts[1..]);
      assert forall j :: 0 < j < |parts| ==> parts[j] == parts[1..][j - 1];
    }
  }

  lemma {:induction false} OneToken(parts: seq<string>, t: string) returns (i: nat)
    requires Tokens(parts) == [t]
    ensures i < |parts| && !Blank(parts[i]) && Lower(Trim(parts[i])) == t
    ensures forall j :: 0 <= j < |parts| && j != i ==> Blank(parts[j])
  {
    hide Trim;
    if Blank(parts[0]) {
      i := OneToken(parts[1..], t);
      i := i + 1;
      assert forall j :: 0 < j < |parts| ==> parts[j] == parts[1..][j - 1];
    } else {
      i := 0;
      assert Tokens(parts) == [Lower(Trim(parts[0]))] + Tokens(parts[1..]);
      assert Tokens(parts)[0] == Lower(Trim(parts[0])) && Tokens(parts)[1..] == Tokens(parts[1..]);
      AllBlank(parts[1..]);
      assert forall j :: 0 < j < |parts| ==> parts[j] == parts[1..][j - 1];
    }
  }

  /** One element of the list is the chunked coding, the others are blank. */
  predicate OnlyChunked(parts: seq<string>, i: nat) {
    i < |parts| && Lower(Trim(parts[i])) == "chunked" && forall j :: 0 <= j < |parts| && j != i ==> Blank(parts[j])
  }

  /** A Transfer-Encoding list is taken as chunked exactly when its one element that is not blank is the chunked coding,
      ignored when all are blank, and refused otherwise. */
  lemma {:induction false} TransferEncodingIff(name: string, parts: seq<string>)
    requires Lower(name) == "transfer-encoding" && parts != []
    requires forall i :: 0 <= i < |parts| ==> ',' !in parts[i]
    ensures ReadValue(name, Commas(parts)) == Ok(Chunked) <==> exists i :: OnlyChunked(parts, i)
    ensures ReadValue(name, Commas(parts)) == Ok(Other) <==> forall i :: 0 <= i < |parts| ==> Blank(parts[i])
    ensures ReadValue(name, Commas(parts)).Err? ==> ReadValue(name, Commas(parts)).error == UnsupportedTransferEncoding
  {
    hide Split, Tokens, Commas, Trim;
    SplitCommas(parts);
    AllBlank(parts);
    if Tokens(parts) == ["chunked"] {
      var i := OneToken(parts, "chunked");
      assert OnlyChunked(parts, i);
    }
    if i :| OnlyChunked(parts, i) {
      TokensOf(parts, i);
    }
  }

  // ----- folding the lines

  datatype Framing = Framing(chunked: bool, contentLength: Option<nat>)

  function Apply(h: Framing, field: Field): Result<Framing, HeadError> {
    match field
    case Chunked => Ok(h.(chunked := true))
    case Length(n) =>
      if h.contentLength.Some? && h.contentLength.value != n then Err(ConflictingContentLength)
      else Ok(h.(contentLength := Some(n)))
    case Other => Ok(h)
  }

  /** The framing after the lines, or the error of the first line that is wrong. */
  function Fold(lines: seq<string>): Result<Framing, HeadError> {
    if lines == [] then Ok(Framing(false, None))
    else
      var before := Fold(lines[..|lines| - 1]);
      if before.Err? then before
      else
        var field := ReadLine(lines[|lines| - 1]);
        if field.Err? then Err(field.error) else Apply(before.value, field.value)
  }

  method ParseHeaderLines(lines: seq<string>) returns (result: Result<Framing, HeadError>)
    ensures result == Fold(lines)
  {
    var chunked := false;
    var contentLength: Option<nat> := None;
    for i := 0 to |lines|
      invariant Fold(lines[..i]) == Ok(Framing(chunked, contentLength))
    {
      FoldSnoc(lines, i);
      var line := lines[i];
      var field := ReadLine(line);
      if field.Err? {
        return Err(field.error);
      }
      match field.value
      case Chunked =>
        chunked := true;
      case Length(n) =>
        if contentLength.Some? && contentLength.value != n {
          return Err(ConflictingContentLength);
        }
        contentLength := Some(n);
      case Other =>
    }
    assert lines[..|lines|] == lines;
    return Ok(Framing(chunked, contentLength));
  }

  lemma {:induction false} FoldSnoc(lines: seq<string>, i: nat)
    requires i < |lines|
    ensures var before, field := Fold(lines[..i]), ReadLine(lines[i]);
      Fold(lines[..i + 1]) == if before.Err? then before else if field.Err? then Err(field.error)
        else Apply(before.value, field.value)
    ensures Fold(lines[..i + 1]).Err? ==> Fold(lines) == Fold(lines[..i + 1])
    decreases |lines|
  {
    hide ReadLine;
    assert lines[..i + 1][..i] == lines[..i];
    if i + 1 == |lines| {
      assert lines[..i + 1] == lines;
    } else {
      var init := lines[..|lines| - 1];
      assert init[..i] == lines[..i] && init[..i + 1] == lines[..i + 1];
      FoldSnoc(init, i);
    }
  }

  // ----- the order-free meaning

  predicate Says(lines: seq<string>, field: Field) {
    exists i :: 0 <= i < |lines| && ReadLine(lines[i]) == Ok(field)
  }

  predicate AllRead(lines: seq<string>) {
    forall i :: 0 <= i < |lines| ==> ReadLine(lines[i]).Ok?
  }

  /** Every line is right, the body is chunked exactly when some line says so, and the length is the one every
      Content-Length line states. Nothing here depends on the order of the lines. */
  ghost predicate Describes(h: Framing, lines: seq<string>) {
    && AllRead(lines)
    && (h.chunked <==> Says(lines, Chunked))
    && (forall n: nat :: Says(lines, Length(n)) <==> h.contentLength == Some(n))
  }

  lemma {:induction false} SaysSnoc(init: seq<string>, line: string, field: Field)
    ensures Says(init + [line], field) <==> Says(init, field) || ReadLine(line) == Ok(field)
  {
    hide ReadLine;
    var lines := init + [line];
    if Says(init, field) {
      var i :| 0 <= i < |init| && ReadLine(init[i]) == Ok(field);
      assert ReadLine(lines[i]) == Ok(field);
    }
    if ReadLine(line) == Ok(field) {
      assert ReadLine(lines[|init|]) == Ok(field);
    }
  }

  lemma {:induction false} AllReadSnoc(init: seq<string>, line: string)
    ensures AllRead(init + [line]) <==> AllRead(init) && ReadLine(line).Ok?
  {
    hide ReadLine;
    var lines := init + [line];
    assert lines[|init|] == line;
    if AllRead(lines) {
      forall i | 0 <= i < |init| ensures ReadLine(init[i]).Ok? {
        assert lines[i] == init[i];
      }
    }
  }

  lemma {:induction false} DescribesSnoc(init: seq<string>, line: string, before: Framing, h: Framing)
    requires Describes(before, init) && ReadLine(line).Ok?
    ensures Describes(h, init + [line]) <==> Apply(before, ReadLine(line).value) == Ok(h)
  {
    hide ReadLine, Says, AllRead;
    AllReadSnoc(init, line);
    SaysSnoc(init, line, Chunked);
    forall n: nat ensures Says(init + [line], Length(n)) <==> Says(init, Length(n)) || ReadLine(line) == Ok(Length(n)) {
      SaysSnoc(init, line, Length(n));
    }
    match ReadLine(line).value
    case Length(n) =>
      assert Says(init + [line], Length(n));
      if before.contentLength.Some? {
        assert Says(init + [line], Length(before.contentLength.value));
      }
    case _ =>
      if before.contentLength.Some? {
        assert Says(init + [line], Length(before.contentLength.value));
      }
      if h.contentLength.Some? && Describes(h, init + [line]) {
        assert Says(init + [line], Length(h.contentLength.value));
      }
  }

  lemma {:induction false} NothingDescribesMore(init: seq<string>, line: string, h: Framing) returns (before: Framing)
    requires Describes(h, init + [line])
    ensures Describes(before, init)
  {
    hide ReadLine, Says, AllRead;
    AllReadSnoc(init, line);
    SaysSnoc(init, line, Chunked);
    forall n: nat ensures Says(init + [line], Length(n)) <==> Says(init, Length(n)) || ReadLine(line) == Ok(Length(n)) {
      SaysSnoc(init, line, Length(n));
    }
    var length := if h.contentLength.Some? && Says(init, Length(h.contentLength.value)) then h.contentLength else None;
    before := Framing(Says(init, Chunked), length);
    forall n: nat ensures Says(init, Length(n)) <==> before.contentLength == Some(n) {
      assert Says(init, Length(n)) ==> Says(init + [line], Length(n));
    }
  }

  /** Folding line by line succeeds with a framing exactly when that framing describes the lines in no order. */
  lemma {:induction false} FoldIff(lines: seq<string>, h: Framing)
    ensures Fold(lines) == Ok(h) <==> Describes(h, lines)
    decreases |lines|
  {
    hide ReadLine;
    if lines == [] {
      assert !Says(lines, Chunked);
      if h.contentLength.Some? {
        assert !Says(lines, Length(h.contentLength.value));
      }
    } else {
      FoldIffSnoc(lines[..|lines| - 1], lines[|lines| - 1], lines, h);
    }
  }

  lemma {:induction false} FoldIffSnoc(init: seq<string>, line: string, lines: seq<string>, h: Framing)
    requires lines == init + [line]
    ensures Fold(lines) == Ok(h) <==> Describes(h, lines)
    decreases |lines|, 0
  {
    hide ReadLine, Describes;
    assert lines[..|lines| - 1] == init;
    var before := Fold(init);
    if before.Ok? {
      FoldIff(init, before.value);
      if ReadLine(line).Ok? {
        DescribesSnoc(init, line, before.value, h);
      } else {
        NotReadNotDescribed(init, line, h);
      }
    } else if Describes(h, lines) {
      var g := NothingDescribesMore(init, line, h);
      FoldIff(init, g);
    }
  }

  lemma {:induction false} NotReadNotDescribed(init: seq<string>, line: string, h: Framing)
    requires ReadLine(line).Err?
    ensures !Describes(h, init + [line])
  {
    hide ReadLine, Says;
    AllReadSnoc(init, line);
  }

  /** A permutation of the lines is accepted with the same framing. */
  lemma {:induction false} OrderDoesNotMatter(a: seq<string>, b: seq<string>, h: Framing)
    requires multiset(a) == multiset(b)
    ensures Fold(a) == Ok(h) <==> Fold(b) == Ok(h)
  {
    hide ReadLine, Describes;
    FoldIff(a, h);
    FoldIff(b, h);
    if Describes(h, a) {
      SameLines(a, b, h);
    }
    if Describes(h, b) {
      SameLines(b, a, h);
    }
  }

  lemma {:induction false} SameLines(a: seq<string>, b: seq<string>, h: Framing)
    requires multiset(a) == multiset(b) && Describes(h, a)
    ensures Describes(h, b)
  {
    hide ReadLine;
    forall i | 0 <= i < |b| ensures ReadLine(b[i]).Ok? {
      var k := Elsewhere(a, b, i);
    }
    forall field ensures Says(b, field) <==> Says(a, field) {
      SaysElsewhere(a, b, field);
      SaysElsewhere(b, a, field);
    }
  }

  lemma {:induction false} Elsewhere(a: seq<string>, b: seq<string>, i: nat) returns (k: nat)
    requires multiset(a) == multiset(b) && i < |b|
    ensures k < |a| && a[k] == b[i]
  {
    assert b[i] in multiset(b);
    assert b[i] in a;
    k :| k < |a| && a[k] == b[i];
  }

  lemma {:induction false} SaysElsewhere(a: seq<string>, b: seq<string>, field: Field)
    requires multiset(a) == multiset(b)
    ensures Says(b, field) ==> Says(a, field)
  {
    hide ReadLine;
    if Says(b, field) {
      var i: nat :| i < |b| && ReadLine(b[i]) == Ok(field);
      var k := Elsewhere(a, b, i);
      assert ReadLine(a[k]) == Ok(field);
    }
  }
}
