/** The chunked transfer coding of the native control client (section 7.1 of RFC 9112). The recursive decoder has
    unbounded positions; the loop has machine positions, whose overflow panics or wraps. */
module Chunked {
  import opened Outcomes
  import opened RustText

  datatype ChunkError = InvalidResponse | InvalidSize | InvalidBody

  const CR: byte := 13
  const LF: byte := 10
  const CRLF: seq<byte> := [CR, LF]

  predicate CrlfAt(raw: seq<byte>, i: nat) {
    i + 1 < |raw| && raw[i] == CR && raw[i + 1] == LF
  }

  /** The position of the first CRLF, or the length if there is none. */
  function FindCrlf(raw: seq<byte>): (k: nat)
    ensures k <= |raw|
    ensures k < |raw| ==> CrlfAt(raw, k)
    ensures forall i: nat :: i < k ==> !CrlfAt(raw, i)
  {
    if |raw| < 2 then |raw|
    else if CrlfAt(raw, 0) then 0
    else
      var k := 1 + FindCrlf(raw[1..]);
      assert forall i: nat :: 0 < i < k && CrlfAt(raw, i) ==> CrlfAt(raw[1..], i - 1);
      k
  }

  /** The chunk size a size line announces; extensions after `;` are ignored. */
  function SizeOf(line: seq<byte>): Option<nat> {
    var text := Decode(line);
    if text.None? then None else ParseUsize(Trim(UpTo(text.value, ';')), 16)
  }

  function Prepend(d: seq<byte>, r: Result<seq<byte>, ChunkError>): Result<seq<byte>, ChunkError> {
    if r.Ok? then Ok(d + r.value) else r
  }

  /** What one size line and the data after it amount to. */
  datatype Step = Bad(error: ChunkError) | End | More(data: seq<byte>, next: nat)

  /** The data of the given size at position `data`, which must end with CRLF. */
  function ReadData(raw: seq<byte>, data: nat, size: Option<nat>): (r: Step)
    requires data <= |raw|
    ensures r.More? ==> data < r.next <= |raw| && r.data != []
  {
    if size.None? then Bad(InvalidSize)
    else if size.value == 0 then End
    else
      var end := data + size.value;
      if |raw| < end + 2 || raw[end..end + 2] != CRLF then Bad(InvalidBody) else More(raw[data..end], end + 2)
  }

  function ReadChunk(raw: seq<byte>): (r: Step)
    ensures r.More? ==> 0 < r.next <= |raw| && r.data != []
  {
    var k := FindCrlf(raw);
    if k == |raw| then Bad(InvalidResponse) else ReadData(raw, k + 2, SizeOf(raw[..k]))
  }

  /** The decoder as a recursion over what is left of the input. */
  function Dechunk(raw: seq<byte>): Result<seq<byte>, ChunkError>
    decreases |raw|
  {
    match ReadChunk(raw)
    case Bad(error) => Err(error)
    case End => Ok([])
    case More(data, next) => Prepend(data, Dechunk(raw[next..]))
  }

  // ----- machine positions

  /** The greatest length of a byte slice. */
  const ISIZE_MAX: nat := 0x7FFF_FFFF_FFFF_FFFF

  function Wrap(n: nat): nat {
    n % (USIZE_MAX + 1)
  }

  /** How a call ends: with a result, or with a panic of checked arithmetic or of a slice out of order. */
  datatype Ending = Returned(result: Result<seq<byte>, ChunkError>) | Panicked

  /** The positions behind a chunk at `data` leave the machine's range, and either arithmetic is checked or one of the
      two slices taken with wrapped positions ends before it starts. */
  predicate Overruns(checked: bool, raw: seq<byte>, data: nat, size: nat) {
    data + size + 2 > USIZE_MAX &&
    (checked || data + size <= USIZE_MAX ||
      (var end := Wrap(data + size); end + 2 <= |raw| && raw[end..end + 2] == CRLF))
  }

  /** Some size line at or after the cursor that the decoder gets to makes it panic. */
  predicate Panics(checked: bool, raw: seq<byte>, cursor: nat)
    requires cursor <= |raw|
    decreases |raw| - cursor
  {
    var k := FindCrlf(raw[cursor..]);
    if k == |raw| - cursor then false
    else
      var data, size := cursor + k + 2, SizeOf(raw[cursor..cursor + k]);
      && size.Some?
      && (Overruns(checked, raw, data, size.value)
        || (ReadData(raw, data, size).More? && Panics(checked, raw, ReadData(raw, data, size).next)))
  }

  /** Where the two positions behind a chunk land. */
  lemma {:induction false} WrappedPositions(data: nat, size: nat)
    requires data <= ISIZE_MAX && size <= USIZE_MAX
    ensures data + size + 2 <= USIZE_MAX ==>
      Wrap(data + size) == data + size && Wrap(data + size + 2) == data + size + 2
    ensures data + size <= USIZE_MAX < data + size + 2 ==> Wrap(data + size + 2) < 2 && Wrap(data + size) > ISIZE_MAX
    ensures data + size > USIZE_MAX ==> Wrap(data + size) < data && Wrap(data + size + 2) == Wrap(data + size) + 2
  {
  }

  /** The data of a chunk of the given size at the cursor, or nothing for a panic. */
  method TakeData(checked: bool, raw: seq<byte>, cursor: nat, size: nat) returns (step: Option<Step>)
    requires 2 <= cursor <= |raw| <= ISIZE_MAX && 0 < size <= USIZE_MAX
    ensures step == if Overruns(checked, raw, cursor, size) then None else Some(ReadData(raw, cursor, Some(size)))
  {
    if checked && cursor + size + 2 > USIZE_MAX {
      return None;
    }
    var end, past := Wrap(cursor + size), Wrap(cursor + size + 2);
    WrappedPositions(cursor, size);
    hide Wrap;
    if |raw| < past {
      return Some(Bad(InvalidBody));
    }
    if past < end {
      return None;
    }
    if raw[end..past] != CRLF {
      return Some(Bad(InvalidBody));
    }
    if end < cursor {
      return None;
    }
    return Some(More(raw[cursor..end], past));
  }

  /** The loop, with arithmetic checked as in a debug build or wrapping as in a release build. */
  method DecodeChunkedBody(checked: bool, raw: seq<byte>) returns (ending: Ending)
    requires |raw| <= ISIZE_MAX
    ensures ending == if Panics(checked, raw, 0) then Panicked else Returned(Dechunk(raw))
  {
    hide SizeOf, FindCrlf, ReadChunk, Dechunk, CrlfAt, Overruns, ReadData;
    var cursor := 0;
    var decoded: seq<byte> := [];
    PrependNothing(Dechunk(raw));
    assert raw[0..] == raw;
    while true
      invariant 0 <= cursor <= |raw|
      invariant Dechunk(raw) == Prepend(decoded, Dechunk(raw[cursor..]))
      invariant Panics(checked, raw, 0) == Panics(checked, raw, cursor)
      decreases |raw| - cursor
    {
      DechunkAt(raw, cursor);
      var offset := FindCrlf(raw[cursor..]);
      if offset == |raw| - cursor {
        return Returned(Err(InvalidResponse));
      }
      LineFits(raw[cursor..]);
      var lineEnd := cursor + offset;
      var size := SizeOf(raw[cursor..lineEnd]);
      ReadSpecial(raw, lineEnd + 2, size);
      if size.None? {
        return Returned(Err(InvalidSize));
      }
      SizeFits(raw[cursor..lineEnd]);
      cursor := lineEnd + 2;
      if size.value == 0 {
        assert decoded + [] == decoded;
        return Returned(Ok(decoded));
      }
      var step := TakeData(checked, raw, cursor, size.value);
      if step.None? {
        return Panicked;
      }
      if step.value.Bad? {
        return Returned(Err(step.value.error));
      }
      PrependTwice(decoded, step.value.data, Dechunk(raw[step.value.next..]));
      decoded, cursor := decoded + step.value.data, step.value.next;
    }
  }

  lemma {:induction false} LineFits(left: seq<byte>)
    requires FindCrlf(left) < |left|
    ensures FindCrlf(left) + 2 <= |left|
  {
  }

  lemma {:induction false} SizeFits(line: seq<byte>)
    ensures SizeOf(line).Some? ==> SizeOf(line).value <= USIZE_MAX
  {
  }

  /** An unreadable or zero size never overruns. */
  lemma {:induction false} ReadSpecial(raw: seq<byte>, data: nat, size: Option<nat>)
    requires data <= |raw|
    ensures size.None? ==> ReadData(raw, data, size) == Bad(InvalidSize)
    ensures size == Some(0) ==> ReadData(raw, data, size) == End
    ensures size.Some? && size.value > 0 ==> !ReadData(raw, data, size).End?
    ensures data <= ISIZE_MAX ==> forall checked :: !Overruns(checked, raw, data, 0)
  {
  }

  /** The panic condition in terms of what is left of the input. */
  lemma {:induction false} PanicsLeft(checked: bool, raw: seq<byte>, cursor: nat)
    requires cursor <= |raw|
    ensures var left := raw[cursor..]; var k := FindCrlf(left);
      Panics(checked, raw, cursor) <==>
        k < |left| && SizeOf(left[..k]).Some? &&
        (Overruns(checked, raw, cursor + k + 2, SizeOf(left[..k]).value)
          || (ReadChunk(left).More? && Panics(checked, raw, cursor + ReadChunk(left).next)))
  {
    hide SizeOf, Overruns, CrlfAt, ReadData, FindCrlf;
    var left := raw[cursor..];
    var k := FindCrlf(left);
    if k < |left| {
      LineFits(left);
      assert left[..k] == raw[cursor..cursor + k];
      ReadDataShift(raw, cursor, k + 2, SizeOf(left[..k]));
    }
  }

  /** The recursion in terms of absolute positions. */
  lemma {:induction false} DechunkAt(raw: seq<byte>, cursor: nat)
    requires cursor <= |raw|
    ensures var k := FindCrlf(raw[cursor..]);
      Dechunk(raw[cursor..]) ==
      if k == |raw| - cursor then Err(InvalidResponse)
      else
        match ReadData(raw, cursor + k + 2, SizeOf(raw[cursor..cursor + k]))
        case Bad(error) => Err(error)
        case End => Ok([])
        case More(data, next) => Prepend(data, Dechunk(raw[next..]))
  {
    hide SizeOf, FindCrlf, CrlfAt, ReadData;
    var left := raw[cursor..];
    var k := FindCrlf(left);
    if k < |left| {
      LineFits(left);
      assert left[..k] == raw[cursor..cursor + k];
      ReadDataShift(raw, cursor, k + 2, SizeOf(left[..k]));
    }
  }

  lemma {:induction false} ReadDataShift(raw: seq<byte>, cursor: nat, data: nat, size: Option<nat>)
    requires cursor + data <= |raw|
    ensures var absolute, relative := ReadData(raw, cursor + data, size), ReadData(raw[cursor..], data, size);
      if absolute.More? then
        relative == More(absolute.data, absolute.next - cursor)
          && raw[cursor..][relative.next..] == raw[absolute.next..]
      else relative == absolute
  {
    if size.Some? && cursor + data + size.value + 2 <= |raw| {
      Slices(raw, cursor, data, data + size.value);
      Slices(raw, cursor, data + size.value, data + size.value + 2);
    }
  }

  lemma {:induction false} PrependNothing(r: Result<seq<byte>, ChunkError>)
    ensures Prepend([], r) == r
  {
    assert r.Ok? ==> [] + r.value == r.value;
  }

  lemma {:induction false} PrependTwice(a: seq<byte>, b: seq<byte>, r: Result<seq<byte>, ChunkError>)
    ensures Prepend(a, Prepend(b, r)) == Prepend(a + b, r)
  {
    assert r.Ok? ==> a + (b + r.value) == a + b + r.value;
  }

  lemma {:induction false} Slices(raw: seq<byte>, from: nat, i: nat, j: nat)
    requires i <= j && from + j <= |raw|
    ensures raw[from..][i..j] == raw[from + i..from + j]
  {
  }

  // ----- the grammar

  datatype Chunk = Chunk(line: seq<byte>, data: seq<byte>)

  predicate OneLine(line: seq<byte>) {
    FindCrlf(line) == |line|
  }

  /** A size line announces a size when it is UTF-8 text made of a hexadecimal numeral for it, within the integer
      type, and nothing else or a `;` and an extension. */
  ghost predicate Announces(line: seq<byte>, size: nat) {
    size <= 0xFFFF_FFFF_FFFF_FFFF && exists head, rest :: SizeText(line, head, rest, size)
  }

  ghost predicate SizeText(line: seq<byte>, head: string, rest: string, size: nat) {
    line == Encode(head + rest) && Numeral(head, size, 16) && ';' !in head && (rest != "" ==> rest[0] == ';')
  }

  lemma {:induction false} UpToHead(head: string, c: char, rest: string)
    requires c !in head && (rest != "" ==> rest[0] == c)
    ensures UpTo(head + rest, c) == head
  {
    if rest == "" {
      assert head + rest == head;
      UpToAll(head, c);
    } else {
      assert head + rest == head + [c] + rest[1..];
      UpToName(head, c, rest[1..]);
    }
  }

  lemma {:induction false} UpToAll(s: string, c: char)
    requires c !in s
    ensures UpTo(s, c) == s
  {
    if s != "" {
      assert s[0] in s;
      UpToAll(s[1..], c);
    }
  }

  lemma {:induction false} UpToRest(s: string, c: char)
    ensures var n := |UpTo(s, c)|;
      n <= |s| && s == UpTo(s, c) + s[n..] && c !in UpTo(s, c) && (s[n..] != "" ==> s[n] == c)
  {
    UpToSplits(s, c);
    var n := |UpTo(s, c)|;
    if c !in s {
      UpToAll(s, c);
    }
  }

  /** The decoder reads a size from a line exactly when the line announces it. */
  lemma {:induction false} SizeLineIff(line: seq<byte>, size: nat)
    ensures SizeOf(line) == Some(size) <==> Announces(line, size)
  {
    hide Decode, Encode, UpTo, Trim, ParseUsize, Numeral;
    if SizeOf(line) == Some(size) {
      var text := Decode(line).value;
      DecodeIff(line, text);
      UpToRest(text, ';');
      var head := UpTo(text, ';');
      NumeralIff(head, size, 16);
      assert SizeText(line, head, text[|head|..], size);
    }
    if Announces(line, size) {
      var head, rest :| SizeText(line, head, rest, size);
      DecodeIff(line, head + rest);
      UpToHead(head, ';', rest);
      NumeralIff(head, size, 16);
    }
  }

  ghost predicate WellFormed(c: Chunk) {
    OneLine(c.line) && c.data != [] && Announces(c.line, |c.data|)
  }

  ghost predicate AllWellFormed(cs: seq<Chunk>) {
    forall i :: 0 <= i < |cs| ==> WellFormed(cs[i])
  }

  ghost predicate Last(line: seq<byte>) {
    OneLine(line) && Announces(line, 0)
  }

  /** A chunk list on the wire, up to and including its zero-size line. */
  function Print(cs: seq<Chunk>, last: seq<byte>): seq<byte> {
    if cs == [] then last + [13, 10]
    else cs[0].line + [13, 10] + cs[0].data + [13, 10] + Print(cs[1..], last)
  }

  function Data(cs: seq<Chunk>): seq<byte> {
    if cs == [] then [] else cs[0].data + Data(cs[1..])
  }

  lemma {:induction false} FindAtLine(line: seq<byte>, rest: seq<byte>)
    requires OneLine(line)
    ensures FindCrlf(line + CRLF + rest) == |line|
    decreases |line|
  {
    var raw := line + CRLF + rest;
    if |line| > 0 {
      assert raw[1..] == line[1..] + CRLF + rest;
      OneLineTail(line);
      FindAtLine(line[1..], rest);
    }
  }

  lemma {:induction false} OneLineTail(line: seq<byte>)
    requires OneLine(line) && line != []
    ensures OneLine(line[1..])
    ensures |line| >= 2 ==> !(line[0] == CR && line[1] == LF)
  {
  }

  lemma {:induction false} ReadChunkLast(last: seq<byte>, rest: seq<byte>)
    requires Last(last)
    ensures ReadChunk(last + CRLF + rest) == End
  {
    hide SizeOf, Announces;
    SizeLineIff(last, 0);
    FindAtLine(last, rest);
    assert (last + CRLF + rest)[..|last|] == last;
  }

  lemma {:induction false} ReadChunkMore(c: Chunk, rest: seq<byte>)
    requires WellFormed(c)
    ensures ReadChunk(c.line + CRLF + (c.data + CRLF + rest)) == More(c.data, |c.line| + 2 + |c.data| + 2)
    ensures (c.line + CRLF + (c.data + CRLF + rest))[|c.line| + 2 + |c.data| + 2..] == rest
  {
    hide SizeOf, Announces;
    SizeLineIff(c.line, |c.data|);
    FindAtLine(c.line, c.data + CRLF + rest);
    Layout(c.line, c.data, rest);
  }

  lemma {:induction false} Layout(a: seq<byte>, b: seq<byte>, rest: seq<byte>)
    ensures var raw, end := a + CRLF + (b + CRLF + rest), |a| + 2 + |b|;
      raw[..|a|] == a && raw[|a| + 2..end] == b && raw[end..end + 2] == CRLF && raw[end + 2..] == rest
  {
  }

  lemma {:induction false} PrintCons(cs: seq<Chunk>, last: seq<byte>, rest: seq<byte>)
    requires cs != []
    ensures Print(cs, last) + rest == cs[0].line + CRLF + (cs[0].data + CRLF + (Print(cs[1..], last) + rest))
  {
    var a, b, c := cs[0].line, cs[0].data, Print(cs[1..], last);
    assert a + CRLF + b + CRLF + c + rest == a + CRLF + (b + CRLF + (c + rest));
  }

  lemma {:induction false} RestWellFormed(cs: seq<Chunk>)
    requires AllWellFormed(cs) && cs != []
    ensures WellFormed(cs[0]) && AllWellFormed(cs[1..])
  {
    forall i | 0 <= i < |cs[1..]| ensures WellFormed(cs[1..][i]) {
      assert cs[1..][i] == cs[i + 1];
    }
  }

  /** Completeness: any printed chunk list decodes to its data, whatever follows it. */
  lemma {:induction false} DechunkPrint(cs: seq<Chunk>, last: seq<byte>, rest: seq<byte>)
    requires AllWellFormed(cs) && Last(last)
    ensures Dechunk(Print(cs, last) + rest) == Ok(Data(cs))
    decreases |cs|
  {
    hide SizeOf, FindCrlf, ReadChunk, WellFormed, AllWellFormed, Last;
    if cs == [] {
      ReadChunkLast(last, rest);
    } else {
      RestWellFormed(cs);
      PrintCons(cs, last, rest);
      ReadChunkMore(cs[0], Print(cs[1..], last) + rest);
      DechunkPrint(cs[1..], last, rest);
    }
  }

  lemma {:induction false} PrefixIsOneLine(raw: seq<byte>)
    ensures OneLine(raw[..FindCrlf(raw)])
  {
    var k := FindCrlf(raw);
    var line := raw[..k];
    assert forall i: nat :: CrlfAt(line, i) ==> CrlfAt(raw, i);
  }

  lemma {:induction false} EndIsPrinted(raw: seq<byte>) returns (last: seq<byte>, rest: seq<byte>)
    requires ReadChunk(raw).End?
    ensures Last(last) && raw == last + CRLF + rest
  {
    hide SizeOf;
    var k := FindCrlf(raw);
    PrefixIsOneLine(raw);
    last, rest := raw[..k], raw[k + 2..];
    SizeLineIff(last, 0);
    hide Announces;
  }

  lemma {:induction false} MoreIsSized(raw: seq<byte>)
    requires ReadChunk(raw).More?
    ensures var k, end := FindCrlf(raw), ReadChunk(raw).next - 2;
      && CrlfAt(raw, k) && k + 2 <= end && end + 2 <= |raw| && raw[end..end + 2] == CRLF
      && ReadChunk(raw).data == raw[k + 2..end] != [] && SizeOf(raw[..k]) == Some(end - k - 2)
  {
    hide SizeOf, CrlfAt;
  }

  lemma {:induction false} MoreIsPrinted(raw: seq<byte>) returns (c: Chunk)
    requires ReadChunk(raw).More?
    ensures WellFormed(c) && c.data == ReadChunk(raw).data && ReadChunk(raw).next == |c.line| + 2 + |c.data| + 2
    ensures raw == c.line + CRLF + (c.data + CRLF + raw[ReadChunk(raw).next..])
  {
    hide SizeOf, FindCrlf, ReadChunk, OneLine, Announces;
    var k, end := FindCrlf(raw), ReadChunk(raw).next - 2;
    MoreIsSized(raw);
    PrefixIsOneLine(raw);
    c := Chunk(raw[..k], ReadChunk(raw).data);
    SizeLineIff(c.line, |c.data|);
    assert raw[k..k + 2] == CRLF;
    Cut(raw, k, end);
  }

  lemma {:induction false} Cut(raw: seq<byte>, k: nat, end: nat)
    requires k + 2 <= end && end + 2 <= |raw|
    ensures raw == raw[..k] + raw[k..k + 2] + (raw[k + 2..end] + raw[end..end + 2] + raw[end + 2..])
  {
  }

  /** Soundness: whatever decodes starts with a chunk list that says so. */
  lemma {:induction false} DechunkParses(raw: seq<byte>) returns (cs: seq<Chunk>, last: seq<byte>, rest: seq<byte>)
    requires Dechunk(raw).Ok?
    ensures AllWellFormed(cs) && Last(last)
    ensures raw == Print(cs, last) + rest
    ensures Dechunk(raw).value == Data(cs)
    decreases |raw|
  {
    hide SizeOf;
    if ReadChunk(raw).End? {
      cs := [];
      last, rest := EndIsPrinted(raw);
    } else {
      var c := MoreIsPrinted(raw);
      var more: seq<Chunk>;
      more, last, rest := DechunkParses(raw[ReadChunk(raw).next..]);
      cs := [c] + more;
      ConsWellFormed(c, more);
      assert cs[1..] == more;
      PrintCons(cs, last, rest);
    }
  }

  lemma {:induction false} ConsWellFormed(c: Chunk, more: seq<Chunk>)
    requires WellFormed(c) && AllWellFormed(more)
    ensures AllWellFormed([c] + more)
  {
  }

  /** The bytes start with these chunks and this last size line, and the data of the chunks is the output. */
  ghost predicate Encodes(raw: seq<byte>, cs: seq<Chunk>, last: seq<byte>, rest: seq<byte>, out: seq<byte>) {
    AllWellFormed(cs) && Last(last) && raw == Print(cs, last) + rest && out == Data(cs)
  }

  /** Decoding accepts exactly the inputs that start with a chunk list, and returns exactly its data. */
  lemma {:induction false} DechunkIff(raw: seq<byte>, out: seq<byte>)
    ensures Dechunk(raw) == Ok(out) <==> exists cs, last, rest :: Encodes(raw, cs, last, rest, out)
  {
    hide AllWellFormed, Last, Print, Data, Dechunk;
    if Dechunk(raw) == Ok(out) {
      var cs, last, rest := DechunkParses(raw);
      assert Encodes(raw, cs, last, rest, out);
    }
    if cs, last, rest :| Encodes(raw, cs, last, rest, out) {
      DechunkPrint(cs, last, rest);
    }
  }

  /** Well-formed chunks, before anything else. */
  function PrintChunks(cs: seq<Chunk>): seq<byte> {
    if cs == [] then [] else cs[0].line + [13, 10] + cs[0].data + [13, 10] + PrintChunks(cs[1..])
  }

  ghost predicate HasBreak(raw: seq<byte>) {
    exists i: nat :: i + 1 < |raw| && raw[i] == 13 && raw[i + 1] == 10
  }

  /** What is wrong where no chunk and no end can be read: no line is there, its line announces no size, or the data of
      the announced size and the line break after it are not. */
  ghost predicate Wrong(rest: seq<byte>, e: ChunkError) {
    match e
    case InvalidResponse => !HasBreak(rest)
    case InvalidSize => exists line, after :: NoSize(rest, line, after)
    case InvalidBody => exists line, after, size: nat :: NoBody(rest, line, after, size)
  }

  ghost predicate NoSize(rest: seq<byte>, line: seq<byte>, after: seq<byte>) {
    rest == line + [13, 10] + after && OneLine(line) && forall size: nat :: !Announces(line, size)
  }

  ghost predicate NoBody(rest: seq<byte>, line: seq<byte>, after: seq<byte>, size: nat) {
    && rest == line + [13, 10] + after && OneLine(line) && Announces(line, size) && size > 0
    && (|after| < size + 2 || after[size..size + 2] != [13, 10])
  }

  lemma {:induction false} BadIsWrong(raw: seq<byte>)
    requires ReadChunk(raw).Bad?
    ensures Wrong(raw, ReadChunk(raw).error)
  {
    hide SizeOf, Announces, OneLine, FindCrlf;
    var k := FindCrlf(raw);
    if k == |raw| {
      NoBreak(raw);
    } else {
      BreakAt(raw);
      PrefixIsOneLine(raw);
      var line, after := raw[..k], raw[k + 2..];
      assert raw == line + [13, 10] + after;
      forall size: nat ensures SizeOf(line) == Some(size) <==> Announces(line, size) {
        SizeLineIff(line, size);
      }
      if SizeOf(line).None? {
        assert NoSize(raw, line, after);
      } else {
        var size := SizeOf(line).value;
        assert |after| >= size + 2 ==> after[size..size + 2] == raw[k + 2 + size..k + 2 + size + 2];
        assert NoBody(raw, line, after, size);
      }
    }
  }

  lemma {:induction false} NoBreak(raw: seq<byte>)
    requires FindCrlf(raw) == |raw|
    ensures !HasBreak(raw)
  {
    forall i: nat | i + 1 < |raw| ensures !(raw[i] == 13 && raw[i + 1] == 10) {
      assert !CrlfAt(raw, i);
    }
  }

  lemma {:induction false} BreakAt(raw: seq<byte>)
    requires FindCrlf(raw) < |raw|
    ensures FindCrlf(raw) + 1 < |raw| && raw[FindCrlf(raw)..FindCrlf(raw) + 2] == [13, 10]
  {
    assert CrlfAt(raw, FindCrlf(raw));
  }

  /** Whatever is refused is well-formed chunks followed by what the error says. */
  lemma {:induction false} RefusedSays(raw: seq<byte>) returns (cs: seq<Chunk>, rest: seq<byte>)
    requires Dechunk(raw).Err?
    ensures AllWellFormed(cs) && raw == PrintChunks(cs) + rest && Wrong(rest, Dechunk(raw).error)
    decreases |raw|
  {
    hide ReadChunk, Wrong, WellFormed, AllWellFormed, PrintChunks;
    NoChunks();
    if ReadChunk(raw).Bad? {
      cs, rest := [], raw;
      BadIsWrong(raw);
      assert [] + raw == raw;
    } else {
      var c := MoreIsPrinted(raw);
      var more: seq<Chunk>;
      more, rest := RefusedSays(raw[ReadChunk(raw).next..]);
      cs := [c] + more;
      ConsWellFormed(c, more);
      ConsPrinted(c, more, rest);
    }
  }

  lemma {:induction false} NoChunks()
    ensures AllWellFormed([]) && PrintChunks([]) == []
  {
  }

  lemma {:induction false} ConsPrinted(c: Chunk, more: seq<Chunk>, rest: seq<byte>)
    ensures PrintChunks([c] + more) + rest == c.line + CRLF + (c.data + CRLF + (PrintChunks(more) + rest))
  {
    var a, b := c.line, c.data;
    assert ([c] + more)[1..] == more;
    assert a + CRLF + b + CRLF + PrintChunks(more) + rest == a + CRLF + (b + CRLF + (PrintChunks(more) + rest));
  }

  /** Appending bytes never changes a successful result. */
  lemma {:induction false} AppendingChangesNothing(raw: seq<byte>, more: seq<byte>)
    requires Dechunk(raw).Ok?
    ensures Dechunk(raw + more) == Dechunk(raw)
  {
    var cs, last, rest := DechunkParses(raw);
    Associates(Print(cs, last), rest, more);
    DechunkPrint(cs, last, rest + more);
  }

  lemma {:induction false} Associates(a: seq<byte>, b: seq<byte>, c: seq<byte>)
    ensures a + b + c == a + (b + c)
  {
  }

  /** The output is no longer than the input. */
  lemma {:induction false} OutputFits(raw: seq<byte>)
    requires Dechunk(raw).Ok?
    ensures |Dechunk(raw).value| <= |raw|
  {
    var cs, last, rest := DechunkParses(raw);
    DataFits(cs, last);
  }

  lemma {:induction false} DataFits(cs: seq<Chunk>, last: seq<byte>)
    ensures |Data(cs)| <= |Print(cs, last)|
  {
    if cs != [] {
      DataFits(cs[1..], last);
    }
  }

  // ----- which inputs overrun

  /** From the cursor on, the input is well-formed chunks and then a size line that overruns where it stands. */
  ghost predicate OverrunAfter(checked: bool, raw: seq<byte>, cursor: nat, cs: seq<Chunk>, line: seq<byte>,
      rest: seq<byte>, size: nat)
    requires cursor <= |raw|
  {
    && AllWellFormed(cs) && OneLine(line) && Announces(line, size) && raw[cursor..] == Print(cs, line) + rest
    && Overruns(checked, raw, cursor + |Print(cs, line)|, size)
  }

  lemma {:induction false} PanicIsOverrun(checked: bool, raw: seq<byte>, cursor: nat)
      returns (cs: seq<Chunk>, line: seq<byte>, rest: seq<byte>, size: nat)
    requires cursor <= |raw| && Panics(checked, raw, cursor)
    ensures OverrunAfter(checked, raw, cursor, cs, line, rest, size)
    decreases |raw| - cursor
  {
    hide SizeOf, FindCrlf, Overruns, Announces, OneLine, Panics, ReadChunk, CrlfAt, OverrunAfter, Print, WellFormed,
      AllWellFormed;
    PanicsLeft(checked, raw, cursor);
    var left := raw[cursor..];
    line := left[..FindCrlf(left)];
    if SizeOf(line).Some? && Overruns(checked, raw, cursor + FindCrlf(left) + 2, SizeOf(line).value) {
      cs, size := [], SizeOf(line).value;
      rest := OverrunHere(checked, raw, cursor, size);
    } else {
      var c, next := ChunkAt(raw, cursor);
      cs, line, rest, size := PanicIsOverrun(checked, raw, next);
      OverrunLater(checked, raw, cursor, c, cs, line, rest, size);
      cs := [c] + cs;
    }
  }

  lemma {:induction false} ChunkAt(raw: seq<byte>, cursor: nat) returns (c: Chunk, next: nat)
    requires cursor <= |raw| && ReadChunk(raw[cursor..]).More?
    ensures next == cursor + ReadChunk(raw[cursor..]).next == cursor + |c.line| + 2 + |c.data| + 2 <= |raw|
    ensures WellFormed(c) && raw[cursor..] == c.line + CRLF + (c.data + CRLF + raw[next..])
  {
    hide ReadChunk, WellFormed;
    c := MoreIsPrinted(raw[cursor..]);
    next := cursor + ReadChunk(raw[cursor..]).next;
    assert raw[cursor..][next - cursor..] == raw[next..];
  }

  lemma {:induction false} OverrunHere(checked: bool, raw: seq<byte>, cursor: nat, size: nat)
      returns (rest: seq<byte>)
    requires cursor <= |raw| && FindCrlf(raw[cursor..]) < |raw| - cursor
    requires SizeOf(raw[cursor..][..FindCrlf(raw[cursor..])]) == Some(size)
    requires Overruns(checked, raw, cursor + FindCrlf(raw[cursor..]) + 2, size)
    ensures OverrunAfter(checked, raw, cursor, [], raw[cursor..][..FindCrlf(raw[cursor..])], rest, size)
  {
    hide SizeOf, Overruns, Announces, OneLine;
    var left := raw[cursor..];
    var k := FindCrlf(left);
    PrefixIsOneLine(left);
    SizeLineIff(left[..k], size);
    CrlfSplits(left, k);
    rest := left[k + 2..];
  }

  /** An overrun behind a well-formed chunk. */
  lemma {:induction false} OverrunLater(checked: bool, raw: seq<byte>, cursor: nat, c: Chunk, cs: seq<Chunk>,
      line: seq<byte>, rest: seq<byte>, size: nat)
    requires var next := cursor + |c.line| + 2 + |c.data| + 2;
      && WellFormed(c) && next <= |raw| && OverrunAfter(checked, raw, next, cs, line, rest, size)
      && raw[cursor..] == c.line + CRLF + (c.data + CRLF + raw[next..])
    ensures OverrunAfter(checked, raw, cursor, [c] + cs, line, rest, size)
  {
    hide Overruns, Announces, OneLine, WellFormed;
    ConsWellFormed(c, cs);
    assert ([c] + cs)[1..] == cs;
    PrintCons([c] + cs, line, rest);
    PrintLength([c] + cs, line);
    hide Print, AllWellFormed;
  }

  lemma {:induction false} CrlfSplits(raw: seq<byte>, k: nat)
    requires CrlfAt(raw, k)
    ensures raw == raw[..k] + CRLF + raw[k + 2..]
  {
  }

  lemma {:induction false} PrintLength(cs: seq<Chunk>, line: seq<byte>)
    requires cs != []
    ensures |Print(cs, line)| == |cs[0].line| + 2 + |cs[0].data| + 2 + |Print(cs[1..], line)|
  {
  }

  lemma {:induction false} OverrunPanics(checked: bool, raw: seq<byte>, cursor: nat, cs: seq<Chunk>, line: seq<byte>,
      rest: seq<byte>, size: nat)
    requires cursor <= |raw| && OverrunAfter(checked, raw, cursor, cs, line, rest, size)
    ensures Panics(checked, raw, cursor)
    decreases |cs|
  {
    hide SizeOf, FindCrlf, Overruns, Announces, OneLine, ReadChunk, Panics, CrlfAt, WellFormed, AllWellFormed, Print;
    if cs == [] {
      OverrunPanicsHere(checked, raw, cursor, line, rest, size);
    } else {
      RestWellFormed(cs);
      PrintCons(cs, line, rest);
      PrintLength(cs, line);
      MorePanics(checked, raw, cursor, cs[0], Print(cs[1..], line) + rest);
      OverrunPanics(checked, raw, cursor + |cs[0].line| + 2 + |cs[0].data| + 2, cs[1..], line, rest, size);
    }
  }

  lemma {:induction false} OverrunPanicsHere(checked: bool, raw: seq<byte>, cursor: nat, line: seq<byte>,
      rest: seq<byte>, size: nat)
    requires cursor <= |raw| && OverrunAfter(checked, raw, cursor, [], line, rest, size)
    ensures Panics(checked, raw, cursor)
  {
    hide SizeOf, FindCrlf, Overruns, Announces, OneLine, ReadChunk, Panics, CrlfAt, Print;
    PrintNone(line);
    SizeLineIff(line, size);
    FindAtLine(line, rest);
    assert raw[cursor..][..|line|] == line;
    PanicsLeft(checked, raw, cursor);
  }

  /** Behind a well-formed chunk the decoder goes on. */
  lemma {:induction false} MorePanics(checked: bool, raw: seq<byte>, cursor: nat, c: Chunk, after: seq<byte>)
    requires cursor <= |raw| && WellFormed(c) && raw[cursor..] == c.line + CRLF + (c.data + CRLF + after)
    ensures var next := cursor + |c.line| + 2 + |c.data| + 2;
      next <= |raw| && raw[next..] == after && (Panics(checked, raw, next) ==> Panics(checked, raw, cursor))
  {
    hide SizeOf, FindCrlf, Overruns, ReadChunk, Panics, CrlfAt, WellFormed;
    var next := |c.line| + 2 + |c.data| + 2;
    assert cursor + next <= |raw|;
    assert raw[cursor..][next..] == raw[cursor + next..];
    ReadChunkMore(c, after);
    assert raw[cursor + next..] == after;
    SizedChunk(c, after);
    PanicsLeft(checked, raw, cursor);
  }

  lemma {:induction false} PrintNone(line: seq<byte>)
    ensures Print([], line) == line + CRLF
  {
  }

  lemma {:induction false} SizedChunk(c: Chunk, after: seq<byte>)
    requires WellFormed(c)
    ensures var left := c.line + CRLF + (c.data + CRLF + after);
      FindCrlf(left) == |c.line| < |left| && SizeOf(left[..|c.line|]).Some?
  {
    hide SizeOf, Announces;
    var left := c.line + CRLF + (c.data + CRLF + after);
    FindAtLine(c.line, c.data + CRLF + after);
    SizeLineIff(c.line, |c.data|);
    assert left[..|c.line|] == c.line;
  }

  /** The decoder panics exactly when well-formed chunks are followed by a size line that overruns where it stands. */
  lemma {:induction false} PanicsIff(checked: bool, raw: seq<byte>)
    ensures Panics(checked, raw, 0) <==>
      exists cs, line, rest, size :: OverrunAfter(checked, raw, 0, cs, line, rest, size)
  {
    hide Panics, OverrunAfter;
    if Panics(checked, raw, 0) {
      var cs, line, rest, size := PanicIsOverrun(checked, raw, 0);
    }
    if cs, line, rest, size :| OverrunAfter(checked, raw, 0, cs, line, rest, size) {
      OverrunPanics(checked, raw, 0, cs, line, rest, size);
    }
  }

  /** A panic only ever replaces the invalid-body error, so nothing that decodes panics. */
  lemma {:induction false} PanicIsInvalidBody(checked: bool, raw: seq<byte>, cursor: nat)
    requires cursor <= |raw| <= ISIZE_MAX && Panics(checked, raw, cursor)
    ensures Dechunk(raw[cursor..]) == Err(InvalidBody)
    decreases |raw| - cursor
  {
    hide SizeOf, FindCrlf, ReadChunk, CrlfAt;
    DechunkAt(raw, cursor);
    LineFits(raw[cursor..]);
    var data := cursor + FindCrlf(raw[cursor..]) + 2;
    var size := SizeOf(raw[cursor..data - 2]);
    if !Overruns(checked, raw, data, size.value) {
      PanicIsInvalidBody(checked, raw, ReadData(raw, data, size).next);
    }
  }

  // ----- the round trip with canonical size lines

  /** A chunk as a sender prints it: a hexadecimal size, then nothing or a `;` and an extension. */
  function SizeLine(n: nat, extension: seq<byte>): seq<byte> {
    Encode(PrintNat(n, 16)) + extension
  }

  predicate Extension(e: seq<byte>) {
    OneLine(e) && Decode(e).Some? && (e != [] ==> e[0] == ';' as byte)
  }

  lemma {:induction false} UpToDigits(s: string, rest: string)
    requires AllDigits(s, 16) && (rest != "" ==> rest[0] == ';')
    ensures UpTo(s + rest, ';') == s
    decreases |s|
  {
    if s == "" {
      assert s + rest == rest;
    } else {
      assert DigitValue(s[0], 16).Some?;
      assert (s + rest)[1..] == s[1..] + rest;
      UpToDigits(s[1..], rest);
    }
  }

  lemma {:induction false} EncodeDigits(s: string)
    requires AllDigits(s, 16)
    ensures forall i :: 0 <= i < |Encode(s)| ==> Encode(s)[i] >= 0x20
    ensures |Encode(s)| == |s|
  {
    if s != "" {
      assert DigitValue(s[0], 16).Some?;
      EncodeDigits(s[1..]);
    }
  }

  lemma {:induction false} OneLineConcat(a: seq<byte>, e: seq<byte>)
    requires OneLine(e) && forall i :: 0 <= i < |a| ==> a[i] >= 0x20
    ensures OneLine(a + e)
    decreases |a|
  {
    if a == [] {
      assert a + e == e;
    } else {
      assert (a + e)[1..] == a[1..] + e;
      OneLineConcat(a[1..], e);
    }
  }

  /** The front of an extension decodes to a semicolon. */
  lemma {:induction false} ExtensionFront(e: seq<byte>)
    requires Extension(e)
    ensures Decode(e).value != "" ==> Decode(e).value[0] == ';'
  {
  }

  lemma {:induction false} SizeLineIsRead(n: nat, extension: seq<byte>)
    requires Extension(extension) && n <= USIZE_MAX
    ensures OneLine(SizeLine(n, extension)) && SizeOf(SizeLine(n, extension)) == Some(n)
    ensures Announces(SizeLine(n, extension), n)
  {
    SizeLineIff(SizeLine(n, extension), n);
    hide Announces;
    var s := PrintNat(n, 16);
    PrintNatValue(n, 16);
    EncodeDigits(s);
    OneLineConcat(Encode(s), extension);
    DecodeEncode(s, extension);
    ExtensionFront(extension);
    UpToDigits(s, Decode(extension).value);
    TrimDigits(s, 16);
    ParsePrint(n, 16);
  }

  datatype Piece = Piece(data: seq<byte>, extension: seq<byte>)

  function ToChunks(ps: seq<Piece>): seq<Chunk> {
    if ps == [] then [] else [Chunk(SizeLine(|ps[0].data|, ps[0].extension), ps[0].data)] + ToChunks(ps[1..])
  }

  function Joined(ps: seq<Piece>): seq<byte> {
    if ps == [] then [] else ps[0].data + Joined(ps[1..])
  }

  predicate Sendable(p: Piece) {
    0 < |p.data| <= USIZE_MAX && Extension(p.extension)
  }

  lemma {:induction false} ToChunksWellFormed(ps: seq<Piece>)
    requires forall p :: p in ps ==> Sendable(p)
    ensures AllWellFormed(ToChunks(ps)) && Data(ToChunks(ps)) == Joined(ps)
  {
    hide SizeOf, Announces, OneLine, SizeLine, Extension;
    if ps != [] {
      assert Sendable(ps[0]) by {
        assert ps[0] in ps;
      }
      SizeLineIsRead(|ps[0].data|, ps[0].extension);
      var c := Chunk(SizeLine(|ps[0].data|, ps[0].extension), ps[0].data);
      ToChunksWellFormed(ps[1..]);
      assert WellFormed(c);
      hide WellFormed, Sendable;
      ConsWellFormed(c, ToChunks(ps[1..]));
      assert ToChunks(ps)[1..] == ToChunks(ps[1..]);
    }
  }

  function Message(ps: seq<Piece>, lastExtension: seq<byte>, trailer: seq<byte>): seq<byte> {
    Print(ToChunks(ps), SizeLine(0, lastExtension)) + trailer
  }

  /** Round trip: any nonempty pieces printed with hexadecimal sizes and optional extensions, ended by a zero chunk and
      followed by anything (trailers included), decode to their concatenation. */
  lemma {:induction false} ChunkedRoundTrip(ps: seq<Piece>, lastExtension: seq<byte>, trailer: seq<byte>)
    requires (forall p :: p in ps ==> Sendable(p)) && Extension(lastExtension)
    ensures Dechunk(Message(ps, lastExtension, trailer)) == Ok(Joined(ps))
  {
    hide Announces, OneLine, SizeLine, Extension, Sendable, Dechunk, AllWellFormed;
    ToChunksWellFormed(ps);
    SizeLineIsRead(0, lastExtension);
    DechunkPrint(ToChunks(ps), SizeLine(0, lastExtension), trailer);
  }

  lemma {:induction false} WrapsBack(n: nat)
    requires n <= USIZE_MAX
    ensures Wrap(n + 2 + (USIZE_MAX - 1)) == n
  {
  }

  lemma {:induction false} NumeralFits(n: nat)
    ensures |PrintNat(n, 16)| <= n + 1
  {
    if n >= 16 {
      NumeralFits(n / 16);
    }
  }

  lemma {:induction false} LineFitsSize(n: nat)
    ensures |SizeLine(n, [])| <= n + 1
  {
    NumeralFits(n);
    PrintNatValue(n, 16);
    EncodeDigits(PrintNat(n, 16));
  }

  /** A first chunk that announces one byte less than the greatest size panics, whatever follows and in both builds:
      wrapped, its end lies on the CRLF of its own size line. */
  lemma {:induction false} SizeNearMaximumPanics(checked: bool, rest: seq<byte>)
    ensures Panics(checked, SizeLine(USIZE_MAX - 1, []) + CRLF + rest, 0)
  {
    hide Panics, SizeOf, Announces, SizeLine, Print, Wrap, Encode, PrintNat;
    var line := SizeLine(USIZE_MAX - 1, []);
    var raw := line + CRLF + rest;
    assert Extension([]) by { assert Decode([]) == Some(""); }
    SizeLineIsRead(USIZE_MAX - 1, []);
    PrintNone(line);
    LineFitsSize(USIZE_MAX - 1);
    WrapsBack(|line|);
    assert raw[0..] == raw && raw[|line|..|line| + 2] == CRLF;
    OverrunPanics(checked, raw, 0, [], line, rest, USIZE_MAX - 1);
  }
}
