/** Header lines told by code points: which are accepted, and that most say nothing about framing. */
module HttpText {
  import opened Outcomes
  import opened RustText
  import opened Headers

  /** The fifteen marks of a token, after letters and digits (section 5.6.2 of RFC 9110). */
  const MARKS: set<nat> := {33, 35, 36, 37, 38, 39, 42, 43, 45, 46, 94, 95, 96, 124, 126}

  predicate NameCode(n: nat) {
    48 <= n <= 57 || 65 <= n <= 90 || 97 <= n <= 122 || n in MARKS
  }

  predicate ValueCode(n: nat) {
    n == 9 || (n >= 32 && n != 127)
  }

  /** A name, a colon and a value, character by character. */
  ghost predicate FieldText(line: string, name: string, value: string) {
    && line == name + ":" + value && name != ""
    && (forall i :: 0 <= i < |name| ==> NameCode(name[i] as nat))
    && (forall i :: 0 <= i < |value| ==> ValueCode(value[i] as nat))
  }

  /** The same word up to the case of ASCII letters; `word` has none in upper case. */
  ghost predicate SameWord(name: string, word: string) {
    |name| == |word| && forall i :: 0 <= i < |name| ==>
      name[i] == word[i] || (65 <= name[i] as nat <= 90 && name[i] as nat + 32 == word[i] as nat)
  }

  ghost predicate NoCapitals(word: string) {
    forall i :: 0 <= i < |word| ==> !(65 <= word[i] as nat <= 90)
  }

  /** The code points with the White_Space property of Unicode. */
  const WHITE_SPACE: set<nat> := {
    9, 10, 11, 12, 13, 32, 133, 160, 5760, 8192, 8193, 8194, 8195, 8196, 8197, 8198, 8199, 8200, 8201, 8202, 8232,
    8233, 8239, 8287, 12288}

  lemma {:induction false} SpaceIff(c: char)
    ensures IsSpace(c) <==> c as nat in WHITE_SPACE
  {
  }

  lemma {:induction false} CodeIff(c: char)
    ensures TokenChar(c) <==> NameCode(c as nat)
    ensures LineChar(c) <==> ValueCode(c as nat)
  {
  }

  lemma {:induction false} FieldIff(line: string, name: string, value: string)
    ensures FieldLine(line, name, value) <==> FieldText(line, name, value)
  {
    hide TokenChar, LineChar, NameCode, ValueCode;
    forall i | 0 <= i < |name| ensures TokenChar(name[i]) <==> NameCode(name[i] as nat) {
      CodeIff(name[i]);
    }
    forall i | 0 <= i < |value| ensures LineChar(value[i]) <==> ValueCode(value[i] as nat) {
      CodeIff(value[i]);
    }
  }

  /** A line is well formed exactly when it is a name of letters, digits and the fifteen marks, a colon, and a value
      without control characters other than tabs. */
  lemma {:induction false} LineTextIff(line: string)
    ensures ReadLine(line) != Err(InvalidHeader) <==> exists name, value :: FieldText(line, name, value)
  {
    hide ReadLine, FieldLine, FieldText;
    LineIff(line);
    if name, value :| FieldLine(line, name, value) {
      FieldIff(line, name, value);
    }
    if name, value :| FieldText(line, name, value) {
      FieldIff(line, name, value);
    }
  }

  lemma {:induction false} LowerIff(c: char, d: char)
    requires !(65 <= d as nat <= 90)
    ensures LowerChar(c) == d <==> c == d || (65 <= c as nat <= 90 && c as nat + 32 == d as nat)
  {
  }

  lemma {:induction false} WordIff(name: string, word: string)
    requires NoCapitals(word)
    ensures Lower(name) == word <==> SameWord(name, word)
  {
    hide LowerChar;
    forall i | 0 <= i < |name| && i < |word| ensures LowerChar(name[i]) == word[i] <==>
      (name[i] == word[i] || (65 <= name[i] as nat <= 90 && name[i] as nat + 32 == word[i] as nat))
    {
      LowerIff(name[i], word[i]);
    }
  }

  /** A well-formed line under any name but the two that frame a body says nothing about framing. */
  lemma {:induction false} OtherLine(line: string, name: string, value: string)
    requires FieldText(line, name, value)
    requires !SameWord(name, "transfer-encoding") && !SameWord(name, "content-length")
    ensures ReadLine(line) == Ok(Other)
  {
    hide FieldLine, FieldText, ReadLine, Lower, SameWord;
    FieldIff(line, name, value);
    FieldLineIsRead(line, name, value);
    WordIff(name, "transfer-encoding");
    WordIff(name, "content-length");
  }

  /** Wherever it stands, it changes neither the framing nor the error. */
  lemma {:induction false} OtherLineIsNeutral(a: seq<string>, line: string, name: string, value: string,
      b: seq<string>)
    requires FieldText(line, name, value)
    requires !SameWord(name, "transfer-encoding") && !SameWord(name, "content-length")
    ensures Fold(a + [line] + b) == Fold(a + b)
    decreases |b|
  {
    hide FieldText, ReadLine, SameWord, Fold;
    if b == [] {
      OtherLine(line, name, value);
      assert a + [line] + b == a + [line] && a + b == a;
      FoldOne(a, line);
    } else {
      var init, last := b[..|b| - 1], b[|b| - 1];
      OtherLineIsNeutral(a, line, name, value, init);
      assert a + [line] + b == (a + [line] + init) + [last] && a + b == (a + init) + [last];
      FoldOne(a + [line] + init, last);
      FoldOne(a + init, last);
    }
  }

  lemma {:induction false} FoldOne(lines: seq<string>, line: string)
    ensures Fold(lines + [line]) ==
      if Fold(lines).Err? then Fold(lines)
      else if ReadLine(line).Err? then Err(ReadLine(line).error)
      else Apply(Fold(lines).value, ReadLine(line).value)
  {
    hide ReadLine;
    assert (lines + [line])[..|lines|] == lines;
  }

  // ----- the first line that is wrong

  ghost predicate SaysLength(lines: seq<string>, i: nat, n: nat) {
    i < |lines| && ReadLine(lines[i]) == Ok(Length(n))
  }

  /** The lines before this position are read, and those that state a length state the same one. */
  ghost predicate RightUpTo(lines: seq<string>, k: nat) {
    && (forall i: nat :: i < k && i < |lines| ==> ReadLine(lines[i]).Ok?)
    && (forall i: nat, j: nat, m: nat, n: nat :: i < j < k && SaysLength(lines, i, m) && SaysLength(lines, j, n) ==>
        m == n)
  }

  /** The line at this position is the first one that is wrong: it is not read, or states another length than a line
      before it. */
  ghost predicate FirstWrong(lines: seq<string>, k: nat, e: HeadError) {
    && k < |lines| && RightUpTo(lines, k)
    && (|| ReadLine(lines[k]) == Err(e)
        || (e == ConflictingContentLength
            && exists i: nat, m: nat, n: nat :: i < k && SaysLength(lines, i, m) && SaysLength(lines, k, n) && m != n))
  }

  /** What the framing after some lines says about the length. */
  ghost predicate Tracks(lines: seq<string>, k: nat, h: Framing) {
    && (h.contentLength.Some? ==> exists i: nat :: i < k && SaysLength(lines, i, h.contentLength.value))
    && (forall i: nat, m: nat :: i < k && SaysLength(lines, i, m) ==> h.contentLength == Some(m))
  }

  lemma {:induction false} RightStep(lines: seq<string>, k: nat, h: Framing)
    requires k < |lines| && RightUpTo(lines, k) && Tracks(lines, k, h) && ReadLine(lines[k]).Ok?
    ensures Apply(h, ReadLine(lines[k]).value).Ok? <==> RightUpTo(lines, k + 1)
    ensures Apply(h, ReadLine(lines[k]).value).Ok? ==> Tracks(lines, k + 1, Apply(h, ReadLine(lines[k]).value).value)
    ensures Apply(h, ReadLine(lines[k]).value).Err? ==> FirstWrong(lines, k, Apply(h, ReadLine(lines[k]).value).error)
  {
    hide ReadLine;
    if ReadLine(lines[k]).value.Length? {
      var n := ReadLine(lines[k]).value.n;
      assert SaysLength(lines, k, n);
      if h.contentLength.Some? {
        var i: nat :| i < k && SaysLength(lines, i, h.contentLength.value);
      }
    }
  }

  /** Folding a prefix succeeds exactly when its lines are right; what goes wrong first is the error. */
  lemma {:induction false} FoldPrefix(lines: seq<string>, k: nat)
    requires k <= |lines|
    ensures Fold(lines[..k]).Ok? <==> RightUpTo(lines, k)
    ensures Fold(lines[..k]).Ok? ==> Tracks(lines, k, Fold(lines[..k]).value)
    ensures Fold(lines[..k]).Err? ==> exists j: nat :: j < k && FirstWrong(lines, j, Fold(lines[..k]).error)
  {
    hide ReadLine, RightUpTo, Tracks, FirstWrong, Fold, Apply;
    if k == 0 {
      NothingFolded(lines);
    } else {
      FoldPrefix(lines, k - 1);
      assert lines[..k] == lines[..k - 1] + [lines[k - 1]];
      FoldOne(lines[..k - 1], lines[k - 1]);
      if Fold(lines[..k - 1]).Err? {
        NotRight(lines, k - 1);
      } else if ReadLine(lines[k - 1]).Ok? {
        RightStep(lines, k - 1, Fold(lines[..k - 1]).value);
      } else {
        UnreadIsWrong(lines, k - 1);
      }
    }
  }

  lemma {:induction false} NothingFolded(lines: seq<string>)
    ensures Fold(lines[..0]).Ok? && RightUpTo(lines, 0) && Tracks(lines, 0, Fold(lines[..0]).value)
  {
  }

  lemma {:induction false} NotRight(lines: seq<string>, k: nat)
    requires !RightUpTo(lines, k)
    ensures !RightUpTo(lines, k + 1)
  {
    hide ReadLine, SaysLength;
  }

  lemma {:induction false} UnreadIsWrong(lines: seq<string>, k: nat)
    requires k < |lines| && RightUpTo(lines, k) && ReadLine(lines[k]).Err?
    ensures !RightUpTo(lines, k + 1) && FirstWrong(lines, k, ReadLine(lines[k]).error)
  {
    hide ReadLine, SaysLength;
  }

  lemma {:induction false} OneFirstWrong(lines: seq<string>, i: nat, e: HeadError, j: nat, f: HeadError)
    requires FirstWrong(lines, i, e) && FirstWrong(lines, j, f)
    ensures i == j && e == f
  {
    hide ReadLine;
    WrongIsNotRight(lines, i, e, j);
    WrongIsNotRight(lines, j, f, i);
  }

  lemma {:induction false} WrongIsNotRight(lines: seq<string>, k: nat, e: HeadError, later: nat)
    requires FirstWrong(lines, k, e)
    ensures k < later ==> !RightUpTo(lines, later)
  {
    hide ReadLine;
  }

  /** The header section is refused with an error exactly when that is what is wrong with its first wrong line. */
  lemma {:induction false} FoldErrorIff(lines: seq<string>, e: HeadError)
    ensures Fold(lines) == Err(e) <==> exists k: nat :: FirstWrong(lines, k, e)
  {
    hide Fold, FirstWrong, RightUpTo, Tracks;
    FoldPrefix(lines, |lines|);
    assert lines[..|lines|] == lines;
    if k: nat :| FirstWrong(lines, k, e) {
      WrongIsNotRight(lines, k, e, |lines|);
      WrongInRange(lines, k, e);
      var j: nat :| FirstWrong(lines, j, Fold(lines).error);
      OneFirstWrong(lines, k, e, j, Fold(lines).error);
    }
  }

  lemma {:induction false} WrongInRange(lines: seq<string>, k: nat, e: HeadError)
    requires FirstWrong(lines, k, e)
    ensures k < |lines|
  {
  }
}
