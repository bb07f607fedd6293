/** The two header lines that frame a body, as a sender writes them, and where they may stand. */
module FramingLines {
  import opened Outcomes
  import opened RustText
  import opened Headers

  lemma {:induction false} TrimLead(s: string)
    ensures Trim(" " + s) == Trim(s)
  {
    assert (" " + s)[1..] == s;
  }

  predicate AllIn(s: string, p: string) {
    forall i :: 0 <= i < |s| ==> s[i] in p
  }

  const LETTERS := "abcdefghijklmnopqrstuvwxyz-"

  lemma {:induction false} LetterFacts(c: char)
    requires LowerChar(c) in LETTERS
    ensures TokenChar(c) && LineChar(c) && !IsSpace(c) && c != ':' && c != ','
  {
  }

  /** A word whose lower-case form is made of letters and dashes is a valid name, needs no trimming and has no
      separator. */
  lemma {:induction false} WordFacts(word: string)
    requires word != "" && AllIn(Lower(word), LETTERS)
    ensures ValidName(word) && Trim(word) == word && ':' !in word && ',' !in word
    ensures forall i :: 0 <= i < |word| ==> LineChar(word[i])
  {
    hide LineChar, TokenChar, IsSpace;
    forall i | 0 <= i < |word|
      ensures TokenChar(word[i]) && LineChar(word[i]) && !IsSpace(word[i]) && word[i] != ':' && word[i] != ','
    {
      assert Lower(word)[i] in LETTERS;
      LetterFacts(word[i]);
    }
    assert !IsSpace(word[0]) && !IsSpace(word[|word| - 1]);
  }

  lemma {:induction false} ReadNamed(name: string, value: string)
    requires name != "" && AllIn(Lower(name), LETTERS)
    requires forall i :: 0 <= i < |value| ==> LineChar(value[i])
    ensures ReadLine(name + ":" + value) == ReadValue(name, value)
  {
    hide ReadLine, ReadValue, TokenChar, LineChar, Lower, AllIn;
    WordFacts(name);
    FieldLineIsRead(name + ":" + value, name, value);
  }

  lemma {:induction false} DigitsFit(s: string)
    requires AllDigits(s, 10)
    ensures forall i :: 0 <= i < |(" " + s)| ==> LineChar((" " + s)[i])
  {
    forall i | 0 <= i < |s| ensures LineChar(s[i]) {
      assert DigitValue(s[i], 10).Some?;
    }
  }

  /** A Content-Length line, its name in any letter case, is read as its decimal length. */
  lemma {:induction false} LengthLine(name: string, n: nat)
    requires Lower(name) == "content-length" && n <= USIZE_MAX
    ensures ReadLine(name + ":" + (" " + PrintNat(n, 10))) == Ok(Length(n))
  {
    hide ReadLine, PrintNat, ParseUsize, Trim;
    var digits := PrintNat(n, 10);
    PrintNatValue(n, 10);
    DigitsFit(digits);
    ReadNamed(name, " " + digits);
    TrimLead(digits);
    TrimDigits(digits, 10);
    ParsePrint(n, 10);
  }

  /** A Content-Length value is read as a length exactly when it is a decimal numeral for it, within the integer
      type, and refused otherwise. */
  lemma {:induction false} LengthIff(name: string, value: string, n: nat)
    requires Lower(name) == "content-length"
    ensures ReadValue(name, value) == Ok(Length(n)) <==> Numeral(value, n, 10) && n <= 0xFFFF_FFFF_FFFF_FFFF
    ensures ReadValue(name, value).Err? ==> ReadValue(name, value).error == InvalidContentLength
    ensures ReadValue(name, value).Ok? ==> ReadValue(name, value).value.Length?
  {
    hide ParseUsize, Trim, Numeral, Tokens, Split, Lower;
    NumeralIff(value, n, 10);
  }

  /** A Transfer-Encoding line naming only the chunked coding, in any letter case, is read as chunked. */
  lemma {:induction false} ChunkedLine(name: string, coding: string)
    requires Lower(name) == "transfer-encoding" && Lower(coding) == "chunked"
    ensures ReadLine(name + ":" + (" " + coding)) == Ok(Headers.Chunked)
  {
    hide ReadLine, Trim, LineChar, ReadValue;
    WordFacts(coding);
    ColonIsLineChar();
    ReadNamed(name, " " + coding);
    TrimLead(coding);
    assert Commas([" " + coding]) == " " + coding;
    assert OnlyChunked([" " + coding], 0);
    TransferEncodingIff(name, [" " + coding]);
  }

  /** Fields that say nothing about framing, with one framing line put anywhere among them, say what that line says. */
  lemma {:induction false} OneFramingLine(before: seq<string>, line: string, after: seq<string>)
    requires Fold(before + after) == Ok(Framing(false, None))
    requires ReadLine(line).Ok?
    ensures Fold(before + [line] + after) == Apply(Framing(false, None), ReadLine(line).value)
  {
    hide ReadLine, Fold;
    var last := before + after + [line];
    FoldSnoc(last, |before + after|);
    assert last[..|before + after|] == before + after && last[..|before + after| + 1] == last;
    assert multiset(before + [line] + after) == multiset(last);
    OrderDoesNotMatter(before + [line] + after, last, Fold(last).value);
  }
}
