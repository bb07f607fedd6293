/** Bytes and strings as the native control client sees them: UTF-8, white space and integer parsing. */
module RustText {
  import opened Outcomes

  newtype byte = x: int | 0 <= x < 256

  /** The largest `usize` on a 64-bit target. */
  const USIZE_MAX: nat := 0xFFFF_FFFF_FFFF_FFFF

  predicate Continues(b: byte) {
    0x80 <= b < 0xC0
  }

  function Low(b: byte): nat
    requires Continues(b)
  {
    (b - 0x80) as nat
  }

  /** The scalar value at the front of `b` and how many bytes it takes, if `b` starts with well-formed UTF-8. */
  function DecodeOne(b: seq<byte>): (r: Option<(char, nat)>)
    ensures r.Some? ==> 1 <= r.value.1 <= |b| && r.value.1 <= 4
  {
    if b == [] then None
    else if b[0] < 0x80 then Some((b[0] as char, 1))
    else if |b| >= 2 && 0xC2 <= b[0] < 0xE0 && Continues(b[1]) then
      Some((((b[0] - 0xC0) as nat * 64 + Low(b[1])) as char, 2))
    else if |b| >= 3 && 0xE0 <= b[0] < 0xF0 && Continues(b[1]) && Continues(b[2])
      && (b[0] == 0xE0 ==> 0xA0 <= b[1]) && (b[0] == 0xED ==> b[1] < 0xA0) then
      Some((((b[0] - 0xE0) as nat * 4096 + Low(b[1]) * 64 + Low(b[2])) as char, 3))
    else if |b| >= 4 && 0xF0 <= b[0] < 0xF5 && Continues(b[1]) && Continues(b[2]) && Continues(b[3])
      && (b[0] == 0xF0 ==> 0x90 <= b[1]) && (b[0] == 0xF4 ==> b[1] < 0x90) then
      Some((((b[0] - 0xF0) as nat * 262144 + Low(b[1]) * 4096 + Low(b[2]) * 64 + Low(b[3])) as char, 4))
    else None
  }

  /** `from_utf8`. */
  function Decode(b: seq<byte>): Option<string> {
    if b == [] then Some("")
    else
      var one := DecodeOne(b);
      if one.None? then None
      else
        var rest := Decode(b[one.value.1..]);
        if rest.None? then None else Some([one.value.0] + rest.value)
  }

  function Tail(n: nat): byte {
    (0x80 + n % 64) as byte
  }

  function EncodeOne(c: char): seq<byte> {
    var n := c as nat;
    if n < 0x80 then [n as byte]
    else if n < 0x800 then [(0xC0 + n / 64) as byte, Tail(n)]
    else if n < 0x10000 then [(0xE0 + n / 4096) as byte, Tail(n / 64), Tail(n)]
    else [(0xF0 + n / 262144) as byte, Tail(n / 4096), Tail(n / 64), Tail(n)]
  }

  function Encode(s: string): seq<byte> {
    if s == "" then [] else EncodeOne(s[0]) + Encode(s[1..])
  }

  lemma {:induction false} DecodeTwo(n: nat, rest: seq<byte>)
    requires 0x80 <= n < 0x800
    ensures DecodeOne([(0xC0 + n / 64) as byte, Tail(n)] + rest) == Some((n as char, 2))
  {
    assert n == n / 64 * 64 + n % 64;
  }

  lemma {:induction false} DecodeThree(n: nat, rest: seq<byte>)
    requires 0x800 <= n < 0xD800 || 0xE000 <= n < 0x10000
    ensures DecodeOne([(0xE0 + n / 4096) as byte, Tail(n / 64), Tail(n)] + rest) == Some((n as char, 3))
  {
    var b := [(0xE0 + n / 4096) as byte, Tail(n / 64), Tail(n)] + rest;
    Sextets(n);
    assert n / 4096 == 13 ==> n / 64 % 64 < 32;
    assert n / 4096 == 0 ==> n / 64 % 64 >= 32;
    assert Low(b[1]) == n / 64 % 64 && Low(b[2]) == n % 64 && (b[0] - 0xE0) as nat == n / 4096;
  }

  /** A number in base 64. */
  lemma {:induction false} Sextets(n: nat)
    ensures n == n / 4096 * 4096 + n / 64 % 64 * 64 + n % 64
    ensures n / 4096 == n / 262144 * 64 + n / 4096 % 64
  {
    assert n / 4096 == n / 64 / 64 && n / 262144 == n / 4096 / 64;
  }

  lemma {:induction false} DecodeFour(n: nat, rest: seq<byte>)
    requires 0x10000 <= n < 0x110000
    ensures DecodeOne([(0xF0 + n / 262144) as byte, Tail(n / 4096), Tail(n / 64), Tail(n)] + rest) ==
      Some((n as char, 4))
  {
    Sextets(n);
    DecodeFourParts(n, n / 262144, n / 4096 % 64, n / 64 % 64, n % 64, rest);
  }

  lemma {:induction false} DecodeFourParts(n: nat, a: nat, b: nat, c: nat, d: nat, rest: seq<byte>)
    requires b < 64 && c < 64 && d < 64
    requires n == a * 262144 + b * 4096 + c * 64 + d
    requires 0x10000 <= n < 0x110000
    ensures DecodeOne([(0xF0 + a) as byte, (0x80 + b) as byte, (0x80 + c) as byte, (0x80 + d) as byte] + rest) ==
      Some((n as char, 4))
  {
    assert a == 0 ==> b >= 16;
    assert a == 4 ==> b < 16;
  }

  lemma {:induction false} DecodeAscii(n: nat, rest: seq<byte>)
    requires n < 0x80
    ensures DecodeOne([n as byte] + rest) == Some((n as char, 1))
  {
  }

  lemma {:induction false} DecodeEncodeOne(c: char, rest: seq<byte>)
    ensures DecodeOne(EncodeOne(c) + rest) == Some((c, |EncodeOne(c)|))
  {
    hide DecodeOne;
    var n := c as nat;
    if n < 0x80 {
      DecodeAscii(n, rest);
    } else if n < 0x800 {
      DecodeTwo(n, rest);
    } else if n < 0x10000 {
      DecodeThree(n, rest);
    } else {
      DecodeFour(n, rest);
    }
  }

  lemma {:induction false} DecodeStep(c: char, tail: seq<byte>)
    ensures Decode(EncodeOne(c) + tail) == if Decode(tail).None? then None else Some([c] + Decode(tail).value)
  {
    hide DecodeOne, EncodeOne;
    DecodeEncodeOne(c, tail);
    assert (EncodeOne(c) + tail)[|EncodeOne(c)|..] == tail;
  }

  /** Decoding printed text gives the text back, whatever decodable bytes follow. */
  lemma {:induction false} DecodeEncode(s: string, rest: seq<byte>)
    ensures Decode(Encode(s) + rest) == (if Decode(rest).None? then None else Some(s + Decode(rest).value))
  {
    hide DecodeOne, EncodeOne, Decode;
    if s == "" {
      assert Encode(s) + rest == rest;
      assert Decode(rest).Some? ==> s + Decode(rest).value == Decode(rest).value;
    } else {
      var tail := Encode(s[1..]) + rest;
      assert Encode(s) + rest == EncodeOne(s[0]) + tail;
      DecodeStep(s[0], tail);
      DecodeEncode(s[1..], rest);
      if Decode(rest).Some? {
        assert [s[0]] + (s[1..] + Decode(rest).value) == s + Decode(rest).value;
      }
    }
  }

  // ----- white space and integers

  /** The Unicode White_Space property, as `str::trim` and `split_whitespace` use it. */
  predicate IsSpace(c: char) {
    || '\U{9}' <= c <= '\U{D}' || c == ' ' || c == '\U{85}' || c == '\U{A0}' || c == '\U{1680}'
    || '\U{2000}' <= c <= '\U{200A}' || c == '\U{2028}' || c == '\U{2029}' || c == '\U{202F}'
    || c == '\U{205F}' || c == '\U{3000}'
  }

  function TrimStart(s: string): (r: string)
    ensures |r| <= |s|
  {
    if s != "" && IsSpace(s[0]) then TrimStart(s[1..]) else s
  }

  function TrimEnd(s: string): string {
    if s != "" && IsSpace(s[|s| - 1]) then TrimEnd(s[..|s| - 1]) else s
  }

  function Trim(s: string): string {
    TrimEnd(TrimStart(s))
  }

  /** The part before the first `c`, or everything. */
  function UpTo(s: string, c: char): string {
    if s == "" || s[0] == c then "" else [s[0]] + UpTo(s[1..], c)
  }

  function DigitValue(c: char, radix: nat): Option<nat>
    requires radix <= 16
  {
    var v := if '0' <= c <= '9' then c as nat - '0' as nat
             else if 'a' <= c <= 'f' then c as nat - 'a' as nat + 10
             else if 'A' <= c <= 'F' then c as nat - 'A' as nat + 10
             else 16;
    if v < radix then Some(v) else None
  }

  predicate AllDigits(s: string, radix: nat)
    requires radix <= 16
  {
    forall i :: 0 <= i < |s| ==> DigitValue(s[i], radix).Some?
  }

  function Value(s: string, radix: nat): nat
    requires radix <= 16 && AllDigits(s, radix)
  {
    if s == "" then 0 else Shifted(Value(s[..|s| - 1], radix), radix) + DigitValue(s[|s| - 1], radix).value
  }

  function Shifted(n: nat, radix: nat): nat {
    n * radix
  }

  /** `usize::from_str_radix`: an optional plus sign, at least one digit, no overflow. */
  function ParseUsize(s: string, radix: nat): Option<nat>
    requires radix <= 16
  {
    var digits := if s != "" && s[0] == '+' then s[1..] else s;
    if digits != "" && AllDigits(digits, radix) && Value(digits, radix) <= USIZE_MAX then Some(Value(digits, radix))
      else None
  }

  function Digit(d: nat): char
    requires d < 16
  {
    "0123456789abcdef"[d]
  }

  /** Positional notation without leading zeros. */
  function PrintNat(n: nat, radix: nat): (r: string)
    requires 2 <= radix <= 16
    ensures r != ""
  {
    if n < radix then [Digit(n)] else PrintNat(n / radix, radix) + [Digit(n % radix)]
  }

  lemma {:induction false} DigitRoundTrip(d: nat, radix: nat)
    requires d < radix <= 16
    ensures DigitValue(Digit(d), radix) == Some(d)
  {
  }

  lemma {:induction false} DivMod(n: nat, d: nat)
    requires d > 0
    ensures n / d * d + n % d == n
  {
  }

  lemma {:induction false} ValueSnoc(init: string, c: char, radix: nat)
    requires radix <= 16 && AllDigits(init, radix) && DigitValue(c, radix).Some?
    ensures AllDigits(init + [c], radix)
    ensures Value(init + [c], radix) == Shifted(Value(init, radix), radix) + DigitValue(c, radix).value
  {
    assert (init + [c])[..|init + [c]| - 1] == init;
  }

  lemma {:induction false} PrintDigitValue(n: nat, radix: nat)
    requires n < radix <= 16
    ensures AllDigits([Digit(n)], radix) && Value([Digit(n)], radix) == n
  {
    DigitRoundTrip(n, radix);
    ValueSnoc("", Digit(n), radix);
    assert "" + [Digit(n)] == [Digit(n)];
  }

  lemma {:induction false} PrintNatValue(n: nat, radix: nat)
    requires 2 <= radix <= 16
    ensures AllDigits(PrintNat(n, radix), radix) && Value(PrintNat(n, radix), radix) == n
  {
    if n < radix {
      PrintDigitValue(n, radix);
    } else {
      DigitRoundTrip(n % radix, radix);
      PrintNatValue(n / radix, radix);
      ValueSnoc(PrintNat(n / radix, radix), Digit(n % radix), radix);
      DivMod(n, radix);
    }
  }

  /** Reading a printed number gives the number back. */
  lemma {:induction false} ParsePrint(n: nat, radix: nat)
    requires 2 <= radix <= 16
    ensures ParseUsize(PrintNat(n, radix), radix) == if n <= 0xFFFF_FFFF_FFFF_FFFF then Some(n) else None
  {
    PrintNatValue(n, radix);
    var s := PrintNat(n, radix);
    assert DigitValue(s[0], radix).Some?;
  }

  /** Digits survive trimming. */
  lemma {:induction false} TrimDigits(s: string, radix: nat)
    requires radix <= 16 && AllDigits(s, radix)
    ensures Trim(s) == s
  {
    if s != "" {
      assert DigitValue(s[0], radix).Some? && DigitValue(s[|s| - 1], radix).Some?;
    }
  }

  // ----- numerals

  function LowerChar(c: char): char {
    if 'A' <= c <= 'Z' then (c as nat + 32) as char else c
  }

  /** `to_ascii_lowercase`; two texts are equal up to ASCII case exactly when these agree. */
  function Lower(s: string): (r: string)
    ensures |r| == |s|
    ensures forall i :: 0 <= i < |s| ==> r[i] == LowerChar(s[i])
  {
    if s == "" then "" else [LowerChar(s[0])] + Lower(s[1..])
  }

  predicate AllSpace(s: string) {
    forall i :: 0 <= i < |s| ==> IsSpace(s[i])
  }

  predicate AllZero(s: string) {
    forall i :: 0 <= i < |s| ==> s[i] == '0'
  }

  /** White space, an optional plus sign, leading zeros, the number without leading zeros and with letters in any case,
      white space. */
  ghost predicate Numeral(s: string, n: nat, radix: nat)
    requires 2 <= radix <= 16
  {
    exists lead, plus, zeros, digits, tail :: Spells(s, lead, plus, zeros, digits, tail, n, radix)
  }

  predicate Spells(s: string, lead: string, plus: string, zeros: string, digits: string, tail: string, n: nat,
      radix: nat)
    requires 2 <= radix <= 16
  {
    && s == lead + (plus + (zeros + digits)) + tail
    && AllSpace(lead) && AllSpace(tail) && (plus == "" || plus == "+") && AllZero(zeros)
    && Lower(digits) == PrintNat(n, radix)
  }

  lemma {:induction false} LowerDigit(c: char, radix: nat)
    requires radix <= 16
    ensures DigitValue(LowerChar(c), radix) == DigitValue(c, radix)
    ensures DigitValue(c, radix).Some? ==> LowerChar(c) == Digit(DigitValue(c, radix).value)
    ensures DigitValue(c, radix).Some? ==> !IsSpace(c) && c != '+'
  {
  }

  lemma {:induction false} LowerValue(s: string, radix: nat)
    requires radix <= 16
    ensures AllDigits(Lower(s), radix) <==> AllDigits(s, radix)
    ensures AllDigits(s, radix) ==> Value(Lower(s), radix) == Value(s, radix)
    decreases |s|
  {
    hide DigitValue, LowerChar, Lower, Shifted;
    forall i | 0 <= i < |s| ensures DigitValue(Lower(s)[i], radix) == DigitValue(s[i], radix) {
      LowerDigit(s[i], radix);
    }
    if s != "" {
      var init := s[..|s| - 1];
      LowerValue(init, radix);
      assert Lower(s)[..|s| - 1] == Lower(init);
    }
  }

  lemma {:induction false} ZerosFirst(zeros: string, s: string, radix: nat)
    requires 2 <= radix <= 16 && AllZero(zeros) && AllDigits(s, radix)
    ensures AllDigits(zeros + s, radix) && Value(zeros + s, radix) == Value(s, radix)
    decreases |zeros| + |s|
  {
    hide Value, DigitValue, Shifted;
    var all := zeros + s;
    NoDigits(radix);
    ZeroDigit(radix);
    if all == "" {
    } else if s == "" {
      var init := zeros[..|zeros| - 1];
      ZerosFirst(init, "", radix);
      assert all == init + ['0'] && init + "" == init;
      ValueSnoc(init, '0', radix);
    } else {
      var init := s[..|s| - 1];
      ZerosFirst(zeros, init, radix);
      assert all == (zeros + init) + [s[|s| - 1]] && s == init + [s[|s| - 1]];
      ValueSnoc(zeros + init, s[|s| - 1], radix);
      ValueSnoc(init, s[|s| - 1], radix);
    }
  }

  lemma {:induction false} ZeroDigit(radix: nat)
    requires 2 <= radix <= 16
    ensures DigitValue('0', radix) == Some(0) && Shifted(0, radix) == 0
  {
  }

  /** Every string of digits is some zeros and the number it stands for. */
  lemma {:induction false} Canonical(s: string, radix: nat) returns (zeros: string, digits: string)
    requires 2 <= radix <= 16 && s != "" && AllDigits(s, radix)
    ensures s == zeros + digits && AllZero(zeros) && Lower(digits) == PrintNat(Value(s, radix), radix)
    decreases |s|
  {
    hide Value, PrintNat, Digit, LowerChar;
    var init, last := s[..|s| - 1], s[|s| - 1];
    var v := DigitValue(last, radix).value;
    assert s == init + [last];
    ValueSnoc(init, last, radix);
    LowerDigit(last, radix);
    PrintDigit(v, radix);
    assert Lower([last]) == [Digit(v)];
    NoDigits(radix);
    if init == "" {
      zeros, digits := "", s;
    } else {
      zeros, digits := Canonical(init, radix);
      var m := Value(init, radix);
      if m == 0 {
        PrintDigit(0, radix);
        ZeroIsZero(digits);
        zeros, digits := zeros + digits, [last];
      } else {
        LowerSnoc(digits, last);
        QuotientAndRest(m, v, radix);
        digits := digits + [last];
      }
    }
  }

  lemma {:induction false} PrintDigit(v: nat, radix: nat)
    requires v < radix && 2 <= radix <= 16
    ensures PrintNat(v, radix) == [Digit(v)] && Digit(0) == '0'
  {
  }

  lemma {:induction false} NoDigits(radix: nat)
    requires radix <= 16
    ensures AllDigits("", radix) && Value("", radix) == 0
  {
  }

  lemma {:induction false} ZeroIsZero(s: string)
    requires Lower(s) == ['0']
    ensures s == "0"
  {
    assert |s| == 1 && LowerChar(s[0]) == '0';
  }

  lemma {:induction false} LowerSnoc(s: string, c: char)
    ensures Lower(s + [c]) == Lower(s) + [LowerChar(c)]
  {
  }

  lemma {:induction false} QuotientAndRest(m: nat, v: nat, radix: nat)
    requires 2 <= radix <= 16 && m > 0 && v < radix
    ensures PrintNat(m * radix + v, radix) == PrintNat(m, radix) + [Digit(v)]
  {
    var n := m * radix + v;
    assert n >= radix;
    assert n / radix == m && n % radix == v by {
      Quotient(m, v, radix);
    }
  }

  lemma {:induction false} Quotient(m: nat, v: nat, radix: nat)
    requires v < radix
    ensures (m * radix + v) / radix == m && (m * radix + v) % radix == v
  {
    var n := m * radix + v;
    DivMod(n, radix);
    var q, r := n / radix, n % radix;
    if q < m {
      Larger(q + 1, m, radix);
    } else if q > m {
      Larger(m + 1, q, radix);
    }
  }

  lemma {:induction false} Larger(a: nat, b: nat, k: nat)
    requires a <= b
    ensures a * k <= b * k
  {
    if b > a {
      Larger(a, b - 1, k);
      assert b * k == (b - 1) * k + k;
    }
  }

  lemma {:induction false} TrimStartSplits(s: string) returns (lead: string)
    ensures s == lead + TrimStart(s) && AllSpace(lead)
  {
    if s != "" && IsSpace(s[0]) {
      var before := TrimStartSplits(s[1..]);
      lead := [s[0]] + before;
      Regrouped([s[0]], before, TrimStart(s[1..]));
      assert s == [s[0]] + s[1..];
    } else {
      lead := "";
    }
  }

  lemma {:induction false} TrimEndSplits(s: string) returns (tail: string)
    ensures s == TrimEnd(s) + tail && AllSpace(tail)
    decreases |s|
  {
    if s != "" && IsSpace(s[|s| - 1]) {
      var init, last := s[..|s| - 1], s[|s| - 1];
      var before := TrimEndSplits(init);
      tail := before + [last];
      Regrouped(TrimEnd(init), before, [last]);
      assert s == init + [last];
    } else {
      tail := "";
    }
  }

  lemma {:induction false} TrimStartOf(lead: string, core: string)
    requires AllSpace(lead) && core != "" && !IsSpace(core[0])
    ensures TrimStart(lead + core) == core
  {
    if lead == "" {
      assert lead + core == core;
    } else {
      assert (lead + core)[1..] == lead[1..] + core;
      TrimStartOf(lead[1..], core);
    }
  }

  lemma {:induction false} TrimEndOf(core: string, tail: string)
    requires AllSpace(tail) && core != "" && !IsSpace(core[|core| - 1])
    ensures TrimEnd(core + tail) == core
    decreases |tail|
  {
    if tail == "" {
      assert core + tail == core;
    } else {
      var init := tail[..|tail| - 1];
      assert (core + tail)[..|core + tail| - 1] == core + init;
      TrimEndOf(core, init);
    }
  }

  /** Trimmed text is read as a number exactly when it is a numeral for it, within the integer type. */
  lemma {:induction false} NumeralIff(s: string, n: nat, radix: nat)
    requires 2 <= radix <= 16
    ensures ParseUsize(Trim(s), radix) == Some(n) <==> Numeral(s, n, radix) && n <= 0xFFFF_FFFF_FFFF_FFFF
  {
    if ParseUsize(Trim(s), radix) == Some(n) {
      NumeralSpelled(s, n, radix);
    }
    if Numeral(s, n, radix) && n <= USIZE_MAX {
      var lead, plus, zeros, digits, tail :| Spells(s, lead, plus, zeros, digits, tail, n, radix);
      SpelledNumeral(s, lead, plus, zeros, digits, tail, n, radix);
    }
  }

  lemma {:induction false} ParsedDigits(core: string, n: nat, radix: nat) returns (plus: string, all: string)
    requires 2 <= radix <= 16 && ParseUsize(core, radix) == Some(n)
    ensures core == plus + all && (plus == "" || plus == "+")
    ensures all != "" && AllDigits(all, radix) && Value(all, radix) == n
  {
    hide Value, DigitValue;
    plus := if core[0] == '+' then "+" else "";
    all := if core[0] == '+' then core[1..] else core;
  }

  lemma {:induction false} NumeralSpelled(s: string, n: nat, radix: nat)
    requires 2 <= radix <= 16 && ParseUsize(Trim(s), radix) == Some(n)
    ensures Numeral(s, n, radix)
  {
    hide Value, PrintNat, IsSpace, DigitValue, TrimStart, TrimEnd, ParseUsize, AllDigits, AllSpace, AllZero, Lower;
    var lead := TrimStartSplits(s);
    var tail := TrimEndSplits(TrimStart(s));
    var plus, all := ParsedDigits(Trim(s), n, radix);
    var zeros, digits := Canonical(all, radix);
    Regrouped(lead, plus + all, tail);
    assert Spells(s, lead, plus, zeros, digits, tail, n, radix);
  }

  lemma {:induction false} Regrouped(a: string, b: string, c: string)
    ensures a + (b + c) == a + b + c
  {
  }

  lemma {:induction false} SpelledNumeral(s: string, lead: string, plus: string, zeros: string, digits: string,
      tail: string,
      n: nat, radix: nat)
    requires 2 <= radix <= 16 && Spells(s, lead, plus, zeros, digits, tail, n, radix) && n <= USIZE_MAX
    ensures ParseUsize(Trim(s), radix) == Some(n)
  {
    var all := zeros + digits;
    var core := plus + all;
    SpelledDigits(zeros, digits, n, radix);
    SpelledCore(plus, all, n, radix);
    hide Value, PrintNat, IsSpace, DigitValue, TrimStart, TrimEnd, ParseUsize, AllDigits, AllSpace, AllZero, Lower;
    Regrouped(lead, core, tail);
    assert (core + tail)[0] == core[0];
    TrimStartOf(lead, core + tail);
    TrimEndOf(core, tail);
  }

  lemma {:induction false} SpelledCore(plus: string, all: string, n: nat, radix: nat)
    requires 2 <= radix <= 16 && (plus == "" || plus == "+") && all != "" && AllDigits(all, radix)
      && Value(all, radix) == n
    ensures var core := plus + all; core != "" && !IsSpace(core[0]) && !IsSpace(core[|core| - 1])
    ensures n <= USIZE_MAX ==> ParseUsize(plus + all, radix) == Some(n)
  {
    hide Value, IsSpace, DigitValue;
    LowerDigit(all[0], radix);
    LowerDigit(all[|all| - 1], radix);
    PlusIsNoSpace();
    var core := plus + all;
    assert core[|core| - 1] == all[|all| - 1];
    assert plus == "+" ==> core[1..] == all;
    assert plus == "" ==> core == all;
  }

  lemma {:induction false} PlusIsNoSpace()
    ensures !IsSpace('+')
  {
  }

  lemma {:induction false} SpelledDigits(zeros: string, digits: string, n: nat, radix: nat)
    requires 2 <= radix <= 16 && AllZero(zeros) && Lower(digits) == PrintNat(n, radix)
    ensures zeros + digits != "" && AllDigits(zeros + digits, radix) && Value(zeros + digits, radix) == n
  {
    hide Value, PrintNat, IsSpace, DigitValue;
    PrintNatValue(n, radix);
    LowerValue(digits, radix);
    ZerosFirst(zeros, digits, radix);
  }

  // ----- the part before a separator

  lemma {:induction false} UpToSplits(s: string, c: char)
    ensures |UpTo(s, c)| <= |s| && s[..|UpTo(s, c)|] == UpTo(s, c) && c !in UpTo(s, c)
    ensures c in s ==> |UpTo(s, c)| < |s| && s[|UpTo(s, c)|] == c
  {
    if s != "" && s[0] != c {
      var n := |UpTo(s[1..], c)|;
      UpToSplits(s[1..], c);
      assert UpTo(s, c) == [s[0]] + UpTo(s[1..], c);
      assert s == [s[0]] + s[1..];
      assert s[..n + 1] == [s[0]] + s[1..][..n];
    } else {
      assert UpTo(s, c) == "" && s[..0] == "";
    }
  }

  lemma {:induction false} UpToName(name: string, c: char, value: string)
    requires c !in name
    ensures UpTo(name + [c] + value, c) == name
  {
    if name == "" {
    } else {
      assert name[0] in name && (name + [c] + value)[1..] == name[1..] + [c] + value;
      UpToName(name[1..], c, value);
    }
  }

  // ----- decoding accepts nothing but encodings

  lemma {:induction false} EncodeDecodeOne(b: seq<byte>)
    requires DecodeOne(b).Some?
    ensures EncodeOne(DecodeOne(b).value.0) == b[..DecodeOne(b).value.1]
  {
    if b[0] < 0x80 {
    } else if b[0] < 0xE0 {
      EncodeTwo((b[0] - 0xC0) as nat, Low(b[1]));
    } else if b[0] < 0xF0 {
      EncodeThree((b[0] - 0xE0) as nat, Low(b[1]), Low(b[2]));
    } else {
      EncodeFour((b[0] - 0xF0) as nat, Low(b[1]), Low(b[2]), Low(b[3]));
    }
  }

  lemma {:induction false} EncodeTwo(a: nat, b: nat)
    requires 2 <= a < 0x20 && b < 0x40
    ensures EncodeOne((a * 64 + b) as char) == [(0xC0 + a) as byte, (0x80 + b) as byte]
  {
  }

  lemma {:induction false} EncodeThree(a: nat, b: nat, c: nat)
    requires a < 0x10 && b < 0x40 && c < 0x40 && (a == 0 ==> b >= 0x20) && (a == 13 ==> b < 0x20)
    ensures EncodeOne((a * 4096 + b * 64 + c) as char) == [(0xE0 + a) as byte, (0x80 + b) as byte, (0x80 + c) as byte]
  {
    var n := a * 4096 + b * 64 + c;
    assert n / 4096 == a && n / 64 == a * 64 + b && n % 64 == c && n / 64 % 64 == b;
  }

  lemma {:induction false} EncodeFour(a: nat, b: nat, c: nat, d: nat)
    requires a < 5 && b < 0x40 && c < 0x40 && d < 0x40 && (a == 0 ==> b >= 0x10) && (a == 4 ==> b < 0x10)
    ensures EncodeOne((a * 262144 + b * 4096 + c * 64 + d) as char) ==
      [(0xF0 + a) as byte, (0x80 + b) as byte, (0x80 + c) as byte, (0x80 + d) as byte]
  {
    var n := a * 262144 + b * 4096 + c * 64 + d;
    assert n / 262144 == a && n / 4096 == a * 64 + b && n / 64 == a * 4096 + b * 64 + c;
    assert n / 4096 % 64 == b && n / 64 % 64 == c && n % 64 == d;
  }

  lemma {:induction false} EncodeDecode(b: seq<byte>)
    requires Decode(b).Some?
    ensures Encode(Decode(b).value) == b
    decreases |b|
  {
    hide DecodeOne, EncodeOne;
    if b != [] {
      var one := DecodeOne(b);
      EncodeDecodeOne(b);
      EncodeDecode(b[one.value.1..]);
      assert ([one.value.0] + Decode(b[one.value.1..]).value)[1..] == Decode(b[one.value.1..]).value;
      assert b == b[..one.value.1] + b[one.value.1..];
    }
  }

  /** Bytes decode to a text exactly when they are its encoding. */
  lemma {:induction false} DecodeIff(b: seq<byte>, s: string)
    ensures Decode(b) == Some(s) <==> b == Encode(s)
  {
    if Decode(b) == Some(s) {
      EncodeDecode(b);
    }
    DecodeEncode(s, []);
    assert Encode(s) + [] == Encode(s) && s + "" == s;
  }
}
