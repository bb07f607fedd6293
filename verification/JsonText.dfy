/** JSON texts of arrays of strings: the grammar, with what each text denotes, and the printer of `JSON.stringify`. */
module JsonText {
  import opened CodeUnits

  // ----- the grammar

  /** The two-unit escapes: the unit after the backslash and what the escape denotes (section 7 of RFC 8259). */
  const ESCAPES: map<int, int> :=
    map[34 := 34, 92 := 92, 47 := 47, 98 := 8, 102 := 12, 110 := 10, 114 := 13, 116 := 9]

  predicate HexDigit(u: CodeUnit) {
    48 <= u <= 57 || 65 <= u <= 70 || 97 <= u <= 102
  }

  function DigitValue(u: CodeUnit): int {
    if u <= 57 then u as int - 48 else if u <= 70 then u as int - 55 else u as int - 87
  }

  /** Inside a string, this text denotes the unit: itself, a two-unit escape, or `u` and four hexadecimal digits after a
      backslash. */
  predicate Denotes(e: JsString, c: CodeUnit) {
    || (e == [c] && c >= 32 && c != 34 && c != 92)
    || (|e| == 2 && e[0] == 92 && e[1] as int in ESCAPES && ESCAPES[e[1] as int] == c as int)
    || (&& |e| == 6 && e[0] == 92 && e[1] == 117
        && HexDigit(e[2]) && HexDigit(e[3]) && HexDigit(e[4]) && HexDigit(e[5])
        && 4096 * DigitValue(e[2]) + 256 * DigitValue(e[3]) + 16 * DigitValue(e[4]) + DigitValue(e[5]) == c as int)
  }

  function Flat(parts: seq<JsString>): JsString {
    if parts == [] then [] else parts[0] + Flat(parts[1..])
  }

  predicate Spells(parts: seq<JsString>, s: JsString) {
    |parts| == |s| && forall i :: 0 <= i < |s| ==> Denotes(parts[i], s[i])
  }

  ghost predicate StringText(text: JsString, s: JsString) {
    exists parts :: Spells(parts, s) && text == [34] + Flat(parts) + [34]
  }

  function Commas(texts: seq<JsString>): JsString {
    if texts == [] then [] else if |texts| == 1 then texts[0] else texts[0] + [44] + Commas(texts[1..])
  }

  ghost predicate StringTexts(texts: seq<JsString>, xs: seq<JsString>) {
    |texts| == |xs| && forall i :: 0 <= i < |xs| ==> StringText(texts[i], xs[i])
  }

  /** A text of the grammar, without optional white space, that denotes the array of these strings. */
  ghost predicate ArrayText(text: JsString, xs: seq<JsString>) {
    exists texts :: StringTexts(texts, xs) && text == [91] + Commas(texts) + [93]
  }

  ghost predicate IsArrayText(text: JsString) {
    exists xs :: ArrayText(text, xs)
  }

  // ----- no text denotes two lists

  lemma {:induction false} UnitUnique(e: JsString, c: CodeUnit, f: JsString, d: CodeUnit, r: JsString, u: JsString)
    requires Denotes(e, c) && Denotes(f, d) && e + r == f + u
    ensures e == f && c == d && r == u
  {
    hide DigitValue, HexDigit, ESCAPES;
    assert (e + r)[0] == e[0] && (f + u)[0] == f[0];
    assert |e| == |f| by {
      if e[0] == 92 {
        assert (e + r)[1] == e[1] && (f + u)[1] == f[1];
        NoUnicodeShort(e[1]);
      }
    }
    assert (e + r)[..|e|] == e && (f + u)[..|f|] == f;
    assert (e + r)[|e|..] == r && (f + u)[|f|..] == u;
  }

  lemma {:induction false} NoUnicodeShort(u: CodeUnit)
    ensures u == 117 ==> u as int !in ESCAPES
  {
  }

  lemma {:induction false} NotAQuote(e: JsString, c: CodeUnit)
    requires Denotes(e, c)
    ensures e != [] && e[0] != 34
  {
  }

  /** The closing quote comes first exactly when nothing is spelled. */
  lemma {:induction false} FirstOfBody(ps: seq<JsString>, s: JsString, r: JsString)
    requires Spells(ps, s)
    ensures (Flat(ps) + ([34] + r))[0] == 34 <==> ps == []
  {
    hide Denotes;
    if ps != [] {
      NotAQuote(ps[0], s[0]);
    }
  }

  lemma {:induction false} BodyUnique(ps: seq<JsString>, s: JsString, qs: seq<JsString>, t: JsString, r: JsString,
      u: JsString)
    requires Spells(ps, s) && Spells(qs, t) && Flat(ps) + ([34] + r) == Flat(qs) + ([34] + u)
    ensures s == t && r == u
  {
    hide Denotes;
    FirstOfBody(ps, s, r);
    FirstOfBody(qs, t, u);
    if ps == [] {
      assert Flat(ps) + ([34] + r) == [34] + r && Flat(qs) + ([34] + u) == [34] + u;
      assert ([34] + r)[1..] == r && ([34] + u)[1..] == u;
    } else {
      assert Flat(ps) + ([34] + r) == ps[0] + (Flat(ps[1..]) + ([34] + r));
      assert Flat(qs) + ([34] + u) == qs[0] + (Flat(qs[1..]) + ([34] + u));
      UnitUnique(ps[0], s[0], qs[0], t[0], Flat(ps[1..]) + ([34] + r), Flat(qs[1..]) + ([34] + u));
      BodyUnique(ps[1..], s[1..], qs[1..], t[1..], r, u);
      assert s == [s[0]] + s[1..] && t == [t[0]] + t[1..];
    }
  }

  lemma {:induction false} StringUnique(x: JsString, s: JsString, y: JsString, t: JsString, r: JsString, u: JsString)
    requires StringText(x, s) && StringText(y, t) && x + r == y + u
    ensures s == t && r == u
  {
    hide Spells, Flat;
    var ps :| Spells(ps, s) && x == [34] + Flat(ps) + [34];
    var qs :| Spells(qs, t) && y == [34] + Flat(qs) + [34];
    assert (x + r)[1..] == Flat(ps) + ([34] + r);
    assert (y + u)[1..] == Flat(qs) + ([34] + u);
    BodyUnique(ps, s, qs, t, r, u);
  }

  /** The closing bracket comes first exactly when there is no string. */
  lemma {:induction false} FirstOfItems(ts: seq<JsString>, xs: seq<JsString>)
    requires StringTexts(ts, xs)
    ensures (Commas(ts) + [93])[0] == 93 <==> ts == []
  {
    if ts != [] {
      assert StringText(ts[0], xs[0]);
    }
  }

  /** What follows the first string. */
  function After(ts: seq<JsString>): JsString
    requires ts != []
  {
    if |ts| == 1 then [93] else [44] + (Commas(ts[1..]) + [93])
  }

  lemma {:induction false} ItemsSplit(ts: seq<JsString>)
    requires ts != []
    ensures Commas(ts) + [93] == ts[0] + After(ts)
    ensures After(ts)[0] == 93 <==> |ts| == 1
    ensures |ts| > 1 ==> After(ts)[1..] == Commas(ts[1..]) + [93]
  {
  }

  lemma {:induction false} ItemsUnique(ts: seq<JsString>, xs: seq<JsString>, us: seq<JsString>, ys: seq<JsString>)
    requires StringTexts(ts, xs) && StringTexts(us, ys) && Commas(ts) + [93] == Commas(us) + [93]
    ensures xs == ys
  {
    hide StringText, Commas, After;
    FirstOfItems(ts, xs);
    FirstOfItems(us, ys);
    if ts != [] {
      ItemsSplit(ts);
      ItemsSplit(us);
      StringUnique(ts[0], xs[0], us[0], ys[0], After(ts), After(us));
      assert xs == [xs[0]] + xs[1..] && ys == [ys[0]] + ys[1..];
      if |ts| > 1 {
        ItemsUnique(ts[1..], xs[1..], us[1..], ys[1..]);
      }
    }
  }

  lemma {:induction false} ArrayTextUnique(text: JsString, xs: seq<JsString>, ys: seq<JsString>)
    requires ArrayText(text, xs) && ArrayText(text, ys)
    ensures xs == ys
  {
    hide StringTexts, Commas;
    var ts :| StringTexts(ts, xs) && text == [91] + Commas(ts) + [93];
    var us :| StringTexts(us, ys) && text == [91] + Commas(us) + [93];
    assert text[1..] == Commas(ts) + [93] && text[1..] == Commas(us) + [93];
    ItemsUnique(ts, xs, us, ys);
  }

  // ----- the printer

  predicate High(c: CodeUnit) {
    0xD800 <= c < 0xDC00
  }

  predicate Low(c: CodeUnit) {
    0xDC00 <= c < 0xE000
  }

  function Hex(d: nat): CodeUnit
    requires d < 16
  {
    if d < 10 then (48 + d) as CodeUnit else (87 + d) as CodeUnit
  }

  function UnicodeEscape(c: CodeUnit): (r: JsString)
    ensures |r| == 6
  {
    var n := c as nat;
    [92, 117, Hex(n / 4096), Hex(n / 256 % 16), Hex(n / 16 % 16), Hex(n % 16)]
  }

  /** One code unit that is not half of a surrogate pair, inside a JSON string. */
  function Escape(c: CodeUnit): (r: JsString)
    ensures 1 <= |r| <= 6
  {
    if c == 34 || c == 92 then [92, c]
    else if c == 8 then [92, 98]
    else if c == 9 then [92, 116]
    else if c == 10 then [92, 110]
    else if c == 12 then [92, 102]
    else if c == 13 then [92, 114]
    else if c < 32 || High(c) || Low(c) then UnicodeEscape(c)
    else [c]
  }

  function QuoteBody(s: JsString): JsString {
    if s == [] then []
    else if |s| >= 2 && High(s[0]) && Low(s[1]) then s[..2] + QuoteBody(s[2..])
    else Escape(s[0]) + QuoteBody(s[1..])
  }

  function Quote(s: JsString): JsString {
    [34] + QuoteBody(s) + [34]
  }

  function Joined(xs: seq<JsString>): JsString {
    if xs == [] then [] else if |xs| == 1 then Quote(xs[0]) else Quote(xs[0]) + [44] + Joined(xs[1..])
  }

  /** `JSON.stringify` of an array of strings. */
  function Stringify(xs: seq<JsString>): JsString {
    [91] + Joined(xs) + [93]
  }

  /** The unit is half of a surrogate pair. */
  predicate Paired(s: JsString, i: nat)
    requires i < |s|
  {
    || (0xD800 <= s[i] < 0xDC00 && i + 1 < |s| && 0xDC00 <= s[i + 1] < 0xE000)
    || (0xDC00 <= s[i] < 0xE000 && i > 0 && 0xD800 <= s[i - 1] < 0xDC00)
  }

  /** The text denotes the unit and escapes nothing without need: quotes, backslashes, control characters and lone
      surrogates only, in two units where there is such an escape, else with small hexadecimal digits. */
  predicate Minimal(e: JsString, c: CodeUnit, paired: bool) {
    && Denotes(e, c)
    && (|e| == 1 <==> c >= 32 && c != 34 && c != 92 && (paired || !(0xD800 <= c < 0xE000)))
    && (|e| == 2 <==> c in {8, 9, 10, 12, 13, 34, 92})
    && (|e| == 6 ==> forall i :: 2 <= i < 6 ==> !(65 <= e[i] <= 70))
  }

  lemma {:induction false} HexDigits(n: nat)
    requires n < 16
    ensures HexDigit(Hex(n)) && DigitValue(Hex(n)) == n && !(65 <= Hex(n) <= 70)
    ensures n >= 10 ==> HexDigit((55 + n) as CodeUnit) && DigitValue((55 + n) as CodeUnit) == n
  {
  }

  lemma {:induction false} FourDigits(n: nat)
    requires n < 0x10000
    ensures n / 4096 < 16
    ensures 4096 * (n / 4096) + 256 * (n / 256 % 16) + 16 * (n / 16 % 16) + n % 16 == n
  {
    assert n / 256 / 16 == n / 4096 && n / 16 / 16 == n / 256;
  }

  lemma {:induction false} UnicodeDenotes(c: CodeUnit)
    ensures Denotes(UnicodeEscape(c), c) && forall i :: 2 <= i < 6 ==> !(65 <= UnicodeEscape(c)[i] <= 70)
  {
    hide HexDigit, DigitValue, Hex, ESCAPES;
    var n := c as nat;
    FourDigits(n);
    var a, b, d, f := n / 4096, n / 256 % 16, n / 16 % 16, n % 16;
    HexDigits(a);
    HexDigits(b);
    HexDigits(d);
    HexDigits(f);
    SpelledOut(c, a, b, d, f);
  }

  lemma {:induction false} SpelledOut(c: CodeUnit, a: nat, b: nat, d: nat, f: nat)
    requires c as nat / 4096 == a < 16 && c as nat / 256 % 16 == b && c as nat / 16 % 16 == d && c as nat % 16 == f
    ensures UnicodeEscape(c) == [92, 117, Hex(a), Hex(b), Hex(d), Hex(f)]
  {
    hide Hex;
  }

  lemma {:induction false} EscapeMinimal(c: CodeUnit)
    ensures Minimal(Escape(c), c, false)
  {
    hide UnicodeEscape, HexDigit, DigitValue;
    UnicodeDenotes(c);
  }

  /** The parts spell the rest of the string, escaping only what must be. */
  ghost predicate PrintedFrom(s: JsString, k: nat, parts: seq<JsString>) {
    |parts| + k == |s| && forall i :: 0 <= i < |parts| ==> Minimal(parts[i], s[k + i], Paired(s, k + i))
  }

  lemma {:induction false} PrintedMore(s: JsString, k: nat, part: JsString, rest: seq<JsString>)
    requires k < |s| && Minimal(part, s[k], Paired(s, k)) && PrintedFrom(s, k + 1, rest)
    ensures PrintedFrom(s, k, [part] + rest) && Flat([part] + rest) == part + Flat(rest)
  {
    hide Minimal, Paired;
    assert ([part] + rest)[1..] == rest;
  }

  /** The printed rest of a string, unless the rest starts inside a pair. */
  lemma {:induction false} BodyPrints(s: JsString, k: nat) returns (parts: seq<JsString>)
    requires k <= |s| && (0 < k < |s| && High(s[k - 1]) ==> !Low(s[k]))
    ensures PrintedFrom(s, k, parts) && QuoteBody(s[k..]) == Flat(parts)
    decreases |s| - k
  {
    hide Escape, Minimal, Paired, QuoteBody, PrintedFrom, Flat;
    BodyStep(s, k);
    if k == |s| {
      parts := [];
      NothingPrinted(s);
    } else if k + 1 < |s| && High(s[k]) && Low(s[k + 1]) {
      var rest := BodyPrints(s, k + 2);
      PairMinimal(s, k);
      PrintedMore(s, k + 1, [s[k + 1]], rest);
      parts := [[s[k]]] + ([[s[k + 1]]] + rest);
      PrintedMore(s, k, [s[k]], [[s[k + 1]]] + rest);
      assert [s[k]] + ([s[k + 1]] + Flat(rest)) == [s[k], s[k + 1]] + Flat(rest);
    } else {
      var rest := BodyPrints(s, k + 1);
      EscapeMinimal(s[k]);
      NotPaired(s, k);
      parts := [Escape(s[k])] + rest;
      PrintedMore(s, k, Escape(s[k]), rest);
    }
  }

  lemma {:induction false} NothingPrinted(s: JsString)
    ensures PrintedFrom(s, |s|, []) && Flat([]) == []
  {
  }

  lemma {:induction false} BodyStep(s: JsString, k: nat)
    requires k <= |s|
    ensures QuoteBody(s[k..]) ==
      if k == |s| then []
      else if k + 1 < |s| && High(s[k]) && Low(s[k + 1]) then [s[k], s[k + 1]] + QuoteBody(s[k + 2..])
      else Escape(s[k]) + QuoteBody(s[k + 1..])
  {
    hide Escape;
    if k < |s| {
      assert s[k..][1..] == s[k + 1..];
      if k + 1 < |s| {
        assert s[k..][2..] == s[k + 2..] && s[k..][..2] == [s[k], s[k + 1]];
      }
    }
  }

  lemma {:induction false} PairMinimal(s: JsString, k: nat)
    requires k + 1 < |s| && High(s[k]) && Low(s[k + 1])
    ensures Minimal([s[k]], s[k], Paired(s, k)) && Minimal([s[k + 1]], s[k + 1], Paired(s, k + 1))
  {
  }

  lemma {:induction false} NotPaired(s: JsString, k: nat)
    requires k < |s| && (0 < k && High(s[k - 1]) ==> !Low(s[k]))
    requires k + 1 < |s| && High(s[k]) ==> !Low(s[k + 1])
    ensures !Paired(s, k)
  {
  }

  /** A printed string, unit by unit. */
  lemma {:induction false} QuotePrints(s: JsString) returns (parts: seq<JsString>)
    ensures |parts| == |s| && Quote(s) == [34] + Flat(parts) + [34]
    ensures forall i :: 0 <= i < |s| ==> Minimal(parts[i], s[i], Paired(s, i))
  {
    hide Minimal, QuoteBody;
    parts := BodyPrints(s, 0);
    assert s[0..] == s;
  }

  function Quotes(xs: seq<JsString>): (r: seq<JsString>)
    ensures |r| == |xs| && forall i :: 0 <= i < |xs| ==> r[i] == Quote(xs[i])
  {
    if xs == [] then [] else [Quote(xs[0])] + Quotes(xs[1..])
  }

  lemma {:induction false} JoinedCommas(xs: seq<JsString>)
    ensures Joined(xs) == Commas(Quotes(xs))
  {
    hide Quote;
    if |xs| > 1 {
      JoinedCommas(xs[1..]);
      assert Quotes(xs)[1..] == Quotes(xs[1..]);
    }
  }

  /** The printed array is the text of its strings, each in the printed form, between brackets and commas. */
  lemma {:induction false} StringifyPrints(xs: seq<JsString>)
    ensures Stringify(xs) == [91] + Commas(Quotes(xs)) + [93]
  {
    hide Quote;
    JoinedCommas(xs);
  }

  /** The printed array is a text of the grammar that denotes the array. */
  lemma {:induction false} StringifyIsText(xs: seq<JsString>)
    ensures ArrayText(Stringify(xs), xs)
  {
    hide Quote, Commas, Stringify;
    StringifyPrints(xs);
    forall i | 0 <= i < |xs| ensures StringText(Quotes(xs)[i], xs[i]) {
      QuoteIsText(xs[i]);
    }
    assert StringTexts(Quotes(xs), xs);
  }

  lemma {:induction false} QuoteIsText(s: JsString)
    ensures StringText(Quote(s), s)
  {
    hide Quote, Flat, Denotes;
    var parts := QuotePrints(s);
    assert Spells(parts, s);
  }
}
