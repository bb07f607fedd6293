/** What trimming and numbering do, told by code points and by reading back. */
module TextLaws {
  import opened JsText

  /** WhiteSpace and LineTerminator of ECMAScript (sections 12.2 and 12.3 of ECMA-262). */
  const WHITE: set<nat> := {
    9, 10, 11, 12, 13, 32, 160, 5760, 8192, 8193, 8194, 8195, 8196, 8197, 8198, 8199, 8200, 8201, 8202, 8232, 8233,
    8239, 8287, 12288, 65279}

  ghost predicate AllWhite(s: string) {
    forall i :: 0 <= i < |s| ==> s[i] as nat in WHITE
  }

  /** `t` is what is left of `s` without the white space at its two ends. */
  ghost predicate TrimsTo(s: string, t: string) {
    exists lead, tail :: TrimsBy(s, lead, t, tail)
  }

  ghost predicate TrimsBy(s: string, lead: string, t: string, tail: string) {
    && s == lead + t + tail && AllWhite(lead) && AllWhite(tail)
    && (t != "" ==> t[0] as nat !in WHITE && t[|t| - 1] as nat !in WHITE)
  }

  lemma {:induction false} WhiteIff(c: char)
    ensures IsSpace(c) <==> c as nat in WHITE
  {
  }

  lemma {:induction false} StartSplits(s: string) returns (lead: string)
    ensures s == lead + TrimStart(s) && AllWhite(lead)
  {
    lead := "";
    if s != "" && IsSpace(s[0]) {
      WhiteIff(s[0]);
      hide IsSpace, WHITE;
      var before := StartSplits(s[1..]);
      lead := [s[0]] + before;
      assert s == [s[0]] + (before + TrimStart(s[1..]));
    }
  }

  lemma {:induction false} EndSplits(s: string) returns (tail: string)
    ensures s == TrimEnd(s) + tail && AllWhite(tail)
    decreases |s|
  {
    tail := "";
    if s != "" && IsSpace(s[|s| - 1]) {
      WhiteIff(s[|s| - 1]);
      hide IsSpace, WHITE;
      var before := EndSplits(s[..|s| - 1]);
      tail := before + [s[|s| - 1]];
      assert s == (TrimEnd(s[..|s| - 1]) + before) + [s[|s| - 1]];
    }
  }

  lemma {:induction false} StartOf(lead: string, core: string)
    requires AllWhite(lead) && (core != "" ==> core[0] as nat !in WHITE)
    ensures TrimStart(lead + core) == core
  {
    hide IsSpace, WHITE;
    if lead == "" {
      assert lead + core == core;
      if core != "" {
        WhiteIff(core[0]);
      }
    } else {
      WhiteIff(lead[0]);
      assert (lead + core)[1..] == lead[1..] + core;
      StartOf(lead[1..], core);
    }
  }

  lemma {:induction false} EndOf(core: string, tail: string)
    requires AllWhite(tail) && (core != "" ==> core[|core| - 1] as nat !in WHITE)
    ensures TrimEnd(core + tail) == core
    decreases |tail|
  {
    hide IsSpace, WHITE;
    if tail == "" {
      assert core + tail == core;
      if core != "" {
        WhiteIff(core[|core| - 1]);
      }
    } else {
      var init := tail[..|tail| - 1];
      WhiteIff(tail[|tail| - 1]);
      assert (core + tail)[..|core + tail| - 1] == core + init;
      EndOf(core, init);
    }
  }

  /** Trimming takes off the white space at both ends and nothing else. */
  lemma {:induction false} TrimIff(s: string, t: string)
    ensures Trim(s) == t <==> TrimsTo(s, t)
  {
    hide IsSpace, WHITE, TrimStart, TrimEnd;
    TrimHolds(s);
    if lead, tail :| TrimsBy(s, lead, t, tail) {
      TrimmedBy(s, lead, t, tail);
    }
  }

  lemma {:induction false} TrimHolds(s: string)
    ensures TrimsTo(s, Trim(s))
  {
    hide IsSpace, WHITE, TrimStart, TrimEnd;
    var lead := StartSplits(s);
    var tail := EndSplits(TrimStart(s));
    var t := Trim(s);
    TrimStartTight(s);
    TrimEndTight(TrimStart(s));
    if t != "" {
      assert t[0] == TrimStart(s)[0];
      WhiteIff(t[0]);
      WhiteIff(t[|t| - 1]);
    }
    assert s == lead + (t + tail);
    assert TrimsBy(s, lead, t, tail);
  }

  lemma {:induction false} TrimmedBy(s: string, lead: string, t: string, tail: string)
    requires TrimsBy(s, lead, t, tail)
    ensures Trim(s) == t
  {
    hide IsSpace, WHITE, TrimStart, TrimEnd;
    if t == "" {
      assert s == (lead + tail) + "";
      StartOf(lead + tail, "");
      EndOf("", "");
      assert "" + "" == "";
    } else {
      assert s == lead + (t + tail);
      StartOf(lead, t + tail);
      EndOf(t, tail);
    }
  }

  // ----- numbers in decimal

  /** The number that decimal digits denote. */
  function Denoted(s: string): int {
    if s == "" then 0 else 10 * Denoted(s[..|s| - 1]) + (s[|s| - 1] as int - 48)
  }

  lemma {:induction false} DigitDenotes(d: nat)
    requires d < 10
    ensures Digit(d) as int == 48 + d
  {
  }

  lemma {:induction false} DecimalDenotes(n: nat)
    ensures Denoted(Decimal(n)) == n
    ensures forall i :: 0 <= i < |Decimal(n)| ==> 48 <= Decimal(n)[i] as int <= 57
  {
    DigitDenotes(n % 10);
    if n < 10 {
      assert Decimal(n)[..0] == "";
    } else {
      hide Digit;
      DecimalDenotes(n / 10);
      assert Decimal(n)[..|Decimal(n)| - 1] == Decimal(n / 10);
    }
  }
}
