/** The colour hash of avatars and server icons: a rolling 32-bit hash computed in doubles. */
module ColorHash {
  import opened CodeUnits

  const WORD: nat := 0x1_0000_0000
  const EXACT: nat := 0x20_0000_0000

  /** Rounding to a double, as far as it is used: whole numbers below 2^37 are kept, and nothing is assumed about larger
      ones (doubles in fact keep all up to 2^53). */
  ghost predicate Rounds(round: nat -> nat) {
    forall n: nat :: n < EXACT ==> round(n) == n
  }

  function Pow31(n: nat): nat {
    if n == 0 then 1 else 31 * Pow31(n - 1)
  }

  /** The text read as digits of base 31, most significant first. */
  function Polynomial(s: JsString): nat {
    if s == [] then 0 else s[0] as nat * Pow31(|s| - 1) + Polynomial(s[1..])
  }

  function Hash(s: JsString): (h: nat)
    ensures h < WORD
  {
    Polynomial(s) % WORD
  }

  /** The loop computes the polynomial modulo 2^32; no intermediate reaches 2^37, so rounding never changes one. */
  method ColorForSeed(round: nat -> nat, seed: JsString) returns (hue: nat)
    requires Rounds(round)
    ensures hue == Hash(seed) % 360
  {
    var hash := 0;
    for index := 0 to |seed|
      invariant hash == Hash(seed[..index])
    {
      assert hash * 31 + seed[index] as nat < EXACT;
      HashSnoc(seed[..index], seed[index]);
      assert seed[..index + 1] == seed[..index] + [seed[index]];
      hash := round(round(hash * 31) + seed[index] as nat) % WORD;
    }
    assert seed[..|seed|] == seed;
    hue := hash % 360;
  }

  // ----- arithmetic

  lemma {:induction false} AddWords(x: nat, q: nat)
    ensures (x + q * WORD) % WORD == x % WORD
  {
    if q > 0 {
      AddWords(x, q - 1);
      assert x + q * WORD == x + (q - 1) * WORD + WORD;
    }
  }

  /** Only the residue of a factor matters. */
  lemma {:induction false} MulResidue(a: nat, k: nat, b: nat)
    ensures (a % WORD * k + b) % WORD == (a * k + b) % WORD
  {
    var q, r := a / WORD, a % WORD;
    assert a * k == r * k + q * k * WORD by {
      assert a == r + q * WORD;
      Distribute(r, q, k);
    }
    AddWords(r * k + b, q * k);
  }

  lemma {:induction false} Distribute(r: nat, q: nat, k: nat)
    ensures (r + q * WORD) * k == r * k + q * k * WORD
  {
  }

  lemma {:induction false} AddResidue(a: nat, b: nat)
    ensures (a + b % WORD) % WORD == (a + b) % WORD
  {
    AddWords(a + b % WORD, b / WORD);
  }

  lemma {:induction false} PowSum(m: nat, n: nat)
    ensures Pow31(m + n) == Pow31(m) * Pow31(n)
  {
    if m > 0 {
      PowSum(m - 1, n);
      assert m + n - 1 == m - 1 + n;
      Regroup31(Pow31(m - 1), Pow31(n));
    }
  }

  lemma {:induction false} Regroup31(x: nat, y: nat)
    ensures 31 * (x * y) == (31 * x) * y
  {
  }

  lemma {:induction false} PolynomialConcat(a: JsString, b: JsString)
    ensures Polynomial(a + b) == Polynomial(a) * Pow31(|b|) + Polynomial(b)
  {
    if a == [] {
      assert a + b == b;
    } else {
      var c, m, n := a[0] as nat, |a| - 1, |b|;
      assert (a + b)[1..] == a[1..] + b;
      PolynomialConcat(a[1..], b);
      PowSum(m, n);
      Regroup(c, Pow31(m), Pow31(n), Polynomial(a[1..]));
    }
  }

  lemma {:induction false} Regroup(c: nat, x: nat, y: nat, p: nat)
    ensures c * (x * y) + p * y == (c * x + p) * y
  {
  }

  /** The hash of a concatenation is determined by the two hashes and the second length. */
  lemma {:induction false} HashConcat(a: JsString, b: JsString)
    ensures Hash(a + b) == (Hash(a) * Pow31(|b|) + Hash(b)) % WORD
  {
    hide Pow31, Polynomial;
    PolynomialConcat(a, b);
    MulResidue(Polynomial(a), Pow31(|b|), Polynomial(b));
    AddResidue(Hash(a) * Pow31(|b|), Polynomial(b));
  }

  lemma {:induction false} HashSnoc(s: JsString, c: CodeUnit)
    ensures Hash(s + [c]) == (Hash(s) * 31 + c as nat) % WORD
  {
    assert Pow31(1) == 31 * Pow31(0);
    assert Polynomial([c]) == c as nat * Pow31(0) + Polynomial([]);
    assert Hash([c]) == c as nat;
    hide Hash, Polynomial, Pow31;
    HashConcat(s, [c]);
  }

  // ----- collisions

  /** 31 is odd, so it has an inverse modulo 2^32. */
  const INVERSE: nat := 3186588639

  lemma {:induction false} Undo(h: nat, c: nat)
    requires h < WORD && c < WORD
    ensures ((h * 31 + c) % WORD + (WORD - c)) * INVERSE % WORD == h
  {
    var next := (h * 31 + c) % WORD;
    var q := (h * 31 + c) / WORD;
    assert next + q * WORD == h * 31 + c;
    assert 31 * INVERSE == 1 + 23 * WORD;
    calc {
      ((next + (WORD - c)) + q * WORD) * INVERSE;
      (h * 31 + WORD) * INVERSE;
      h * (31 * INVERSE) + INVERSE * WORD;
      h + (23 * h + INVERSE) * WORD;
    }
    AddWords(h, 23 * h + INVERSE);
    AddWords((next + (WORD - c)) * INVERSE, q * INVERSE);
  }

  lemma {:induction false} SplitLast(a: JsString, s: JsString)
    requires s != []
    ensures a + s == a + s[..|s| - 1] + [s[|s| - 1]]
  {
  }

  lemma {:induction false} OneMoreCharacter(h: nat, g: nat, c: nat)
    requires h < WORD && g < WORD && c < WORD
    ensures (h * 31 + c) % WORD == (g * 31 + c) % WORD <==> h == g
  {
    Undo(h, c);
    Undo(g, c);
  }

  /** Appending the same text neither makes nor breaks a collision. */
  lemma {:induction false} SuffixKeepsCollisions(a: JsString, b: JsString, suffix: JsString)
    ensures Hash(a + suffix) == Hash(b + suffix) <==> Hash(a) == Hash(b)
    decreases |suffix|
  {
    hide Hash;
    if suffix == [] {
      assert a + suffix == a && b + suffix == b;
    } else {
      var init, c := suffix[..|suffix| - 1], suffix[|suffix| - 1];
      SuffixKeepsCollisions(a, b, init);
      SplitLast(a, suffix);
      SplitLast(b, suffix);
      HashSnoc(a + init, c);
      HashSnoc(b + init, c);
      OneMoreCharacter(Hash(a + init), Hash(b + init), c as nat);
    }
  }

  /** Texts of one length collide after a common prefix exactly when they collide without it. */
  lemma {:induction false} PrefixKeepsCollisions(prefix: JsString, a: JsString, b: JsString)
    requires |a| == |b|
    ensures Hash(prefix + a) == Hash(prefix + b) <==> Hash(a) == Hash(b)
  {
    HashConcat(prefix, a);
    HashConcat(prefix, b);
    Cancel(Hash(prefix) * Pow31(|a|), Hash(a), Hash(b));
  }

  lemma {:induction false} Cancel(x: nat, h: nat, g: nat)
    requires h < WORD && g < WORD
    ensures (x + h) % WORD == (x + g) % WORD <==> h == g
  {
  }
}
