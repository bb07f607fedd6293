/** The quick switcher's fuzzy matcher: a greedy walk over the lower-cased target with a score. Case folding is a
    parameter; scores are exact reals. */
module Fuzzy {
  import opened CodeUnits
  import opened Outcomes

  // ----- what a match is

  /** `ps` are rising positions in `t` that spell `q`. */
  predicate Embeds(q: JsString, t: JsString, ps: seq<nat>) {
    && |ps| == |q|
    && (forall i :: 0 <= i < |ps| ==> ps[i] < |t| && t[ps[i]] == q[i])
    && (forall i :: 0 < i < |ps| ==> ps[i - 1] < ps[i])
  }

  ghost predicate Subsequence(q: JsString, t: JsString) {
    exists ps :: Embeds(q, t, ps)
  }

  predicate NoLater(ps: seq<nat>, qs: seq<nat>) {
    |ps| == |qs| && forall i :: 0 <= i < |ps| ==> ps[i] <= qs[i]
  }

  /** Every position of this match is as early as in any other match. */
  ghost predicate Earliest(q: JsString, t: JsString, ps: seq<nat>) {
    Embeds(q, t, ps) && forall qs :: Embeds(q, t, qs) ==> NoLater(ps, qs)
  }

  // ----- what a match is worth

  /** White space, dash, underscore, slash or a single right-pointing angle quotation mark. */
  predicate Separator(c: CodeUnit) {
    || 9 <= c <= 13 || c == 32 || c == 0xA0 || c == 0x1680 || 0x2000 <= c <= 0x200A || c == 0x2028 || c == 0x2029
    || c == 0x202F || c == 0x205F || c == 0x3000 || c == 0xFEFF
    || c == 45 || c == 95 || c == 47 || c == 0x203A
  }

  predicate Boundary(t: JsString, position: nat)
    requires position < |t|
  {
    position == 0 || Separator(t[position - 1])
  }

  /** How many characters up to index `i` follow their predecessor directly, without interruption. */
  function RunLength(ps: seq<nat>, i: nat): nat
    requires i < |ps|
  {
    if i > 0 && ps[i] == ps[i - 1] + 1 then RunLength(ps, i - 1) + 1 else 0
  }

  /** How far `n` stays under the limit: `max(0, limit - n)`. */
  function Under(limit: nat, n: nat): nat {
    if n < limit then limit - n else 0
  }

  function CharacterPoints(t: JsString, ps: seq<nat>, i: nat): nat
    requires i < |ps| && ps[i] < |t|
  {
    Under(12, ps[i]) + 4 * RunLength(ps, i) + if Boundary(t, ps[i]) then 6 else 0
  }

  function Points(t: JsString, ps: seq<nat>, n: nat): nat
    requires n <= |ps| && forall i :: 0 <= i < n ==> ps[i] < |t|
  {
    if n == 0 then 0 else Points(t, ps, n - 1) + CharacterPoints(t, ps, n - 1)
  }

  function LengthPoints(q: JsString, t: JsString): real {
    var points := 8.0 - (|t| - |q|) as real / 4.0;
    if points < 0.0 then 0.0 else points
  }

  function Worth(q: JsString, t: JsString, ps: seq<nat>): real
    requires Embeds(q, t, ps)
  {
    if q == [] then 0.0 else Points(t, ps, |ps|) as real + LengthPoints(q, t)
  }

  // ----- the matcher

  /** `t.indexOf(c, from)`. */
  function IndexOf(t: JsString, c: CodeUnit, from: nat): (found: Option<nat>)
    ensures found.Some? ==> from <= found.value < |t| && t[found.value] == c
    ensures forall i :: from <= i < |t| && t[i] == c ==> found.Some? && found.value <= i
    decreases |t| - from
  {
    if from >= |t| then None else if t[from] == c then Some(from) else IndexOf(t, c, from + 1)
  }

  /** The score is null exactly when the lower-cased query is not a subsequence of the lower-cased target; otherwise
      it is the worth of the earliest match. */
  method FuzzyScore(lower: JsString -> JsString, query: JsString, target: JsString)
    returns (result: Option<real>, ghost positions: seq<nat>)
    ensures result.Some? <==> Subsequence(lower(query), lower(target))
    ensures result.Some? ==> Earliest(lower(query), lower(target), positions)
    ensures result.Some? ==> result.value == Worth(lower(query), lower(target), positions)
  {
    hide Separator, LengthPoints;
    var q, t := lower(query), lower(target);
    positions := [];
    assert Embeds([], t, []);
    if q == [] {
      return Some(0.0), [];
    }
    var score, ti, consecutive := 0, 0, 0;
    assert q[..0] == [];
    for qi := 0 to |q|
      invariant Earliest(q[..qi], t, positions)
      invariant ti == Next(positions)
      invariant consecutive == if qi == 0 then 0 else RunLength(positions, qi - 1)
      invariant score == Points(t, positions, qi)
    {
      var found := IndexOf(t, q[qi], ti);
      if found.None? {
        NoFurther(q, t, positions, qi);
        return None, [];
      }
      EarliestStep(q, t, positions, qi, found.value);
      PointsPrefix(t, positions, found.value);
      score := score + Under(12, found.value);
      if found.value == ti && qi > 0 {
        consecutive := consecutive + 1;
        score := score + consecutive * 4;
      } else {
        consecutive := 0;
      }
      if Boundary(t, found.value) {
        score := score + 6;
      }
      ti := found.value + 1;
      positions := positions + [found.value];
    }
    assert q[..|q|] == q;
    result := Some(score as real + LengthPoints(q, t));
  }

  /** Where the search for the next character starts. */
  function Next(ps: seq<nat>): nat {
    if ps == [] then 0 else ps[|ps| - 1] + 1
  }

  lemma {:induction false} EmbedsSnoc(q: JsString, t: JsString, ps: seq<nat>, n: nat)
    requires n < |q| && n < |ps| && Embeds(q[..n + 1], t, ps)
    ensures Embeds(q[..n], t, ps[..n]) && t[ps[n]] == q[n] && Next(ps[..n]) <= ps[n]
  {
  }

  lemma {:induction false} EarliestStep(q: JsString, t: JsString, ps: seq<nat>, n: nat, found: nat)
    requires n < |q| && Earliest(q[..n], t, ps)
    requires IndexOf(t, q[n], Next(ps)) == Some(found)
    ensures Earliest(q[..n + 1], t, ps + [found])
  {
    hide Earliest, Embeds;
    assert Embeds(q[..n + 1], t, ps + [found]) by {
      ExtendEmbedding(q, t, ps, n, found);
    }
    forall qs | Embeds(q[..n + 1], t, qs) ensures NoLater(ps + [found], qs) {
      LaterOrEqual(q, t, ps, n, qs);
    }
    IsEarliest(q[..n + 1], t, ps + [found]);
  }

  lemma {:induction false} IsEarliest(q: JsString, t: JsString, ps: seq<nat>)
    requires Embeds(q, t, ps) && forall qs :: Embeds(q, t, qs) ==> NoLater(ps, qs)
    ensures Earliest(q, t, ps)
  {
  }

  lemma {:induction false} ExtendEmbedding(q: JsString, t: JsString, ps: seq<nat>, n: nat, found: nat)
    requires n < |q| && Earliest(q[..n], t, ps)
    requires IndexOf(t, q[n], Next(ps)) == Some(found)
    ensures Embeds(q[..n + 1], t, ps + [found])
  {
  }

  /** Any match of one more character goes at least as far as the next search would. */
  lemma {:induction false} LaterOrEqual(q: JsString, t: JsString, ps: seq<nat>, n: nat, qs: seq<nat>)
    requires n < |q| && Earliest(q[..n], t, ps)
    requires Embeds(q[..n + 1], t, qs)
    ensures IndexOf(t, q[n], Next(ps)).Some?
    ensures NoLater(ps + [IndexOf(t, q[n], Next(ps)).value], qs)
  {
    hide IndexOf;
    assert |qs| == n + 1;
    EmbedsSnoc(q, t, qs, n);
    assert NoLater(ps, qs[..n]);
    assert Next(ps) <= qs[n] by {
      if n > 0 {
        assert ps[n - 1] <= qs[..n][n - 1];
      }
    }
    assert qs == qs[..n] + [qs[n]];
  }

  lemma {:induction false} NoFurther(q: JsString, t: JsString, ps: seq<nat>, n: nat)
    requires n < |q| && Earliest(q[..n], t, ps)
    requires IndexOf(t, q[n], Next(ps)).None?
    ensures !Subsequence(q, t)
  {
    if Subsequence(q, t) {
      var qs :| Embeds(q, t, qs);
      assert Embeds(q[..n + 1], t, qs[..n + 1]);
      LaterOrEqual(q, t, ps, n, qs[..n + 1]);
    }
  }

  /** Earlier points do not depend on later positions. */
  lemma {:induction false} PointsPrefix(t: JsString, ps: seq<nat>, found: nat)
    requires found < |t| && forall i :: 0 <= i < |ps| ==> ps[i] < |t|
    ensures Points(t, ps + [found], |ps|) == Points(t, ps, |ps|)
    ensures RunLength(ps + [found], |ps|) ==
      if ps != [] && found == Next(ps) then RunLength(ps, |ps| - 1) + 1 else 0
  {
    SamePoints(t, ps, ps + [found], |ps|);
    if ps != [] {
      SameRun(ps, ps + [found], |ps| - 1);
    }
  }

  lemma {:induction false} SameRun(ps: seq<nat>, more: seq<nat>, i: nat)
    requires i < |ps| && ps <= more
    ensures RunLength(ps, i) == RunLength(more, i)
  {
    if i > 0 {
      SameRun(ps, more, i - 1);
    }
  }

  lemma {:induction false} SamePoints(t: JsString, ps: seq<nat>, more: seq<nat>, n: nat)
    requires n <= |ps| && ps <= more
    requires forall i :: 0 <= i < |more| ==> more[i] < |t|
    requires forall i :: 0 <= i < |ps| ==> ps[i] < |t|
    ensures Points(t, ps, n) == Points(t, more, n)
  {
    if n > 0 {
      SamePoints(t, ps, more, n - 1);
      SameRun(ps, more, n - 1);
    }
  }

  // ----- how large and how small a score can be

  /** The earliest match is unique, so the score is a function of the two texts. */
  lemma {:induction false} EarliestIsUnique(q: JsString, t: JsString, ps: seq<nat>, qs: seq<nat>)
    requires Earliest(q, t, ps) && Earliest(q, t, qs)
    ensures ps == qs
  {
    assert NoLater(ps, qs) && NoLater(qs, ps);
  }

  function EarlyPoints(n: nat): nat {
    if n == 0 then 0 else EarlyPoints(n - 1) + Under(12, n - 1)
  }

  /** The most a query of length `n` can score: every character at its earliest position, on a boundary, in one run. */
  function Best(n: nat): nat {
    2 * n * (n - 1) + 6 * n + EarlyPoints(n) + 8
  }

  /** The same points, character by character. */
  function TopPoints(n: nat): nat {
    if n == 0 then 0 else TopPoints(n - 1) + (Under(12, n - 1) + 4 * (n - 1) + 6)
  }

  lemma {:induction false} TopPointsClosed(n: nat)
    ensures TopPoints(n) == 2 * n * (n - 1) + 6 * n + EarlyPoints(n)
  {
    hide Under;
    if n > 0 {
      TopPointsClosed(n - 1);
      NextProduct(n - 1);
    }
  }

  lemma {:induction false} NextProduct(m: int)
    ensures 2 * (m + 1) * m == 2 * m * (m - 1) + 4 * m
  {
  }

  lemma {:induction false} NotBefore(q: JsString, t: JsString, ps: seq<nat>, i: nat)
    requires Embeds(q, t, ps) && i < |ps|
    ensures i <= ps[i] && RunLength(ps, i) <= i
  {
    if i > 0 {
      NotBefore(q, t, ps, i - 1);
    }
  }

  lemma {:induction false} NoLongerThanTarget(q: JsString, t: JsString, ps: seq<nat>)
    requires Embeds(q, t, ps)
    ensures |q| <= |t|
  {
    if q != [] {
      NotBefore(q, t, ps, |ps| - 1);
    }
  }

  lemma {:induction false} PointsBound(q: JsString, t: JsString, ps: seq<nat>, n: nat)
    requires Embeds(q, t, ps) && n <= |ps|
    ensures Points(t, ps, n) <= TopPoints(n)
  {
    if n > 0 {
      PointsBound(q, t, ps, n - 1);
      NotBefore(q, t, ps, n - 1);
    }
  }

  lemma {:induction false} EarlyPointsBound(n: nat)
    ensures EarlyPoints(n) <= 12 * n
  {
    if n > 0 {
      EarlyPointsBound(n - 1);
    }
  }

  /** Every score lies between 0 and the best score of its length, hence at most 2n(n-1) + 18n + 8. */
  lemma {:induction false} ScoreBound(q: JsString, t: JsString, ps: seq<nat>)
    requires Embeds(q, t, ps)
    ensures 0.0 <= Worth(q, t, ps) <= Best(|q|) as real
    ensures Best(|q|) <= 2 * |q| * (|q| - 1) + 18 * |q| + 8
  {
    PointsBound(q, t, ps, |ps|);
    TopPointsClosed(|ps|);
    NoLongerThanTarget(q, t, ps);
    EarlyPointsBound(|q|);
  }

  /** The text of `n` dashes. */
  function Dashes(n: nat): JsString {
    seq(n, _ => 45)
  }

  function Upto(n: nat): seq<nat> {
    seq(n, i => i)
  }

  lemma {:induction false} DashPoints(n: nat, k: nat)
    requires k <= n
    ensures Points(Dashes(n), Upto(n), k) == TopPoints(k)
    ensures k < n ==> RunLength(Upto(n), k) == k
  {
    if k > 0 {
      DashPoints(n, k - 1);
    }
  }

  /** The bound is reached for every length: dashes searched in the same dashes. */
  lemma {:induction false} BestIsReached(n: nat)
    requires n > 0
    ensures Earliest(Dashes(n), Dashes(n), Upto(n))
    ensures Worth(Dashes(n), Dashes(n), Upto(n)) == Best(n) as real
  {
    var t := Dashes(n);
    forall qs | Embeds(t, t, qs) ensures NoLater(Upto(n), qs) {
      forall i | 0 <= i < |qs| ensures Upto(n)[i] <= qs[i] {
        NotBefore(t, t, qs, i);
      }
    }
    DashPoints(n, n);
    TopPointsClosed(n);
  }

  /** Something about this character is rewarded. */
  predicate Rewarded(t: JsString, ps: seq<nat>, i: nat)
    requires i < |ps| && ps[i] < |t|
  {
    ps[i] < 12 || Boundary(t, ps[i]) || (i > 0 && ps[i] == ps[i - 1] + 1)
  }

  lemma {:induction false} NoRewardNoPoints(q: JsString, t: JsString, ps: seq<nat>, n: nat)
    requires Embeds(q, t, ps) && n <= |ps|
    ensures Points(t, ps, n) == 0 <==> forall i :: 0 <= i < n ==> !Rewarded(t, ps, i)
  {
    if n > 0 {
      NoRewardNoPoints(q, t, ps, n - 1);
      assert CharacterPoints(t, ps, n - 1) == 0 <==> !Rewarded(t, ps, n - 1);
    }
  }

  /** The score is positive exactly when the query is not empty and either the target is less than 32 units longer than
      the query, or some matched character stands early, on a boundary or right after the one before it. */
  lemma {:induction false} PositiveIff(q: JsString, t: JsString, ps: seq<nat>)
    requires Embeds(q, t, ps)
    ensures Worth(q, t, ps) > 0.0 <==> q != [] && (|t| < |q| + 32 || exists i :: 0 <= i < |ps| && Rewarded(t, ps, i))
  {
    NoRewardNoPoints(q, t, ps, |ps|);
  }

  /** A match is not always worth something: one letter after forty others scores zero. */
  lemma {:induction false} MatchWorthNothing()
    ensures var q, t := [97 as CodeUnit], seq(40, _ => 98 as CodeUnit) + [97];
      Earliest(q, t, [40]) && Worth(q, t, [40]) == 0.0
  {
    var q, t := [97 as CodeUnit], seq(40, _ => 98 as CodeUnit) + [97];
    forall qs | Embeds(q, t, qs) ensures NoLater([40], qs) {
      assert t[qs[0]] == 97;
    }
    assert Points(t, [40], 1) == CharacterPoints(t, [40], 0);
  }

  // ----- what lengthens and what adds

  /** A match is still the earliest one when the target goes on behind it. */
  lemma {:induction false} EarliestInLonger(q: JsString, t: JsString, ps: seq<nat>, more: JsString)
    requires Earliest(q, t, ps)
    ensures Earliest(q, t + more, ps)
  {
    assert Embeds(q, t + more, ps);
    forall qs | Embeds(q, t + more, qs) ensures NoLater(ps, qs) {
      forall i | 0 <= i < |ps| ensures ps[i] <= qs[i] {
        if qs[i] < ps[i] {
          Spliced(q, t, ps, more, qs, i);
        }
      }
    }
  }

  /** Going over to an earlier position and back gives a match that is not later anywhere. */
  lemma {:induction false} Spliced(q: JsString, t: JsString, ps: seq<nat>, more: JsString, qs: seq<nat>, i: nat)
    requires Embeds(q, t, ps) && Embeds(q, t + more, qs) && i < |ps| && qs[i] < ps[i]
    ensures Embeds(q, t, qs[..i + 1] + ps[i + 1..]) && !NoLater(ps, qs[..i + 1] + ps[i + 1..])
  {
    var mix := qs[..i + 1] + ps[i + 1..];
    forall j | 0 <= j <= i ensures qs[j] <= qs[i] {
      RisesTo(q, t + more, qs, j, i);
    }
    assert mix[i] == qs[i];
  }

  lemma {:induction false} RisesTo(q: JsString, t: JsString, ps: seq<nat>, i: nat, j: nat)
    requires Embeds(q, t, ps) && i <= j < |ps|
    ensures ps[i] <= ps[j]
    decreases j
  {
    if i < j {
      RisesTo(q, t, ps, i, j - 1);
    }
  }

  lemma {:induction false} PointsInLonger(t: JsString, ps: seq<nat>, more: JsString, n: nat)
    requires n <= |ps| && forall i :: 0 <= i < n ==> ps[i] < |t|
    ensures Points(t + more, ps, n) == Points(t, ps, n)
  {
    if n > 0 {
      PointsInLonger(t, ps, more, n - 1);
    }
  }

  /** The same match in a longer target is worth a quarter less for every unit more, down to eight less when the target
      is 32 units longer than the query; from there on its length makes no difference. */
  lemma {:induction false} LongerTargetScoresLess(q: JsString, t: JsString, ps: seq<nat>, more: JsString)
    requires Earliest(q, t, ps) && q != []
    ensures Earliest(q, t + more, ps)
    ensures |t| + |more| <= |q| + 32 ==> Worth(q, t + more, ps) == Worth(q, t, ps) - |more| as real / 4.0
    ensures |t| >= |q| + 32 ==> Worth(q, t + more, ps) == Worth(q, t, ps)
    ensures |t| < |q| + 32 < |t| + |more| ==>
      Worth(q, t + more, ps) == Worth(q, t, ps) - (|q| + 32 - |t|) as real / 4.0
  {
    hide Earliest, Points;
    EarliestInLonger(q, t, ps, more);
    EarliestEmbeds(q, t, ps);
    EarliestEmbeds(q, t + more, ps);
    NoLongerThanTarget(q, t, ps);
    PointsInLonger(t, ps, more, |ps|);
  }

  lemma {:induction false} EarliestEmbeds(q: JsString, t: JsString, ps: seq<nat>)
    requires Earliest(q, t, ps)
    ensures Embeds(q, t, ps)
  {
  }

  /** White space of ECMAScript, the dash, the slash, the underscore and the single right-pointing angle quotation
      mark. */
  const SEPARATORS: set<nat> := {
    9, 10, 11, 12, 13, 32, 160, 5760, 8192, 8193, 8194, 8195, 8196, 8197, 8198, 8199, 8200, 8201, 8202, 8232, 8233,
    8239, 8287, 12288, 65279, 45, 47, 95, 8250}

  lemma {:induction false} SeparatorIff(c: CodeUnit)
    ensures Separator(c) <==> c as nat in SEPARATORS
  {
  }

  /** The characters directly before the one at index `i` that are matched without a gap. */
  lemma {:induction false} RunIff(q: JsString, t: JsString, ps: seq<nat>, i: nat, r: nat)
    requires Embeds(q, t, ps) && i < |ps|
    ensures r <= RunLength(ps, i) <==> r <= i && ps[i - r] + r == ps[i]
  {
    NotBefore(q, t, ps, i);
    if 0 < r <= i {
      RunIff(q, t, ps, i - 1, r - 1);
      GapsAdd(q, t, ps, i - r, i - 1);
    }
  }

  lemma {:induction false} GapsAdd(q: JsString, t: JsString, ps: seq<nat>, i: nat, j: nat)
    requires Embeds(q, t, ps) && i <= j < |ps|
    ensures ps[i] + (j - i) <= ps[j]
    decreases j
  {
    if i < j {
      GapsAdd(q, t, ps, i, j - 1);
    }
  }

  /** The match of one more character at `p` goes on without a gap from exactly `r` characters before it. */
  ghost predicate RunOf(ps: seq<nat>, p: nat, r: nat) {
    r <= |ps| && (ps + [p])[|ps| - r] + r == p && (r < |ps| ==> ps[|ps| - r - 1] + r + 1 != p)
  }

  /** Twelve less the position while that is positive, four for every character of the run before it, and six at the
      start or after a separator. */
  function Gain(t: JsString, p: nat, r: nat): nat
    requires p < |t|
  {
    (if p < 12 then 12 - p else 0) + 4 * r + if p == 0 || t[p - 1] as nat in SEPARATORS then 6 else 0
  }

  lemma {:induction false} PointsAdd(q: JsString, t: JsString, ps: seq<nat>, p: nat, r: nat)
    requires Embeds(q, t, ps + [p]) && RunOf(ps, p, r)
    ensures forall i :: 0 <= i < |ps| ==> ps[i] < |t|
    ensures p < |t|
    ensures Points(t, ps + [p], |ps| + 1) == Points(t, ps, |ps|) + Gain(t, p, r)
  {
    hide Separator, SEPARATORS;
    var more := ps + [p];
    assert more[..|ps|] == ps;
    forall i | 0 <= i < |ps| ensures ps[i] < |t| {
      assert more[i] == ps[i];
    }
    RunIff(q, t, more, |ps|, r);
    RunIff(q, t, more, |ps|, r + 1);
    SamePoints(t, ps, more, |ps|);
    if p > 0 {
      SeparatorIff(t[p - 1]);
    }
  }

  /** What matching one more character adds in the same target. A match is worth its gains and what the target's
      length leaves of eight. */
  lemma {:induction false} CharacterAdds(q: JsString, c: CodeUnit, t: JsString, ps: seq<nat>, p: nat, r: nat)
    requires Embeds(q + [c], t, ps + [p]) && RunOf(ps, p, r) && |t| <= |q| + 32
    ensures Embeds(q, t, ps) && p < |t|
    ensures Worth(q + [c], t, ps + [p]) ==
      (if q == [] then 8.0 - |t| as real / 4.0 else Worth(q, t, ps)) + 0.25 + Gain(t, p, r) as real
  {
    hide Points, RunOf, Gain, LengthPoints;
    var more := ps + [p];
    assert (q + [c])[..|q|] == q && more[..|ps|] == ps;
    EmbedsSnoc(q + [c], t, more, |q|);
    PointsAdd(q + [c], t, ps, p, r);
    NoLongerThanTarget(q + [c], t, more);
    LengthGains(q, c, t);
    NoPoints(t, ps);
  }

  lemma {:induction false} LengthGains(q: JsString, c: CodeUnit, t: JsString)
    requires |q| < |t| <= |q| + 32
    ensures LengthPoints(q + [c], t) == LengthPoints(q, t) + 0.25
    ensures q == [] ==> LengthPoints(q, t) == 8.0 - |t| as real / 4.0
  {
  }

  lemma {:induction false} NoPoints(t: JsString, ps: seq<nat>)
    ensures Points(t, ps, 0) == 0
  {
  }
}
