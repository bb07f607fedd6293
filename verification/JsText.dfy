/** JavaScript string and map idioms the components rely on. */
module JsText {
  import opened Sequences

  /** White space and line terminators that `String.prototype.trim` removes. */
  predicate IsSpace(c: char) {
    || c in {'\t', '\U{B}', '\U{C}', ' ', '\U{A0}', '\U{FEFF}', '\n', '\r', '\U{2028}', '\U{2029}'}
    || c in {'\U{1680}', '\U{202F}', '\U{205F}', '\U{3000}'}
    || '\U{2000}' <= c <= '\U{200A}'
  }

  function TrimStart(s: string): string {
    if s != "" && IsSpace(s[0]) then TrimStart(s[1..]) else s
  }

  function TrimEnd(s: string): string {
    if s != "" && IsSpace(s[|s| - 1]) then TrimEnd(s[..|s| - 1]) else s
  }

  function Trim(s: string): string {
    TrimEnd(TrimStart(s))
  }

  lemma {:induction false} TrimStartTight(s: string)
    ensures TrimStart(s) == "" || !IsSpace(TrimStart(s)[0])
  {
    if s != "" && IsSpace(s[0]) {
      TrimStartTight(s[1..]);
    }
  }

  lemma {:induction false} TrimEndTight(s: string)
    ensures TrimEnd(s) == "" || !IsSpace(TrimEnd(s)[|TrimEnd(s)| - 1])
    ensures TrimEnd(s) <= s
  {
    if s != "" && IsSpace(s[|s| - 1]) {
      TrimEndTight(s[..|s| - 1]);
    }
  }

  /** Trimming twice trims once. */
  lemma {:induction false} TrimIdempotent(s: string)
    ensures Trim(Trim(s)) == Trim(s)
  {
    TrimStartTight(s);
    TrimEndTight(TrimStart(s));
  }

  function Digit(d: nat): char
    requires d < 10
  {
    "0123456789"[d]
  }

  /** Decimal notation of an array index. */
  function Decimal(n: nat): (r: string)
    ensures r != ""
  {
    if n < 10 then [Digit(n)] else Decimal(n / 10) + [Digit(n % 10)]
  }

  /** A JavaScript `Map` with string keys: lookup plus the insertion order that iteration follows. */
  datatype JsMap<V> = JsMap(keys: seq<string>, vals: map<string, V>) {

    ghost predicate Valid() {
      Distinct(keys) && forall k :: k in keys <==> k in vals
    }

    /** Setting an existing key keeps its position. */
    function Set(k: string, v: V): JsMap<V> {
      JsMap(if k in vals then keys else keys + [k], vals[k := v])
    }

    function Delete(k: string): JsMap<V> {
      JsMap(Without(keys, {k}), vals - {k})
    }

    lemma {:induction false} SetValid(k: string, v: V)
      requires Valid()
      ensures Set(k, v).Valid()
    {
      if k !in vals {
        DistinctConcat(keys, [k]);
      }
    }

    lemma {:induction false} DeleteValid(k: string)
      requires Valid()
      ensures Delete(k).Valid()
    {
      WithoutDistinct(keys, {k});
    }
  }

  function EmptyMap<V>(): (m: JsMap<V>)
    ensures m.Valid()
  {
    JsMap([], map[])
  }
}
