/** JSON-like JavaScript values and the collection idioms of the snapshot normalisers: trimmed unique strings, arrays
    of records with unique keys, and objects built by assignment. */
module JsValues {
  import opened JsText
  import opened Outcomes
  import opened Sequences

  /** `own` holds the own enumerable properties and `keys` the order in which they are enumerated; `plain` says whether
      the prototype is `Object.prototype`. */
  datatype Value =
    | Undefined
    | Null
    | Bool(b: bool)
    | Num(n: real, finite: bool)
    | Str(s: string)
    | Arr(items: seq<Value>)
    | Obj(plain: bool, own: map<string, Value>, keys: seq<string>)

  predicate IsPlain(v: Value) {
    v.Obj? && v.plain
  }

  /** Reading a property that `Object.prototype` does not have. */
  function Read(v: Value, key: string): Value {
    if v.Obj? && key in v.own then v.own[key] else Undefined
  }

  /** The trimmed text of a string, "" for anything else. */
  function TextOf(v: Value): string {
    if v.Str? then Trim(v.s) else ""
  }

  function OptText(v: Value): Option<string> {
    if TextOf(v) != "" then Some(TextOf(v)) else None
  }

  function OptBool(v: Value): Option<bool> {
    if v.Bool? then Some(v.b) else None
  }

  function OptNumber(v: Value): Option<real> {
    if v.Num? && v.finite then Some(v.n) else None
  }

  function OneOf(v: Value, allowed: set<string>): Option<string> {
    if v.Str? && v.s in allowed then Some(v.s) else None
  }

  // ----- values that stand for normalised data

  /** Normalised text: not empty and nothing to trim. */
  predicate Tidy(s: string) {
    s != "" && Trim(s) == s
  }

  predicate OptTidy(s: Option<string>) {
    s.Some? ==> Tidy(s.value)
  }

  function FromText(s: Option<string>): Value {
    if s.Some? then Str(s.value) else Undefined
  }

  function FromBool(b: Option<bool>): Value {
    if b.Some? then Bool(b.value) else Undefined
  }

  function FromNumber(n: Option<real>): Value {
    if n.Some? then Num(n.value, true) else Undefined
  }

  lemma {:induction false} OptTextTidy(v: Value)
    ensures OptTidy(OptText(v))
  {
    if v.Str? {
      TrimIdempotent(v.s);
    }
  }

  /** The values are the strings of the list. */
  predicate AreTexts(v: Value, ss: seq<string>) {
    v.Arr? && |v.items| == |ss| && forall i :: 0 <= i < |ss| ==> v.items[i] == Str(ss[i])
  }

  // ----- unique strings

  function Texts(items: seq<Value>): (r: seq<string>)
    ensures |r| == |items|
    ensures forall i :: 0 <= i < |items| ==> r[i] == TextOf(items[i])
  {
    if items == [] then [] else [TextOf(items[0])] + Texts(items[1..])
  }

  /** `uniqueStrings` over the trimmed texts: the first copy of each non-empty one. */
  function UniqueTexts(items: seq<Value>): seq<string> {
    FirstCopies(Without(Texts(items), {""}))
  }

  method NormalizeStringArray(items: seq<Value>) returns (normalized: seq<string>)
    ensures normalized == UniqueTexts(items)
  {
    normalized := [];
    var seen: set<string> := {};
    for i := 0 to |items|
      invariant normalized == FirstCopies(Without(Texts(items)[..i], {""}))
      invariant forall s :: s in seen <==> s in normalized
    {
      UniqueSnoc(Texts(items), i);
      var entry := items[i];
      if entry.Str? {
        var trimmed := Trim(entry.s);
        if trimmed != "" && trimmed !in seen {
          seen := seen + {trimmed};
          normalized := normalized + [trimmed];
        }
      }
    }
    assert Texts(items)[..|items|] == Texts(items);
  }

  lemma {:induction false} UniqueSnoc(ss: seq<string>, i: nat)
    requires i < |ss|
    ensures var before := FirstCopies(Without(ss[..i], {""}));
      FirstCopies(Without(ss[..i + 1], {""})) == if ss[i] == "" || ss[i] in before then before else before + [ss[i]]
  {
    hide Without, FirstCopies;
    WithoutSnoc(ss, i, {""});
    var kept := Without(ss[..i], {""});
    FirstCopiesSnoc(kept, ss[i]);
    FirstCopiesMembers(kept);
    assert kept + [] == kept;
  }

  /** Normalised lists of strings: distinct and tidy. */
  ghost predicate TidyList(ss: seq<string>) {
    Distinct(ss) && forall s :: s in ss ==> Tidy(s)
  }

  lemma {:induction false} TextsTrimmed(items: seq<Value>, s: string)
    requires s in Texts(items)
    ensures Trim(s) == s
  {
    var i :| 0 <= i < |items| && Texts(items)[i] == s;
    if items[i].Str? {
      TrimIdempotent(items[i].s);
    }
  }

  lemma {:induction false} UniqueTextsTidy(items: seq<Value>)
    ensures TidyList(UniqueTexts(items))
    ensures forall s :: s in UniqueTexts(items) ==> s in Texts(items)
  {
    FirstCopiesMembers(Without(Texts(items), {""}));
    forall s | s in UniqueTexts(items) ensures Tidy(s) {
      TextsTrimmed(items, s);
    }
  }

  /** Unique strings stay as they are. */
  lemma {:induction false} UniqueTextsAgain(ss: seq<string>, v: Value)
    requires TidyList(ss) && AreTexts(v, ss)
    ensures UniqueTexts(v.items) == ss
  {
    forall i | 0 <= i < |ss| ensures Texts(v.items)[i] == ss[i] {
      assert Tidy(ss[i]) && v.items[i] == Str(ss[i]);
    }
    assert Texts(v.items) == ss;
    WithoutNone(ss, {""});
    FirstCopiesDistinct(ss);
  }

  // ----- arrays of records

  function Records<T>(norm: Value -> Option<T>, items: seq<Value>): seq<T> {
    if items == [] then []
    else
      var before := Records(norm, items[..|items| - 1]);
      var record := norm(items[|items| - 1]);
      if record.None? then before else before + [record.value]
  }

  lemma {:induction false} RecordsStep<T>(norm: Value -> Option<T>, items: seq<Value>, i: nat)
    requires i < |items|
    ensures Records(norm, items[..i + 1]) ==
      Records(norm, items[..i]) + if norm(items[i]).Some? then [norm(items[i]).value] else []
  {
    assert items[..i + 1][..i] == items[..i];
  }

  /** The records are those of the items at these positions, which are all before `n` that give one. */
  ghost predicate RecordsAt<T>(norm: Value -> Option<T>, items: seq<Value>, n: nat, ts: seq<T>, at: seq<nat>) {
    && Rising(at) && |at| == |ts|
    && (forall i: nat :: i in at <==> i < n && i < |items| && norm(items[i]).Some?)
    && (forall k :: 0 <= k < |at| ==> at[k] < |items| && norm(items[at[k]]) == Some(ts[k]))
  }

  lemma {:induction false} OneMoreRecord<T>(norm: Value -> Option<T>, items: seq<Value>, n: nat, ts: seq<T>,
      at: seq<nat>) returns (more: seq<nat>)
    requires n < |items| && RecordsAt(norm, items, n, ts, at)
    ensures RecordsAt(norm, items, n + 1, ts + if norm(items[n]).Some? then [norm(items[n]).value] else [], more)
  {
    hide Rising;
    if norm(items[n]).Some? {
      RisingSnoc(at, n);
      more := at + [n];
    } else {
      more := at;
      assert ts + [] == ts;
    }
  }

  lemma {:induction false} NothingRecorded<T>(norm: Value -> Option<T>, items: seq<Value>)
    ensures RecordsAt(norm, items, 0, Records(norm, []), [])
  {
  }

  lemma {:induction false} RecordsUpTo<T>(norm: Value -> Option<T>, items: seq<Value>, n: nat) returns (at: seq<nat>)
    requires n <= |items|
    ensures RecordsAt(norm, items, n, Records(norm, items[..n]), at)
  {
    hide RecordsAt, Records;
    if n == 0 {
      assert items[..0] == [];
      NothingRecorded(norm, items);
      at := [];
    } else {
      at := RecordsUpTo(norm, items, n - 1);
      RecordsStep(norm, items, n - 1);
      at := OneMoreRecord(norm, items, n - 1, Records(norm, items[..n - 1]), at);
    }
  }

  /** One record for each item that gives one, in the order of the items. */
  lemma {:induction false} RecordsOrder<T>(norm: Value -> Option<T>, items: seq<Value>) returns (at: seq<nat>)
    ensures Rising(at) && |at| == |Records(norm, items)|
    ensures forall i: nat :: i in at <==> i < |items| && norm(items[i]).Some?
    ensures forall k :: 0 <= k < |at| ==> at[k] < |items| && norm(items[at[k]]) == Some(Records(norm, items)[k])
  {
    hide Records;
    assert items[..|items|] == items;
    at := RecordsUpTo(norm, items, |items|);
  }

  predicate HasKey<T>(key: T -> string, ts: seq<T>, k: string) {
    exists i :: 0 <= i < |ts| && key(ts[i]) == k
  }

  /** The first record of each key. */
  function Dedup<T>(key: T -> string, ts: seq<T>): seq<T> {
    if ts == [] then []
    else
      var before := Dedup(key, ts[..|ts| - 1]);
      if HasKey(key, before, key(ts[|ts| - 1])) then before else before + [ts[|ts| - 1]]
  }

  predicate KeysDistinct<T>(key: T -> string, ts: seq<T>) {
    forall i, j :: 0 <= i < j < |ts| ==> key(ts[i]) != key(ts[j])
  }

  function RecordArray<T>(norm: Value -> Option<T>, key: T -> string, items: seq<Value>): seq<T> {
    Dedup(key, Records(norm, items))
  }

  /** The loop that every array normaliser has: skip what is not a record or repeats a key. */
  method NormalizeRecords<T>(norm: Value -> Option<T>, key: T -> string, items: seq<Value>) returns (normalized: seq<T>)
    ensures normalized == RecordArray(norm, key, items)
  {
    normalized := [];
    var seen: set<string> := {};
    for i := 0 to |items|
      invariant normalized == RecordArray(norm, key, items[..i])
      invariant forall k :: k in seen <==> HasKey(key, normalized, k)
    {
      assert items[..i + 1][..i] == items[..i];
      var record := norm(items[i]);
      if record.Some? {
        DedupSnoc(key, Records(norm, items[..i]), record.value);
        if key(record.value) !in seen {
          HasKeySnoc(key, normalized, record.value);
          seen := seen + {key(record.value)};
          normalized := normalized + [record.value];
        }
      }
    }
    assert items[..|items|] == items;
  }

  lemma {:induction false} DedupSnoc<T>(key: T -> string, ts: seq<T>, t: T)
    ensures Dedup(key, ts + [t]) == if HasKey(key, Dedup(key, ts), key(t)) then Dedup(key, ts) else Dedup(key, ts) + [t]
  {
    assert (ts + [t])[..|ts + [t]| - 1] == ts;
  }

  lemma {:induction false} HasKeySnoc<T>(key: T -> string, ts: seq<T>, t: T)
    ensures forall k :: HasKey(key, ts + [t], k) <==> HasKey(key, ts, k) || key(t) == k
  {
    forall k ensures HasKey(key, ts + [t], k) <==> HasKey(key, ts, k) || key(t) == k {
      if HasKey(key, ts, k) {
        var i :| 0 <= i < |ts| && key(ts[i]) == k;
        assert (ts + [t])[i] == ts[i];
      }
      assert (ts + [t])[|ts|] == t;
    }
  }

  lemma {:induction false} DedupKeys<T>(key: T -> string, ts: seq<T>)
    ensures KeysDistinct(key, Dedup(key, ts))
    ensures |Dedup(key, ts)| <= |ts|
    decreases |ts|
  {
    if ts != [] {
      var init := ts[..|ts| - 1];
      DedupKeys(key, init);
    }
  }

  lemma {:induction false} DedupMembers<T(!new)>(key: T -> string, ts: seq<T>)
    ensures forall t :: t in Dedup(key, ts) ==> t in ts
    decreases |ts|
  {
    if ts != [] {
      var init := ts[..|ts| - 1];
      DedupMembers(key, init);
      assert ts == init + [ts[|ts| - 1]];
    }
  }

  lemma {:induction false} NewKey<T>(key: T -> string, ts: seq<T>)
    requires KeysDistinct(key, ts) && ts != []
    ensures KeysDistinct(key, ts[..|ts| - 1]) && !HasKey(key, ts[..|ts| - 1], key(ts[|ts| - 1]))
  {
  }

  lemma {:induction false} DedupDistinct<T>(key: T -> string, ts: seq<T>)
    requires KeysDistinct(key, ts)
    ensures Dedup(key, ts) == ts
    decreases |ts|
  {
    if ts != [] {
      var init, last := ts[..|ts| - 1], ts[|ts| - 1];
      DedupDistinct(key, init);
      NewKey(key, ts);
      hide KeysDistinct, HasKey;
      assert ts == init + [last];
    }
  }

  lemma {:induction false} RecordsFrom<T(!new)>(norm: Value -> Option<T>, items: seq<Value>, t: T) returns (i: nat)
    requires t in Records(norm, items)
    ensures i < |items| && norm(items[i]) == Some(t)
    decreases |items|
  {
    var init := items[..|items| - 1];
    if t in Records(norm, init) {
      i := RecordsFrom(norm, init, t);
    } else {
      i := |items| - 1;
    }
  }

  /** Every record of a normalised array comes from one of the items. */
  lemma {:induction false} RecordArrayFrom<T(!new)>(norm: Value -> Option<T>, key: T -> string, items: seq<Value>, t: T)
      returns (i: nat)
    requires t in RecordArray(norm, key, items)
    ensures i < |items| && norm(items[i]) == Some(t)
  {
    DedupMembers(key, Records(norm, items));
    i := RecordsFrom(norm, items, t);
  }

  lemma {:induction false} RecordsKept<T>(norm: Value -> Option<T>, items: seq<Value>, ts: seq<T>)
    requires |items| == |ts|
    ensures |Records(norm, items)| <= |items|
    ensures Records(norm, items) == ts <==> forall i :: 0 <= i < |ts| ==> norm(items[i]) == Some(ts[i])
    decreases |items|
  {
    if items != [] {
      var n := |items| - 1;
      RecordsKept(norm, items[..n], ts[..n]);
      assert ts == ts[..n] + [ts[n]];
      if norm(items[n]).Some? && Records(norm, items) == ts {
        assert Records(norm, items)[..n] == ts[..n];
        assert Records(norm, items)[n] == ts[n];
      }
    }
  }

  /** Normalising the items of a normalised array gives it back exactly when every item gives back its record. */
  lemma {:induction false} RecordArrayAgainIff<T>(norm: Value -> Option<T>, key: T -> string, items: seq<Value>,
      ts: seq<T>)
    requires KeysDistinct(key, ts) && |items| == |ts|
    ensures RecordArray(norm, key, items) == ts <==> forall i :: 0 <= i < |ts| ==> norm(items[i]) == Some(ts[i])
  {
    hide Records, Dedup;
    RecordsKept(norm, items, ts);
    if Records(norm, items) == ts {
      DedupDistinct(key, ts);
    } else if RecordArray(norm, key, items) == ts {
      DedupKeys(key, Records(norm, items));
      DedupShorter(key, Records(norm, items));
    }
  }

  lemma {:induction false} DedupShorter<T>(key: T -> string, ts: seq<T>)
    ensures |Dedup(key, ts)| == |ts| ==> Dedup(key, ts) == ts
    decreases |ts|
  {
    hide KeysDistinct, HasKey;
    if |Dedup(key, ts)| == |ts| > 0 {
      var init, last := ts[..|ts| - 1], ts[|ts| - 1];
      DedupKeys(key, init);
      DedupShorter(key, init);
      assert Dedup(key, ts) == Dedup(key, init) + [last];
    }
  }

  /** The item gives the record that a normalised array keeps for its key: no earlier item gives one. */
  ghost predicate Kept<T>(norm: Value -> Option<T>, key: T -> string, items: seq<Value>, i: nat): (kept: bool)
    ensures kept ==> i < |items| && norm(items[i]).Some?
  {
    i < |items| && norm(items[i]).Some?
    && forall j :: 0 <= j < i && norm(items[j]).Some? ==> key(norm(items[j]).value) != key(norm(items[i]).value)
  }

  lemma {:induction false} RecordArraySnoc<T>(norm: Value -> Option<T>, key: T -> string, items: seq<Value>, n: nat)
    requires n < |items|
    ensures var before, record := RecordArray(norm, key, items[..n]), norm(items[n]);
      RecordArray(norm, key, items[..n + 1]) ==
      if record.None? || HasKey(key, before, key(record.value)) then before else before + [record.value]
  {
    RecordsStep(norm, items, n);
    var before := Records(norm, items[..n]);
    assert before + [] == before;
    if norm(items[n]).Some? {
      DedupSnoc(key, before, norm(items[n]).value);
    }
  }

  lemma {:induction false} HasKeyIff<T>(norm: Value -> Option<T>, key: T -> string, items: seq<Value>, n: nat,
      k: string)
    requires n <= |items|
    ensures HasKey(key, RecordArray(norm, key, items[..n]), k) <==>
      exists j :: 0 <= j < n && norm(items[j]).Some? && key(norm(items[j]).value) == k
  {
    hide RecordArray, HasKey;
    if n == 0 {
      assert items[..0] == [];
      NothingKept(norm, key, k);
    } else {
      HasKeyIff(norm, key, items, n - 1, k);
      RecordArraySnoc(norm, key, items, n - 1);
      if norm(items[n - 1]).Some? {
        HasKeySnoc(key, RecordArray(norm, key, items[..n - 1]), norm(items[n - 1]).value);
      }
    }
  }

  lemma {:induction false} NothingKept<T>(norm: Value -> Option<T>, key: T -> string, k: string)
    ensures RecordArray(norm, key, []) == [] && !HasKey(key, RecordArray(norm, key, []), k)
  {
  }

  /** The records of the items before `n` are those of the kept items at these positions. */
  ghost predicate KeptAt<T>(norm: Value -> Option<T>, key: T -> string, items: seq<Value>, n: nat, ts: seq<T>,
      at: seq<nat>) {
    && Rising(at) && |at| == |ts| && (forall i: nat :: i in at <==> i < n && Kept(norm, key, items, i))
    && (forall k :: 0 <= k < |at| ==> at[k] < |items| && norm(items[at[k]]) == Some(ts[k]))
  }

  lemma {:induction false} OneMoreKept<T>(norm: Value -> Option<T>, key: T -> string, items: seq<Value>, n: nat,
      ts: seq<T>, at: seq<nat>) returns (more: seq<nat>)
    requires n < |items| && KeptAt(norm, key, items, n, ts, at)
    ensures KeptAt(norm, key, items, n + 1,
      ts + if Kept(norm, key, items, n) then [norm(items[n]).value] else [], more)
  {
    hide Rising, Kept;
    if Kept(norm, key, items, n) {
      RisingSnoc(at, n);
      more := at + [n];
    } else {
      more := at;
      assert ts + [] == ts;
    }
  }

  lemma {:induction false} NextKept<T>(norm: Value -> Option<T>, key: T -> string, items: seq<Value>, n: nat)
    requires n < |items|
    ensures RecordArray(norm, key, items[..n + 1]) ==
      RecordArray(norm, key, items[..n]) + if Kept(norm, key, items, n) then [norm(items[n]).value] else []
  {
    hide RecordArray, HasKey;
    RecordArraySnoc(norm, key, items, n);
    if norm(items[n]).Some? {
      HasKeyIff(norm, key, items, n, key(norm(items[n]).value));
    }
    var before := RecordArray(norm, key, items[..n]);
    assert before + [] == before;
  }

  lemma {:induction false} NothingKeptAt<T>(norm: Value -> Option<T>, key: T -> string, items: seq<Value>)
    ensures KeptAt(norm, key, items, 0, RecordArray(norm, key, []), [])
  {
    hide Kept;
  }

  lemma {:induction false} KeptUpTo<T>(norm: Value -> Option<T>, key: T -> string, items: seq<Value>, n: nat)
      returns (at: seq<nat>)
    requires n <= |items|
    ensures KeptAt(norm, key, items, n, RecordArray(norm, key, items[..n]), at)
  {
    hide RecordArray, KeptAt, Kept;
    if n == 0 {
      assert items[..0] == [];
      NothingKeptAt(norm, key, items);
      at := [];
    } else {
      at := KeptUpTo(norm, key, items, n - 1);
      NextKept(norm, key, items, n - 1);
      at := OneMoreKept(norm, key, items, n - 1, RecordArray(norm, key, items[..n - 1]), at);
    }
  }

  /** A normalised array has one record for each kept item, in the order of the items. */
  lemma {:induction false} RecordArrayOrder<T>(norm: Value -> Option<T>, key: T -> string, items: seq<Value>)
      returns (at: seq<nat>)
    ensures Rising(at) && |at| == |RecordArray(norm, key, items)|
    ensures forall i: nat :: i in at <==> Kept(norm, key, items, i)
    ensures forall k :: 0 <= k < |at| ==>
      at[k] < |items| && norm(items[at[k]]) == Some(RecordArray(norm, key, items)[k])
  {
    hide RecordArray;
    assert items[..|items|] == items;
    at := KeptUpTo(norm, key, items, |items|);
  }

  /** The records of a normalised array are those of its kept items. */
  lemma {:induction false} RecordArrayIsKept<T(!new)>(norm: Value -> Option<T>, key: T -> string, items: seq<Value>,
      t: T)
    ensures t in RecordArray(norm, key, items) <==>
      exists i: nat :: Kept(norm, key, items, i) && norm(items[i]) == Some(t)
  {
    hide RecordArray;
    var at := RecordArrayOrder(norm, key, items);
    if t in RecordArray(norm, key, items) {
      var k: nat :| k < |at| && RecordArray(norm, key, items)[k] == t;
      assert at[k] in at;
    }
    if i: nat :| Kept(norm, key, items, i) && norm(items[i]) == Some(t) {
      assert i in at;
    }
  }

  // ----- lists of strings as arrays of records

  function Itself(s: string): string {
    s
  }

  /** First copies of the strings that are not empty: the records of a reader that skips the others. */
  lemma {:induction false} CopiesAreRecords(ss: seq<string>, norm: Value -> Option<string>, items: seq<Value>, n: nat)
    requires n <= |items| == |ss|
    requires forall i :: 0 <= i < |ss| ==> norm(items[i]) == if ss[i] == "" then None else Some(ss[i])
    ensures FirstCopies(Without(ss[..n], {""})) == RecordArray(norm, Itself, items[..n])
  {
    hide RecordArray, FirstCopies, Without;
    if n == 0 {
      assert items[..0] == [] && ss[..0] == [];
      NothingKept(norm, Itself, "");
      NoCopies();
    } else {
      CopiesAreRecords(ss, norm, items, n - 1);
      UniqueSnoc(ss, n - 1);
      RecordArraySnoc(norm, Itself, items, n - 1);
    }
  }

  lemma {:induction false} NoCopies()
    ensures FirstCopies(Without<string>([], {""})) == []
  {
  }

  // ----- objects built by assignment

  const PROTO := "__proto__"

  /** An object literal filled by assignments: assigning an object to `__proto__` replaces the prototype instead of
      adding a property. */
  datatype Table<+V> = Table(plain: bool, own: map<string, V>)

  /** The object after assigning the entries in order, each key once; `objects` says whether the values are objects.
      Assigning anything else to `__proto__` does nothing. */
  function Collect<V>(objects: bool, entries: seq<(string, V)>): Table<V> {
    if entries == [] then Table(true, map[])
    else Assign(objects, Collect(objects, entries[..|entries| - 1]), entries[|entries| - 1].0, entries[|entries| - 1].1)
  }

  function Assign<V>(objects: bool, t: Table<V>, key: string, v: V): Table<V> {
    if key in t.own then t
    else if key == PROTO then if objects then t.(plain := false) else t
    else t.(own := t.own[key := v])
  }

  lemma {:induction false} CollectNothing<V>(objects: bool)
    ensures Collect<V>(objects, []) == Table(true, map[])
  {
  }

  lemma {:induction false} AssignOnce<V>(objects: bool, t: Table<V>, key: string, v: V)
    ensures key in t.own ==> Assign(objects, t, key, v) == t
  {
  }

  lemma {:induction false} CollectSnoc<V>(objects: bool, entries: seq<(string, V)>, key: string, v: V)
    ensures Collect(objects, entries + [(key, v)]) == Assign(objects, Collect(objects, entries), key, v)
  {
    assert (entries + [(key, v)])[..|entries + [(key, v)]| - 1] == entries;
  }

  /** What a built object holds: never `__proto__`, only values assigned to their key, and the prototype is replaced
      exactly when some entry assigned an object to `__proto__`. */
  lemma {:induction false} CollectHolds<V>(objects: bool, entries: seq<(string, V)>)
    ensures PROTO !in Collect(objects, entries).own
    ensures Collect(objects, entries).plain <==> !objects || forall i :: 0 <= i < |entries| ==> entries[i].0 != PROTO
    decreases |entries|
  {
    if entries != [] {
      var n := |entries| - 1;
      CollectHolds(objects, entries[..n]);
      assert entries == entries[..n] + [entries[n]];
    }
  }

  lemma {:induction false} CollectFrom<V>(objects: bool, entries: seq<(string, V)>, key: string) returns (i: nat)
    requires key in Collect(objects, entries).own
    ensures i < |entries| && entries[i] == (key, Collect(objects, entries).own[key])
    decreases |entries|
  {
    var n := |entries| - 1;
    var before := Collect(objects, entries[..n]);
    if key in before.own {
      i := CollectFrom(objects, entries[..n], key);
    } else {
      i := n;
    }
  }

  lemma {:induction false} CollectKeys<V>(objects: bool, entries: seq<(string, V)>, i: nat)
    requires i < |entries| && entries[i].0 != PROTO
    ensures entries[i].0 in Collect(objects, entries).own
    decreases |entries|
  {
    var n := |entries| - 1;
    if i < n {
      CollectKeys(objects, entries[..n], i);
    }
  }

  /** The keys enumerate the object. */
  ghost predicate Enumerates<V>(keys: seq<string>, own: map<string, V>) {
    Distinct(keys) && forall k :: k in keys <==> k in own
  }

  function Pairs<V>(keys: seq<string>, own: map<string, V>): (r: seq<(string, V)>)
    requires forall k :: k in keys ==> k in own
    ensures |r| == |keys| && forall i :: 0 <= i < |keys| ==> r[i] == (keys[i], own[keys[i]])
  {
    if keys == [] then [] else [(keys[0], own[keys[0]])] + Pairs(keys[1..], own)
  }

  /** Assigning an object's own entries to a fresh object, in whatever order they are enumerated, copies it. */
  lemma {:induction false} CollectAgain<V(!new)>(objects: bool, keys: seq<string>, own: map<string, V>)
    requires Enumerates(keys, own) && PROTO !in own
    ensures Collect(objects, Pairs(keys, own)) == Table(true, own)
  {
    hide Collect;
    var entries := Pairs(keys, own);
    var copy := Collect(objects, entries);
    CollectHolds(objects, entries);
    forall k ensures k in copy.own <==> k in own {
      if k in own {
        var i :| 0 <= i < |keys| && keys[i] == k;
        CollectKeys(objects, entries, i);
      }
      if k in copy.own {
        var i := CollectFrom(objects, entries, k);
      }
    }
    forall k | k in own ensures copy.own[k] == own[k] {
      var i := CollectFrom(objects, entries, k);
    }
    assert copy.own.Keys == own.Keys;
  }
}
