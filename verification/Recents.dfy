/** Bounded most-recently-used lists: the quick switcher's, which lives as JSON text in local storage, and the emoji
    picker's, which has the same shape with another cap. */
module Recents {
  import opened CodeUnits
  import opened JsonText
  import opened Sequences

  // ----- the unbounded list

  function Mru<T(==, !new)>(list: seq<T>, x: T): seq<T> {
    [x] + Without(list, {x})
  }

  function Take<T>(cap: nat, s: seq<T>): (r: seq<T>)
    ensures |r| <= cap && |r| <= |s| && r <= s
  {
    if |s| <= cap then s else s[..cap]
  }

  /** Everything ever selected, most recent first. */
  function Full<T(==, !new)>(start: seq<T>, picks: seq<T>): seq<T> {
    if picks == [] then start else Mru(Full(start, picks[..|picks| - 1]), picks[|picks| - 1])
  }

  /** The same with a cap applied after every selection. */
  function Capped<T(==, !new)>(cap: nat, start: seq<T>, picks: seq<T>): seq<T> {
    if picks == [] then Take(cap, start)
      else Take(cap, Mru(Capped(cap, start, picks[..|picks| - 1]), picks[|picks| - 1]))
  }

  function Reversed<T>(s: seq<T>): seq<T> {
    if s == [] then [] else [s[|s| - 1]] + Reversed(s[..|s| - 1])
  }

  /** Most recently used order is the history read backwards, each element once. */
  lemma {:induction false} FullIsHistory<T(!new)>(start: seq<T>, picks: seq<T>)
    requires Distinct(start)
    ensures Full(start, picks) == FirstCopies(Reversed(picks) + start)
    decreases |picks|
  {
    hide FirstCopies, Without, Distinct;
    if picks == [] {
      assert Reversed(picks) + start == start;
      FirstCopiesDistinct(start);
    } else {
      var init, last := picks[..|picks| - 1], picks[|picks| - 1];
      FullIsHistory(start, init);
      FirstCopiesCons(last, Reversed(init) + start);
      assert Reversed(picks) + start == [last] + (Reversed(init) + start);
    }
  }

  lemma {:induction false} FirstCopiesCons<T(!new)>(x: T, s: seq<T>)
    ensures FirstCopies([x] + s) == Mru(FirstCopies(s), x)
  {
    assert ([x] + s)[1..] == s;
  }

  lemma {:induction false} MruDistinct<T(!new)>(list: seq<T>, x: T)
    requires Distinct(list)
    ensures Distinct(Mru(list, x))
  {
    WithoutDistinct(list, {x});
    DistinctCons(x, Without(list, {x}));
  }

  lemma {:induction false} TakeDistinct<T(!new)>(cap: nat, s: seq<T>)
    requires Distinct(s)
    ensures Distinct(Take(cap, s))
  {
  }

  lemma {:induction false} FullDistinct<T(!new)>(start: seq<T>, picks: seq<T>)
    requires Distinct(start)
    ensures Distinct(Full(start, picks))
    decreases |picks|
  {
    if picks != [] {
      FullDistinct(start, picks[..|picks| - 1]);
      MruDistinct(Full(start, picks[..|picks| - 1]), picks[|picks| - 1]);
    }
  }

  /** Dropping one element from a duplicate-free list shortens it by at most one, so its front is not affected by what
      lies beyond the cap. */
  lemma {:induction false} WithoutFront<T(!new)>(n: nat, list: seq<T>, x: T)
    requires Distinct(list) && n + 1 <= |list|
    ensures n <= |Without(list[..n + 1], {x})|
    ensures n <= |Without(list, {x})|
    ensures Without(list[..n + 1], {x})[..n] == Without(list, {x})[..n]
  {
    assert list == list[..n + 1] + list[n + 1..];
    WithoutConcat(list[..n + 1], list[n + 1..], {x});
    TakeDistinct(n + 1, list);
    LosesAtMostOne(list[..n + 1], x);
  }

  lemma {:induction false} LosesAtMostOne<T(!new)>(list: seq<T>, x: T)
    requires Distinct(list)
    ensures |list| <= |Without(list, {x})| + 1
  {
    if list != [] {
      DistinctTail(list);
      if list[0] == x {
        WithoutNone(list[1..], {x});
      } else {
        LosesAtMostOne(list[1..], x);
      }
    }
  }

  /** Capping before a selection makes no difference to the capped list after it. */
  lemma {:induction false} CapCommutes<T(!new)>(cap: nat, list: seq<T>, x: T)
    requires Distinct(list)
    ensures Take(cap, Mru(Take(cap, list), x)) == Take(cap, Mru(list, x))
  {
    if 0 < cap < |list| {
      WithoutFront(cap - 1, list, x);
      var short, long := Without(list[..cap], {x}), Without(list, {x});
      TakeCons(cap, x, short);
      TakeCons(cap, x, long);
    }
  }

  lemma {:induction false} TakeCons<T(!new)>(cap: nat, x: T, s: seq<T>)
    requires cap > 0
    ensures |s| >= cap - 1 ==> Take(cap, [x] + s) == [x] + s[..cap - 1]
  {
  }

  /** After any run of selections from a duplicate-free start, the capped list is the front of the full one. */
  lemma {:induction false} CappedIsFront<T(!new)>(cap: nat, start: seq<T>, picks: seq<T>)
    requires Distinct(start)
    ensures Capped(cap, start, picks) == Take(cap, Full(start, picks))
    ensures Distinct(Capped(cap, start, picks))
    decreases |picks|
  {
    FullDistinct(start, picks);
    TakeDistinct(cap, Full(start, picks));
    if picks != [] {
      var init, last := picks[..|picks| - 1], picks[|picks| - 1];
      CappedIsFront(cap, start, init);
      FullDistinct(start, init);
      CapCommutes(cap, Full(start, init), last);
    }
  }

  // ----- the stored text

  const MAX_RECENT := 12
  const MAX_ID := 256
  const MAX_TEXT := 8192

  datatype Item = Text(s: JsString) | NotText

  datatype Parsed = Array(items: seq<Item>) | NotArray | Malformed

  function AsItems(xs: seq<JsString>): seq<Item> {
    if xs == [] then [] else [Text(xs[0])] + AsItems(xs[1..])
  }

  /** The only law of the JSON library that is used: it reads every text of the grammar of arrays of strings. */
  ghost predicate ReadsJson(parse: JsString -> Parsed) {
    forall text, xs :: ArrayText(text, xs) ==> parse(text) == Array(AsItems(xs))
  }

  /** There is such a reader, since no text stands for two lists. */
  lemma {:induction false} SomeReaderReads() returns (parse: JsString -> Parsed)
    ensures ReadsJson(parse)
  {
    hide ArrayText;
    parse := (text: JsString) =>
      if IsArrayText(text) then (var xs :| ArrayText(text, xs); Array(AsItems(xs))) else Malformed;
    forall text, xs | ArrayText(text, xs) ensures parse(text) == Array(AsItems(xs)) {
      var ys :| ArrayText(text, ys) && parse(text) == Array(AsItems(ys));
      ArrayTextUnique(text, xs, ys);
    }
  }

  /** The strings that are short enough. */
  function Usable(items: seq<Item>): seq<JsString> {
    if items == [] then []
    else (if items[0].Text? && |items[0].s| <= MAX_ID then [items[0].s] else []) + Usable(items[1..])
  }

  /** The storage entry: unreachable, or its text ("" when it is missing). */
  datatype Cell = Blocked | Holds(raw: JsString)

  function ReadRecents(parse: JsString -> Parsed, cell: Cell): (r: seq<JsString>)
    ensures |r| <= MAX_RECENT
  {
    if cell.Blocked? then []
    else
      var text: JsString := if cell.raw == [] then [91, 93] else cell.raw;
      if |text| > MAX_TEXT then []
      else
        var parsed := parse(text);
        if parsed.Array? then Take(MAX_RECENT, Usable(parsed.items)) else []
  }

  /** The entry after a selection; `accepted` says whether storage takes the new text. */
  function SaveRecent(parse: JsString -> Parsed, cell: Cell, id: JsString, accepted: bool): Cell {
    if cell.Blocked? || !accepted then cell
    else Holds(Stringify(Take(MAX_RECENT, Mru(ReadRecents(parse, cell), id))))
  }

  class LocalStorage {
    var cell: Cell

    method SaveRecentSwitch(parse: JsString -> Parsed, id: JsString, accepted: bool)
      modifies this
      ensures cell == SaveRecent(parse, old(cell), id, accepted)
      ensures old(cell).Blocked? || !accepted ==> cell == old(cell)
    {
      var recent := ReadRecents(parse, cell);
      var next := Take(MAX_RECENT, [id] + Without(recent, {id}));
      if cell.Holds? && accepted {
        cell := Holds(Stringify(next));
      }
    }
  }

  // ----- one selection

  function Short(xs: seq<JsString>): seq<JsString> {
    if xs == [] then [] else (if |xs[0]| <= MAX_ID then [xs[0]] else []) + Short(xs[1..])
  }

  predicate AllShort(xs: seq<JsString>) {
    forall x :: x in xs ==> |x| <= MAX_ID
  }

  lemma {:induction false} UsableAsItems(xs: seq<JsString>)
    ensures Usable(AsItems(xs)) == Short(xs)
  {
    if xs != [] {
      UsableAsItems(xs[1..]);
      assert AsItems(xs)[1..] == AsItems(xs[1..]);
    }
  }

  lemma {:induction false} ShortIff(xs: seq<JsString>)
    ensures Short(xs) == xs <==> AllShort(xs)
    ensures |Short(xs)| <= |xs|
  {
    if xs != [] {
      ShortIff(xs[1..]);
      if |xs[0]| <= MAX_ID {
        assert Short(xs)[1..] == Short(xs[1..]);
        assert AllShort(xs[1..]) ==> AllShort(xs);
      } else {
        assert |Short(xs)| < |xs|;
      }
    }
  }

  lemma {:induction false} UsableShort(items: seq<Item>)
    ensures AllShort(Usable(items))
  {
    if items != [] {
      UsableShort(items[1..]);
    }
  }

  lemma {:induction false} ReadIsShort(parse: JsString -> Parsed, cell: Cell)
    ensures AllShort(ReadRecents(parse, cell))
  {
    if cell.Holds? {
      var text: JsString := if cell.raw == [] then [91, 93] else cell.raw;
      if parse(text).Array? {
        UsableShort(parse(text).items);
      }
    }
  }

  lemma {:induction false} ReadBack(parse: JsString -> Parsed, xs: seq<JsString>)
    requires ReadsJson(parse)
    ensures ReadRecents(parse, Holds(Stringify(xs))) == if |Stringify(xs)| > MAX_TEXT then []
      else Take(MAX_RECENT, Short(xs))
  {
    hide ArrayText, Joined;
    StringifyIsText(xs);
    UsableAsItems(xs);
  }

  /** These are the positions of the strings with at most 256 units. */
  ghost predicate UsableAt(items: seq<Item>, at: seq<nat>) {
    Rising(at) && forall i: nat :: i in at <==> i < |items| && items[i].Text? && |items[i].s| <= 256
  }

  ghost predicate UsableFrom(items: seq<Item>, n: nat, us: seq<JsString>, at: seq<nat>) {
    && Rising(at) && |at| == |us|
    && (forall i: nat :: i in at <==> n <= i < |items| && items[i].Text? && |items[i].s| <= 256)
    && forall k :: 0 <= k < |at| ==> at[k] < |items| && items[at[k]] == Text(us[k])
  }

  lemma {:induction false} NoUsable(items: seq<Item>)
    ensures UsableFrom(items, |items|, Usable(items[|items|..]), [])
  {
  }

  lemma {:induction false} UsableLess(items: seq<Item>, n: nat, us: seq<JsString>, at: seq<nat>)
    requires n < |items| && UsableFrom(items, n + 1, us, at) && !(items[n].Text? && |items[n].s| <= 256)
    ensures UsableFrom(items, n, us, at)
  {
    hide Rising;
  }

  lemma {:induction false} UsableMore(items: seq<Item>, n: nat, us: seq<JsString>, at: seq<nat>)
    requires n < |items| && UsableFrom(items, n + 1, us, at) && items[n].Text? && |items[n].s| <= 256
    ensures UsableFrom(items, n, [items[n].s] + us, [n] + at)
  {
    hide Rising;
    RisingCons(n, at);
    assert forall k :: 0 < k < |[n] + at| ==> ([n] + at)[k] == at[k - 1];
  }

  lemma {:induction false} UsableStep(items: seq<Item>, n: nat)
    requires n < |items|
    ensures Usable(items[n..]) == if items[n].Text? && |items[n].s| <= 256 then [items[n].s] + Usable(items[n + 1..])
      else Usable(items[n + 1..])
  {
    assert items[n..][1..] == items[n + 1..];
    assert [] + Usable(items[n + 1..]) == Usable(items[n + 1..]);
  }

  lemma {:induction false} UsablePositions(items: seq<Item>, n: nat) returns (at: seq<nat>)
    requires n <= |items|
    ensures UsableFrom(items, n, Usable(items[n..]), at)
    decreases |items| - n
  {
    hide Usable, UsableFrom;
    if n == |items| {
      at := [];
      NoUsable(items);
    } else {
      at := UsablePositions(items, n + 1);
      UsableStep(items, n);
      if items[n].Text? && |items[n].s| <= 256 {
        UsableMore(items, n, Usable(items[n + 1..]), at);
        at := [n] + at;
      } else {
        UsableLess(items, n, Usable(items[n + 1..]), at);
      }
    }
  }

  /** Whatever is stored, what is read are the first twelve strings with at most 256 units, in their order; nothing is
      read when the text is longer than 8192 units or no array. A missing text counts as the empty array. */
  lemma {:induction false} ReadSays(parse: JsString -> Parsed, raw: JsString) returns (at: seq<nat>)
    ensures var text: JsString := if raw == [] then [91, 93] else raw;
      var items := if |text| <= 8192 && parse(text).Array? then parse(text).items else [];
      && UsableAt(items, at)
      && |ReadRecents(parse, Holds(raw))| == (if |at| <= 12 then |at| else 12)
      && forall k :: 0 <= k < |at| && k < 12 ==>
           at[k] < |items| && items[at[k]].Text? && ReadRecents(parse, Holds(raw))[k] == items[at[k]].s
  {
    hide Usable;
    var text: JsString := if raw == [] then [91, 93] else raw;
    var items := if |text| <= 8192 && parse(text).Array? then parse(text).items else [];
    at := UsablePositions(items, 0);
    assert items[0..] == items;
    if at != [] {
      assert at[0] in at;
    }
  }

  /** A save writes a text of the grammar for the selected id in front of the others that were read, at most twelve in
      all; blocked or refusing storage keeps what it holds. */
  lemma {:induction false} SaveSays(parse: JsString -> Parsed, cell: Cell, id: JsString, accepted: bool)
    ensures cell.Blocked? || !accepted ==> SaveRecent(parse, cell, id, accepted) == cell
    ensures cell.Holds? && accepted ==>
      && SaveRecent(parse, cell, id, accepted).Holds?
      && ArrayText(SaveRecent(parse, cell, id, accepted).raw, Take(12, [id] + Without(ReadRecents(parse, cell), {id})))
  {
    hide ArrayText, Stringify, ReadRecents;
    StringifyIsText(Take(12, [id] + Without(ReadRecents(parse, cell), {id})));
  }

  /** What a selection needs to be read back as intended. */
  predicate Fits(id: JsString, next: seq<JsString>) {
    |id| <= MAX_ID && |Stringify(next)| <= MAX_TEXT
  }

  /** A selection is read back as the capped most-recently-used list exactly when the id has at most 256 units and the
      JSON text at most 8192. */
  lemma {:induction false} SelectionIff(parse: JsString -> Parsed, raw: JsString, id: JsString)
    requires ReadsJson(parse)
    ensures var before := ReadRecents(parse, Holds(raw));
      var next := Take(MAX_RECENT, Mru(before, id));
      ReadRecents(parse, SaveRecent(parse, Holds(raw), id, true)) == next <==> Fits(id, next)
  {
    hide ReadRecents, Stringify;
    var before := ReadRecents(parse, Holds(raw));
    var next := Take(MAX_RECENT, Mru(before, id));
    ReadIsShort(parse, Holds(raw));
    ReadBack(parse, next);
    ShortIff(next);
    assert id == next[0];
    assert AllShort(next) <==> |id| <= MAX_ID by {
      assert forall x :: x in next ==> x == id || x in before;
    }
  }

  // ----- runs of selections

  function Saves(parse: JsString -> Parsed, cell: Cell, picks: seq<JsString>): Cell {
    if picks == [] then cell else SaveRecent(parse, Saves(parse, cell, picks[..|picks| - 1]), picks[|picks| - 1], true)
  }

  lemma {:induction false} SavesHolds(parse: JsString -> Parsed, raw: JsString, picks: seq<JsString>)
    ensures Saves(parse, Holds(raw), picks).Holds?
    decreases |picks|
  {
    if picks != [] {
      SavesHolds(parse, raw, picks[..|picks| - 1]);
    }
  }

  /** The list read after each selection, against the front of the full list. */
  ghost predicate Follows(parse: JsString -> Parsed, raw: JsString, picks: seq<JsString>) {
    ReadRecents(parse, Saves(parse, Holds(raw), picks)) == Take(MAX_RECENT, Full(ReadRecents(parse, Holds(raw)), picks))
  }

  /** Whether the last of the selections fits, told from the full list alone. */
  predicate LastFits(start: seq<JsString>, picks: seq<JsString>)
    requires picks != []
  {
    Fits(picks[|picks| - 1], Take(MAX_RECENT, Full(start, picks)))
  }

  lemma {:induction false} FollowsStep(parse: JsString -> Parsed, raw: JsString, picks: seq<JsString>)
    requires ReadsJson(parse) && Distinct(ReadRecents(parse, Holds(raw))) && picks != []
    requires Follows(parse, raw, picks[..|picks| - 1])
    ensures Follows(parse, raw, picks) <==> LastFits(ReadRecents(parse, Holds(raw)), picks)
  {
    hide ReadRecents, Fits, SaveRecent;
    var start := ReadRecents(parse, Holds(raw));
    var init, last := picks[..|picks| - 1], picks[|picks| - 1];
    var cell := Saves(parse, Holds(raw), init);
    SavesHolds(parse, raw, init);
    SelectionIff(parse, cell.raw, last);
    FullDistinct(start, init);
    CapCommutes(MAX_RECENT, Full(start, init), last);
  }

  /** Over a run of selections from a duplicate-free start, the stored list is the front of the full most-recently-used
      list after every selection exactly when every selection fits. */
  lemma {:induction false} RunIff(parse: JsString -> Parsed, raw: JsString, picks: seq<JsString>)
    requires ReadsJson(parse) && Distinct(ReadRecents(parse, Holds(raw)))
    ensures (forall k :: 0 <= k <= |picks| ==> Follows(parse, raw, picks[..k]))
      <==> (forall k :: 0 < k <= |picks| ==> LastFits(ReadRecents(parse, Holds(raw)), picks[..k]))
    decreases |picks|
  {
    hide ReadRecents, Follows, LastFits;
    var start := ReadRecents(parse, Holds(raw));
    assert picks[..|picks|] == picks;
    if picks == [] {
      assert Follows(parse, raw, []) by {
        FollowsAtStart(parse, raw);
      }
    } else {
      var init := picks[..|picks| - 1];
      RunIff(parse, raw, init);
      assert forall k :: 0 <= k <= |init| ==> init[..k] == picks[..k];
      if forall k :: 0 <= k <= |init| ==> Follows(parse, raw, init[..k]) {
        assert init[..|init|] == init;
        FollowsStep(parse, raw, picks);
      }
      Ends(parse, raw, picks, init);
    }
  }

  lemma {:induction false} FollowsAtStart(parse: JsString -> Parsed, raw: JsString)
    ensures Follows(parse, raw, [])
  {
  }

  lemma {:induction false} Ends(parse: JsString -> Parsed, raw: JsString, picks: seq<JsString>, init: seq<JsString>)
    requires picks != [] && init == picks[..|picks| - 1]
    ensures (forall k :: 0 <= k <= |picks| ==> Follows(parse, raw, picks[..k]))
      <==> (forall k :: 0 <= k <= |init| ==> Follows(parse, raw, init[..k])) && Follows(parse, raw, picks)
    ensures var start := ReadRecents(parse, Holds(raw));
      (forall k :: 0 < k <= |picks| ==> LastFits(start, picks[..k]))
      <==> (forall k :: 0 < k <= |init| ==> LastFits(start, init[..k])) && LastFits(start, picks)
  {
    hide ReadRecents, Follows, LastFits;
    assert picks[..|picks|] == picks;
    assert forall k :: 0 <= k <= |init| ==> init[..k] == picks[..k];
  }

  // ----- ids that always fit

  /** At most 256 units, and at most 681 once quoted: any id without control characters and lone surrogates does. */
  predicate Modest(id: JsString) {
    |id| <= MAX_ID && |Quote(id)| <= 681
  }

  predicate AllModest(xs: seq<JsString>) {
    forall x :: x in xs ==> Modest(x)
  }

  lemma {:induction false} JoinedLength(xs: seq<JsString>)
    requires AllModest(xs)
    ensures |Joined(xs)| <= 682 * |xs|
  {
    hide Quote;
    if xs != [] {
      assert xs[0] in xs;
      assert AllModest(xs[1..]) by {
        assert forall x :: x in xs[1..] ==> x in xs;
      }
      JoinedLength(xs[1..]);
    }
  }

  lemma {:induction false} FullMembers(start: seq<JsString>, picks: seq<JsString>)
    requires AllModest(start) && AllModest(picks)
    ensures AllModest(Full(start, picks))
    decreases |picks|
  {
    hide Modest;
    if picks != [] {
      var init := picks[..|picks| - 1];
      assert AllModest(init) by {
        assert forall x :: x in init ==> x in picks;
      }
      FullMembers(start, init);
      assert picks[|picks| - 1] in picks;
    }
  }

  /** With modest ids the stored list is the front of the full list after any run whatever. */
  lemma {:induction false} ModestRun(parse: JsString -> Parsed, raw: JsString, picks: seq<JsString>)
    requires ReadsJson(parse) && Distinct(ReadRecents(parse, Holds(raw)))
    requires AllModest(ReadRecents(parse, Holds(raw))) && AllModest(picks)
    ensures Follows(parse, raw, picks)
  {
    hide ReadRecents, Follows, Quote, Modest, Full;
    var start := ReadRecents(parse, Holds(raw));
    forall k | 0 < k <= |picks| ensures LastFits(start, picks[..k]) {
      ModestFits(start, picks[..k], picks);
    }
    RunIff(parse, raw, picks);
    assert picks[..|picks|] == picks;
  }

  lemma {:induction false} ModestFits(start: seq<JsString>, some: seq<JsString>, picks: seq<JsString>)
    requires AllModest(start) && AllModest(picks) && some <= picks && some != []
    ensures LastFits(start, some)
  {
    hide Quote, Full;
    assert AllModest(some) by {
      assert forall x :: x in some ==> x in picks;
    }
    FullMembers(start, some);
    var next := Take(MAX_RECENT, Full(start, some));
    assert AllModest(next) by {
      assert forall x :: x in next ==> x in Full(start, some);
    }
    JoinedLength(next);
    assert some[|some| - 1] in some;
  }

  lemma {:induction false} QuoteBodyLength(s: JsString)
    requires forall i :: 0 <= i < |s| ==> s[i] >= 32 && !High(s[i]) && !Low(s[i])
    ensures |QuoteBody(s)| <= 2 * |s|
  {
    if s != [] {
      QuoteBodyLength(s[1..]);
    }
  }

  /** Ordinary ids are modest. */
  lemma {:induction false} OrdinaryIsModest(id: JsString)
    requires |id| <= MAX_ID
    requires forall i :: 0 <= i < |id| ==> id[i] >= 32 && !High(id[i]) && !Low(id[i])
    ensures Modest(id)
  {
    QuoteBodyLength(id);
  }

  function Control(n: nat): JsString {
    seq(n, _ => 1 as CodeUnit)
  }

  lemma {:induction false} ControlLength(n: nat)
    ensures |QuoteBody(Control(n))| == 6 * n
  {
    if n > 0 {
      assert Control(n)[1..] == Control(n - 1);
      ControlLength(n - 1);
    }
  }

  /** Ids of control characters, one for each length. */
  function Controls(lengths: seq<nat>): (r: seq<JsString>)
    ensures |r| == |lengths| && forall i :: 0 <= i < |lengths| ==> r[i] == Control(lengths[i])
  {
    if lengths == [] then [] else [Control(lengths[0])] + Controls(lengths[1..])
  }

  predicate Between(lengths: seq<nat>, low: nat, high: nat) {
    forall i :: 0 <= i < |lengths| ==> low <= lengths[i] <= high
  }

  lemma {:induction false} ControlsDistinct(lengths: seq<nat>)
    requires Distinct(lengths)
    ensures Distinct(Controls(lengths))
  {
    forall i, j | 0 <= i < j < |lengths| ensures Controls(lengths)[i] != Controls(lengths)[j] {
      assert |Control(lengths[i])| == lengths[i] && |Control(lengths[j])| == lengths[j];
    }
  }

  /** The quoted ids with their commas: six units for each character, two quotes and a comma for each id but one. */
  lemma {:induction false} ControlsLength(lengths: seq<nat>, low: nat, high: nat)
    requires lengths != [] && Between(lengths, low, high)
    ensures |lengths| * (6 * low + 3) + 1 <= |Stringify(Controls(lengths))| <= |lengths| * (6 * high + 3) + 1
  {
    JoinedControls(lengths, low, high);
  }

  lemma {:induction false} JoinedControls(lengths: seq<nat>, low: nat, high: nat)
    requires lengths != [] && Between(lengths, low, high)
    ensures |lengths| * (6 * low + 3) - 1 <= |Joined(Controls(lengths))| <= |lengths| * (6 * high + 3) - 1
  {
    var xs := Controls(lengths);
    ControlLength(lengths[0]);
    assert |Quote(xs[0])| == 6 * lengths[0] + 2;
    if |lengths| > 1 {
      JoinedControls(lengths[1..], low, high);
      assert xs[1..] == Controls(lengths[1..]);
      Factor(|lengths|, 6 * low + 3);
      Factor(|lengths|, 6 * high + 3);
    }
  }

  lemma {:induction false} Factor(n: nat, k: nat)
    requires n > 0
    ensures n * k == (n - 1) * k + k
  {
  }

  /** From nothing, distinct selections stand in reverse order. */
  lemma {:induction false} FullOfDistinct<T(!new)>(picks: seq<T>)
    requires Distinct(picks)
    ensures Full([], picks) == Reversed(picks)
    decreases |picks|
  {
    if picks != [] {
      var init, last := picks[..|picks| - 1], picks[|picks| - 1];
      FullOfDistinct(init);
      ReversedMembers(init);
      DistinctAt(picks, |picks| - 1);
      WithoutNone(Reversed(init), {last});
    }
  }

  lemma {:induction false} ReversedMembers<T(!new)>(s: seq<T>)
    ensures |Reversed(s)| == |s| && forall x :: x in Reversed(s) <==> x in s
    decreases |s|
  {
    if s != [] {
      var init := s[..|s| - 1];
      ReversedMembers(init);
      assert s == init + [s[|s| - 1]];
    }
  }

  lemma {:induction false} ReversedControls(lengths: seq<nat>)
    ensures Reversed(Controls(lengths)) == Controls(Reversed(lengths))
    decreases |lengths|
  {
    if lengths != [] {
      var n := |lengths| - 1;
      ReversedControls(lengths[..n]);
      assert Controls(lengths)[..n] == Controls(lengths[..n]);
      assert Controls(Reversed(lengths))[1..] == Controls(Reversed(lengths)[1..]);
      assert Reversed(lengths)[1..] == Reversed(lengths[..n]);
    }
  }

  lemma {:induction false} ReversedBetween(lengths: seq<nat>, low: nat, high: nat)
    requires Between(lengths, low, high)
    ensures |Reversed(lengths)| == |lengths| && Between(Reversed(lengths), low, high)
  {
    ReversedMembers(lengths);
    forall i | 0 <= i < |Reversed(lengths)| ensures low <= Reversed(lengths)[i] <= high {
      assert Reversed(lengths)[i] in lengths;
    }
  }

  lemma {:induction false} EmptyStorage(parse: JsString -> Parsed)
    requires ReadsJson(parse)
    ensures ReadRecents(parse, Holds([])) == []
  {
    hide ArrayText;
    StringifyIsText([]);
    assert Stringify([]) == [91, 93];
  }

  /** The list after the first selections of control-character ids, and the length of its text. */
  lemma {:induction false} ListedControls(lengths: seq<nat>, low: nat, high: nat)
    requires 0 < |lengths| <= MAX_RECENT && Distinct(lengths) && Between(lengths, low, high)
    ensures var next := Take(MAX_RECENT, Full([], Controls(lengths)));
      |lengths| * (6 * low + 3) + 1 <= |Stringify(next)| <= |lengths| * (6 * high + 3) + 1
  {
    hide Stringify, Full;
    ControlsDistinct(lengths);
    FullOfDistinct(Controls(lengths));
    ReversedControls(lengths);
    ReversedBetween(lengths, low, high);
    ControlsLength(Reversed(lengths), low, high);
  }

  lemma {:induction false} SixFit(parse: JsString -> Parsed, lengths: seq<nat>, k: nat)
    requires |lengths| == 7 && Distinct(lengths) && Between(lengths, 200, 226) && 0 < k <= 6
    ensures LastFits([], Controls(lengths)[..k])
  {
    hide Stringify, Full;
    assert Controls(lengths)[..k] == Controls(lengths[..k]);
    ListedControls(lengths[..k], 200, 226);
    assert Controls(lengths)[..k][k - 1] == Control(lengths[k - 1]);
  }

  /** A run of selections can lose the whole list: from empty storage, after seven distinct ids of 200 to 226 control
      characters the text is too long to be read and nothing is left, though six were still remembered. */
  lemma {:induction false} SevenSelectionsLoseEverything(parse: JsString -> Parsed, lengths: seq<nat>)
    requires ReadsJson(parse)
    requires |lengths| == 7 && Distinct(lengths) && Between(lengths, 200, 226)
    ensures |ReadRecents(parse, Saves(parse, Holds([]), Controls(lengths)[..6]))| == 6
    ensures ReadRecents(parse, Saves(parse, Holds([]), Controls(lengths))) == []
    ensures !Follows(parse, [], Controls(lengths))
  {
    hide ReadRecents, Stringify, Full, LastFits, Saves;
    var picks := Controls(lengths);
    EmptyStorage(parse);
    SixFollow(parse, lengths);
    SixListed(parse, lengths);
    SeventhLost(parse, lengths);
  }

  lemma {:induction false} SixFollow(parse: JsString -> Parsed, lengths: seq<nat>)
    requires ReadsJson(parse)
    requires |lengths| == 7 && Distinct(lengths) && Between(lengths, 200, 226)
    ensures Follows(parse, [], Controls(lengths)[..6])
  {
    hide ReadRecents, Follows, LastFits;
    var six := Controls(lengths)[..6];
    EmptyStorage(parse);
    forall k | 0 < k <= |six| ensures LastFits([], six[..k]) {
      SixFit(parse, lengths, k);
      assert six[..k] == Controls(lengths)[..k];
    }
    RunIff(parse, [], six);
    assert six[..|six|] == six;
  }

  lemma {:induction false} SixListed(parse: JsString -> Parsed, lengths: seq<nat>)
    requires ReadsJson(parse)
    requires |lengths| == 7 && Distinct(lengths) && Follows(parse, [], Controls(lengths)[..6])
    ensures |ReadRecents(parse, Saves(parse, Holds([]), Controls(lengths)[..6]))| == 6
  {
    hide ReadRecents, Saves, Full;
    EmptyStorage(parse);
    ControlsDistinct(lengths[..6]);
    assert Controls(lengths)[..6] == Controls(lengths[..6]);
    FullOfDistinct(Controls(lengths[..6]));
    ReversedMembers(Controls(lengths[..6]));
  }

  lemma {:induction false} SeventhLost(parse: JsString -> Parsed, lengths: seq<nat>)
    requires ReadsJson(parse) && ReadRecents(parse, Holds([])) == []
    requires |lengths| == 7 && Distinct(lengths) && Between(lengths, 200, 226)
    requires Follows(parse, [], Controls(lengths)[..6])
    ensures ReadRecents(parse, Saves(parse, Holds([]), Controls(lengths))) == []
    ensures !Follows(parse, [], Controls(lengths))
  {
    hide ReadRecents, Stringify, Full;
    var picks := Controls(lengths);
    var next := Take(MAX_RECENT, Full([], picks));
    ListedControls(lengths, 200, 226);
    SavesHolds(parse, [], picks[..6]);
    SavedText(parse, picks);
    ReadBack(parse, next);
    FullNotEmpty(picks);
  }

  /** What is written is the front of the full list, as long as the list before was. */
  lemma {:induction false} SavedText(parse: JsString -> Parsed, picks: seq<JsString>)
    requires picks != [] && Distinct(picks) && ReadRecents(parse, Holds([])) == []
    requires Follows(parse, [], picks[..|picks| - 1])
    ensures Saves(parse, Holds([]), picks) == Holds(Stringify(Take(MAX_RECENT, Full([], picks))))
  {
    hide ReadRecents, Stringify;
    var init, last := picks[..|picks| - 1], picks[|picks| - 1];
    SavesHolds(parse, [], init);
    FullDistinct([], init);
    CapCommutes(MAX_RECENT, Full([], init), last);
  }

  lemma {:induction false} FullNotEmpty(picks: seq<JsString>)
    ensures picks != [] ==> Full([], picks) != []
  {
  }
}
