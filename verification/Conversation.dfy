/** The refresh effect of a conversation: normalising the incoming list, forgetting the refs of another channel,
    building the live view and merging it with the local copy. */
module Conversation {
  import opened Sequences
  import opened JsText
  import opened Anchoring
  import opened Outcomes
  import opened LiveView
  import opened LiveHistory
  import opened Merge
  import opened MergeLaws

  // ----- normalising the incoming list

  /** An incoming value: not a plain object, or one with these fields where they are strings. */
  datatype Raw = Junk | Record(id: Option<string>, content: Option<string>, stored: string, extra: string,
                               deletedAt: Option<string>, deletedBy: Option<string>)

  function Trimmed(s: Option<string>): Option<string> {
    if s.Some? && Trim(s.value) != "" then Some(Trim(s.value)) else None
  }

  /** A record without a usable id is named after its position. */
  function NormalId(raw: Raw, index: nat): string
    requires raw.Record?
  {
    if Trimmed(raw.id).Some? then Trim(raw.id.value) else "message-" + Decimal(index)
  }

  function NormalMessage(raw: Raw, index: nat): Message
    requires raw.Record?
  {
    Message(NormalId(raw, index), if raw.content.Some? then raw.content.value else "", raw.stored, raw.extra,
            Trimmed(raw.deletedAt), Trimmed(raw.deletedBy))
  }

  function NormalFrom(value: seq<Raw>, index: nat, seen: set<string>): seq<Message>
    requires index <= |value|
    decreases |value| - index
  {
    if index == |value| then []
    else if value[index].Junk? || NormalId(value[index], index) in seen then NormalFrom(value, index + 1, seen)
    else [NormalMessage(value[index], index)] + NormalFrom(value, index + 1, seen + {NormalId(value[index], index)})
  }

  method NormalizeChatMessages(value: seq<Raw>) returns (normalized: seq<Message>)
    ensures normalized == NormalFrom(value, 0, {})
  {
    normalized := [];
    var seen: set<string> := {};
    var index := 0;
    while index < |value|
      invariant 0 <= index <= |value|
      invariant NormalFrom(value, 0, {}) == normalized + NormalFrom(value, index, seen)
    {
      if value[index].Record? && NormalId(value[index], index) !in seen {
        seen := seen + {NormalId(value[index], index)};
        normalized := normalized + [NormalMessage(value[index], index)];
      }
      index := index + 1;
    }
  }

  /** Some record from the position on has this id. */
  ghost predicate NamedFrom(value: seq<Raw>, index: nat, x: string) {
    exists i :: index <= i < |value| && value[i].Record? && NormalId(value[i], i) == x
  }

  lemma {:induction false} NamedFromStep(value: seq<Raw>, index: nat, x: string)
    requires index < |value|
    ensures NamedFrom(value, index, x) <==>
      NamedFrom(value, index + 1, x) || (value[index].Record? && NormalId(value[index], index) == x)
  {
    hide NormalId;
  }

  /** Whatever comes in, every record's id goes on, and nothing else does. */
  lemma {:induction false} NormalFromIds(value: seq<Raw>, index: nat, seen: set<string>, x: string)
    requires index <= |value|
    ensures x in Ids(NormalFrom(value, index, seen)) <==> x !in seen && NamedFrom(value, index, x)
    decreases |value| - index
  {
    hide NamedFrom;
    if index == |value| {
      assert !NamedFrom(value, index, x) by {
        NamedNowhere(value, x);
      }
    } else {
      NamedFromStep(value, index, x);
      hide NormalId;
      var raw := value[index];
      if raw.Junk? || NormalId(raw, index) in seen {
        NormalFromIds(value, index + 1, seen, x);
      } else {
        var id := NormalId(raw, index);
        NormalFromIds(value, index + 1, seen + {id}, x);
        var rest := NormalFrom(value, index + 1, seen + {id});
        IdsCons(NormalMessage(raw, index), rest);
      }
    }
  }

  lemma {:induction false} NamedNowhere(value: seq<Raw>, x: string)
    ensures !NamedFrom(value, |value|, x)
  {
  }

  lemma {:induction false} IdsCons(m: Message, rest: seq<Message>)
    ensures Ids([m] + rest) == [m.id] + Ids(rest)
  {
    assert ([m] + rest)[1..] == rest;
  }

  /** The ids that go on are nonempty and unrepeated. */
  lemma {:induction false} NormalFromClean(value: seq<Raw>, index: nat, seen: set<string>)
    requires index <= |value|
    ensures Clean(NormalFrom(value, index, seen))
    decreases |value| - index
  {
    hide NamedFrom;
    if index < |value| {
      var raw := value[index];
      if raw.Junk? || NormalId(raw, index) in seen {
        NormalFromClean(value, index + 1, seen);
      } else {
        var id := NormalId(raw, index);
        assert id != "";
        hide NormalId;
        NormalFromClean(value, index + 1, seen + {id});
        var rest := NormalFrom(value, index + 1, seen + {id});
        NormalFromIds(value, index + 1, seen + {id}, id);
        IdsCons(NormalMessage(raw, index), rest);
        CleanCons(NormalMessage(raw, index), rest);
      }
    }
  }

  lemma {:induction false} CleanCons(m: Message, rest: seq<Message>)
    requires Clean(rest) && m.id != "" && m.id !in Ids(rest)
    ensures Clean([m] + rest)
  {
    IdsCons(m, rest);
    DistinctCons(m.id, Ids(rest));
  }

  lemma {:induction false} NormalizedIsClean(value: seq<Raw>)
    ensures Clean(NormalFrom(value, 0, {}))
  {
    NormalFromClean(value, 0, {});
  }

  // ----- channel switches

  datatype Event = Event(channel: Option<string>, ms: seq<Message>, now: string)

  datatype Session = Session(last: Option<string>, refs: Refs)

  predicate NoChannel(c: Option<string>) {
    c.None? || c.value == ""
  }

  function OnChannel(s: Session, c: Option<string>): Session {
    if s.last != c then Session(c, NO_REFS) else s
  }

  function SessionStep(s: Session, e: Event): Session {
    var t := OnChannel(s, e.channel);
    if NoChannel(e.channel) then t else t.(refs := Next(t.refs, e.ms, e.now))
  }

  function SessionRun(es: seq<Event>): Session {
    if es == [] then Session(None, NO_REFS) else SessionStep(SessionRun(es[..|es| - 1]), es[|es| - 1])
  }

  /** The refreshes since the last channel switch, read off the run of events alone. */
  function Since(es: seq<Event>): seq<Refresh> {
    if es == [] then []
    else
      var n := |es| - 1;
      if es[n].channel in {None, Some("")} then []
      else if n > 0 && es[n - 1].channel == es[n].channel then Since(es[..n]) + [Refresh(es[n].ms, es[n].now)]
      else [Refresh(es[n].ms, es[n].now)]
  }

  /** After any run of events the refs are those of the current channel's own refreshes: switching channels
      forgets everything, and nothing else does. */
  lemma {:induction false} SessionFollowsChannel(es: seq<Event>)
    ensures SessionRun(es).refs == Run(Since(es))
    ensures SessionRun(es).last == (if es == [] then None else es[|es| - 1].channel)
  {
    hide Run, Next;
    RunNothing();
    if es != [] {
      var n := |es| - 1;
      SessionFollowsChannel(es[..n]);
      var e := Refresh(es[n].ms, es[n].now);
      RunSnoc(Since(es[..n]), e);
      RunSnoc([], e);
      assert [] + [e] == [e];
    }
  }

  lemma {:induction false} RunNothing()
    ensures Run([]) == NO_REFS
  {
  }

  lemma {:induction false} RunSnoc(h: seq<Refresh>, e: Refresh)
    ensures Run(h + [e]) == Next(Run(h), e.ms, e.now)
    ensures Shown(h + [e]) == View(Run(h), e.ms, e.now)
  {
    assert (h + [e])[..|h|] == h;
  }

  /** The refreshes that count are the events of the trailing stretch on one channel. */
  lemma {:induction false} SinceIsTrailing(es: seq<Event>) returns (from: nat)
    ensures from <= |es| && |Since(es)| == |es| - from
    ensures forall i :: from <= i < |es| ==> es[i].channel == es[|es| - 1].channel
    ensures forall j :: 0 <= j < |Since(es)| ==> Since(es)[j] == Refresh(es[from + j].ms, es[from + j].now)
  {
    if es == [] || NoChannel(es[|es| - 1].channel) {
      from := |es|;
    } else {
      var n := |es| - 1;
      var init := es[..n];
      if n > 0 && es[n - 1].channel == es[n].channel {
        from := SinceIsTrailing(init);
        assert forall i :: 0 <= i < n ==> init[i] == es[i];
        assert Since(es) == Since(init) + [Refresh(es[n].ms, es[n].now)];
        forall j | 0 <= j < |Since(es)| ensures Since(es)[j] == Refresh(es[from + j].ms, es[from + j].now) {
          if j < |Since(init)| {
            assert Since(es)[j] == Since(init)[j];
          }
        }
      } else {
        from := n;
      }
    }
  }

  /** No id from an earlier channel, or from before an interruption, ever appears in a live view. */
  lemma {:induction false} NoIdFromEarlierChannel(es: seq<Event>, id: string) returns (i: nat)
    requires forall j :: 0 <= j < |es| ==> Clean(es[j].ms)
    requires id in Ids(Shown(Since(es)))
    ensures i < |es| && id in Ids(es[i].ms)
    ensures forall j :: i <= j < |es| ==> es[j].channel == es[|es| - 1].channel
  {
    var h := Since(es);
    var from := SinceIsTrailing(es);
    forall j | 0 <= j < |h| ensures Clean(h[j].ms) {
      assert h[j] == Refresh(es[from + j].ms, es[from + j].now);
    }
    ShownIsFates(h, id);
    FindMember(Shown(h), id);
    FateSeen(h, id);
    var k :| 0 <= k < |h| && id in Ids(h[k].ms);
    i := from + k;
  }

  /** A mounted conversation: its refs, the channel they belong to, and the list on screen. */
  class Conversation {
    const refs: ViewRefs
    var lastMergedChannel: Option<string>
    var messages: seq<Message>

    ghost predicate Valid()
      reads this, refs
    {
      refs.Valid()
    }

    function Value(): Session
      reads this, refs
    {
      Session(lastMergedChannel, refs.Value())
    }

    constructor ()
      ensures Valid() && Value() == Session(None, NO_REFS)
      ensures fresh(refs)
    {
      refs := new ViewRefs();
      lastMergedChannel := None;
      messages := [];
    }

    /** The effect run when the incoming messages or the channel change. */
    method Refresh(channel: Option<string>, incoming: seq<Raw>, persisted: seq<Message>, deleted: set<string>,
        now: string)
      requires Valid()
      modifies this, refs
      ensures Valid()
      ensures var ms := NormalFrom(incoming, 0, {});
        && Clean(ms)
        && Value() == SessionStep(old(Value()), Event(channel, ms, now))
        && messages == if channel in {None, Some("")} then ms
                       else Merged(View(OnChannel(old(Value()), channel).refs, ms, now), persisted, deleted, now)
    {
      var normalized := NormalizeChatMessages(incoming);
      NormalizedIsClean(incoming);
      if lastMergedChannel != channel {
        lastMergedChannel := channel;
        refs.Reset();
      }
      if NoChannel(channel) {
        messages := normalized;
      } else {
        var view := refs.BuildLiveView(normalized, now);
        messages := MergePersistedMessages(view, persisted, deleted, now);
      }
    }
  }

  // ----- refreshing again

  function EntrySlots(ms: seq<Message>): (r: seq<Slot>)
    ensures |r| == |ms|
    ensures forall i :: 0 <= i < |ms| ==> r[i] == Entry(ms[i])
  {
    if ms == [] then [] else [Entry(ms[0])] + EntrySlots(ms[1..])
  }

  lemma {:induction false} EntrySlotsFacts(ms: seq<Message>)
    ensures FirstSurvivor(EntrySlots(ms)) == "" && Entries(EntrySlots(ms)) == ms
    ensures forall x :: Block(EntrySlots(ms), x) == if x == "" then ms else []
  {
    if ms != [] {
      EntrySlotsFacts(ms[1..]);
    }
  }

  lemma {:induction false} AppendedSlots(slots: seq<Slot>, rest: seq<Message>)
    ensures slots == [] ==> slots + EntrySlots(rest) == EntrySlots(rest)
    ensures slots != [] ==> (slots + EntrySlots(rest))[1..] == slots[1..] + EntrySlots(rest)
  {
    hide EntrySlots;
  }

  lemma {:induction false} AppendedShape(slots: seq<Slot>, rest: seq<Message>)
    ensures FirstSurvivor(slots + EntrySlots(rest)) == FirstSurvivor(slots)
  {
    hide EntrySlots;
    EntrySlotsFacts(rest);
    AppendedSlots(slots, rest);
    if slots != [] {
      AppendedShape(slots[1..], rest);
    }
  }

  lemma {:induction false} AppendedContents(slots: seq<Slot>, rest: seq<Message>)
    ensures Entries(slots + EntrySlots(rest)) == Entries(slots) + rest
  {
    hide EntrySlots;
    EntrySlotsFacts(rest);
    AppendedSlots(slots, rest);
    if slots != [] {
      AppendedContents(slots[1..], rest);
    }
  }

  lemma {:induction false} BlockStep(slots: seq<Slot>, x: string)
    requires slots != []
    ensures Block(slots, x) ==
      (if slots[0].Entry? && FirstSurvivor(slots[1..]) == x then [slots[0].m] else []) + Block(slots[1..], x)
  {
  }

  /** Entries appended after an old order only lengthen the tail. */
  lemma {:induction false} AppendedEntries(slots: seq<Slot>, rest: seq<Message>, x: string)
    ensures Block(slots + EntrySlots(rest), x) == Block(slots, x) + (if x == "" then rest else [])
  {
    hide EntrySlots, FirstSurvivor, Block;
    var all := slots + EntrySlots(rest);
    AppendedSlots(slots, rest);
    if slots == [] {
      EntrySlotsFacts(rest);
      NoBlock(x);
    } else {
      BlockStep(slots, x);
      BlockStep(all, x);
      AppendedShape(slots[1..], rest);
      AppendedEntries(slots[1..], rest, x);
      assert all[0] == slots[0];
    }
  }

  lemma {:induction false} NoBlock(x: string)
    ensures Block([], x) == []
  {
  }

  lemma {:induction false} EmitAppended(ms: seq<Message>, slots: seq<Slot>, rest: seq<Message>)
    ensures Emit(ms, slots + EntrySlots(rest)) == Emit(ms, slots) + rest
  {
    if ms == [] {
      AppendedEntries(slots, rest, "");
    } else {
      EmitAppended(ms[1..], slots, rest);
      AppendedEntries(slots, rest, ms[0].id);
      assert Before(slots + EntrySlots(rest), ms[0].id) == Before(slots, ms[0].id);
      assert Emit(ms, slots) + rest == Before(slots, ms[0].id) + [ms[0]] + (Emit(ms[1..], slots) + rest);
    }
  }

  /** The next refresh with the same snapshot keeps every tombstone as it is ... */
  lemma {:induction false} AgainTombs(r: Refs, ms: seq<Message>, now: string, later: string, x: string)
    requires Sound(r) && Clean(ms)
    ensures x in NextTombs(Next(r, ms, now), ms, later).vals <==> x in NextTombs(r, ms, now).vals
    ensures x in NextTombs(r, ms, now).vals ==>
      NextTombs(Next(r, ms, now), ms, later).vals[x] == NextTombs(r, ms, now).vals[x]
  {
    NextTombsAt(r, ms, now, x);
    NextTombsAt(Next(r, ms, now), ms, later, x);
    RememberFinds(r.seen, ms, x);
  }

  /** ... has none to append ... */
  lemma {:induction false} AgainPlaced(r: Refs, ms: seq<Message>, now: string, later: string, x: string)
    requires Sound(r) && Clean(ms)
    ensures x !in Unplaced(Next(r, ms, now), ms, later)
  {
    SoundStep(r, ms, now);
    ViewContents(r, ms, now);
    UnplacedExactly(Next(r, ms, now), ms, later);
    AgainTombs(r, ms, now, later, x);
  }

  lemma {:induction false} AgainUnplaced(r: Refs, ms: seq<Message>, now: string, later: string)
    requires Sound(r) && Clean(ms)
    ensures Unplaced(Next(r, ms, now), ms, later) == []
  {
    forall x ensures x !in Unplaced(Next(r, ms, now), ms, later) {
      AgainPlaced(r, ms, now, later, x);
    }
    NoMembers(Unplaced(Next(r, ms, now), ms, later));
  }

  /** ... and sees its own view as the old order. */
  lemma {:induction false} AgainSlots(r: Refs, ms: seq<Message>, now: string, later: string)
    requires Sound(r) && Clean(ms)
    ensures StepSlots(Next(r, ms, now), ms, later) == SlotsOf(View(r, ms, now), IdSet(ms))
  {
    var n, view := Next(r, ms, now), View(r, ms, now);
    ViewContents(r, ms, now);
    IdSetIds(ms);
    forall i | 0 <= i < |view| ensures StepSlots(n, ms, later)[i] == SlotsOf(view, IdSet(ms))[i] {
      assert n.order[i] == view[i].id && view[i] in view;
      AgainTombs(r, ms, now, later, view[i].id);
      IdsMember(ms, view[i].id);
    }
  }

  /** Entries of the old order and unplaced tombstones are all of messages that are gone. */
  lemma {:induction false} AgainEntries(r: Refs, ms: seq<Message>, now: string, m: Message)
    requires Sound(r) && Clean(ms)
    requires m in Entries(StepSlots(r, ms, now)) + Pick(Unplaced(r, ms, now), NextTombs(r, ms, now).vals)
    ensures m.id !in Ids(ms)
  {
    hide StepSlots, Pick, NextTombs, Ids;
    StepWellAnchored(r, ms, now);
    NextTombsKeyed(r, ms, now);
    PickIds(Unplaced(r, ms, now), NextTombs(r, ms, now).vals);
    NextTombsAt(r, ms, now, m.id);
  }

  lemma {:induction false} AgainFixed(r: Refs, ms: seq<Message>, now: string)
    requires Sound(r) && Clean(ms)
    ensures Emit(ms, SlotsOf(View(r, ms, now), IdSet(ms))) == View(r, ms, now)
  {
    hide Emit, Pick, Unplaced, NextTombs, OrderSlots, EntrySlots, Sound, Clean, SlotsOf, Entries, Ids, IdSet, Distinct;
    var rest := Pick(Unplaced(r, ms, now), NextTombs(r, ms, now).vals);
    var slots := StepSlots(r, ms, now) + EntrySlots(rest);
    CleanIds(ms);
    IdSetIds(ms);
    AppendedContents(StepSlots(r, ms, now), rest);
    EmitAppended(ms, StepSlots(r, ms, now), rest);
    forall m | m in Entries(slots) ensures m.id !in IdSet(ms) {
      AgainEntries(r, ms, now, m);
    }
    EmitFixpoint(ms, slots, IdSet(ms));
  }

  lemma {:induction false} CleanIds(ms: seq<Message>)
    requires Clean(ms)
    ensures Distinct(Ids(ms)) && "" !in Ids(ms)
  {
  }

  lemma {:induction false} ViewIsClean(r: Refs, ms: seq<Message>, now: string)
    requires Sound(r) && Clean(ms)
    ensures Clean(View(r, ms, now))
  {
    hide View, Ids, Distinct;
    SoundStep(r, ms, now);
  }

  lemma {:induction false} NothingPicked(vals: map<string, Message>)
    ensures Pick([], vals) == []
  {
  }

  /** Persist and refresh: the same snapshot at a later clock gives the same live view, and merging it with the
      list shown before gives the same list, record for record. */
  lemma {:induction false} RefreshAgain(r: Refs, ms: seq<Message>, ps: seq<Message>, deleted: set<string>, now: string,
      later: string)
    requires Sound(r) && Clean(ms) && now != ""
    ensures View(Next(r, ms, now), ms, later) == View(r, ms, now)
    ensures Merged(View(r, ms, now), Merged(View(r, ms, now), ps, deleted, now), deleted, later) ==
      Merged(View(r, ms, now), ps, deleted, now)
  {
    hide Emit, Pick, Unplaced, NextTombs, Next, Merged, OrderSlots, Sound, Clean, SlotsOf;
    AgainSlots(r, ms, now, later);
    AgainUnplaced(r, ms, now, later);
    AgainFixed(r, ms, now);
    NothingPicked(NextTombs(Next(r, ms, now), ms, later).vals);
    ViewIsClean(r, ms, now);
    MergeFixpoint(View(r, ms, now), ps, deleted, now, later);
  }
}
