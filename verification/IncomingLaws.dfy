/** What becomes of an incoming list of messages: which of its records go on, in which order, and what they carry. */
module IncomingLaws {
  import opened Anchoring
  import opened Conversation
  import opened JsText
  import opened Outcomes
  import opened Sequences
  import opened TextLaws

  /** The id of the record at this position: its own trimmed id, or its position when it has none. */
  ghost predicate Named(raw: Raw, position: nat, x: string) {
    && raw.Record?
    && (|| (raw.id.Some? && TrimsTo(raw.id.value, x) && x != "")
        || ((raw.id.None? || TrimsTo(raw.id.value, "")) && x == "message-" + Decimal(position)))
  }

  /** The record at this position is the first one with its id. */
  ghost predicate FirstNamed(value: seq<Raw>, position: nat) {
    && position < |value| && value[position].Record?
    && forall j, x :: 0 <= j < position && Named(value[position], position, x) ==> !Named(value[j], j, x)
  }

  /** A stamp is the trimmed string, or absent when there is no string or nothing but white space. */
  ghost predicate Stamps(s: Option<string>, stamp: Option<string>) {
    if stamp.Some? then s.Some? && TrimsTo(s.value, stamp.value) && stamp.value != ""
    else s.None? || TrimsTo(s.value, "")
  }

  /** What a message carries of its record. */
  ghost predicate Carries(raw: Raw, position: nat, m: Message) {
    && Named(raw, position, m.id)
    && (raw.content.Some? ==> m.content == raw.content.value) && (raw.content.None? ==> m.content == "")
    && m.stored == raw.stored && m.extra == raw.extra
    && Stamps(raw.deletedAt, m.deletedAt) && Stamps(raw.deletedBy, m.deletedBy)
  }

  lemma {:induction false} NamedIff(raw: Raw, position: nat, x: string)
    requires raw.Record?
    ensures Named(raw, position, x) <==> x == NormalId(raw, position)
  {
    hide Trim, TrimsTo, Decimal;
    if raw.id.Some? {
      TrimIff(raw.id.value, x);
      TrimIff(raw.id.value, "");
    }
  }

  lemma {:induction false} StampIff(s: Option<string>)
    ensures Stamps(s, Trimmed(s))
  {
    hide Trim, TrimsTo;
    if s.Some? {
      TrimIff(s.value, Trim(s.value));
    }
  }

  lemma {:induction false} RecordCarries(raw: Raw, position: nat)
    requires raw.Record?
    ensures Carries(raw, position, NormalMessage(raw, position))
  {
    hide NormalId, Named, Stamps, Trimmed;
    NamedIff(raw, position, NormalId(raw, position));
    StampIff(raw.deletedAt);
    StampIff(raw.deletedBy);
  }

  /** The record is new: its id is neither taken before nor used between the two positions. */
  ghost predicate NewFrom(value: seq<Raw>, from: nat, seen: set<string>, i: nat) {
    && from <= i < |value| && value[i].Record? && NormalId(value[i], i) !in seen
    && forall j :: from <= j < i && value[j].Record? ==> NormalId(value[j], j) != NormalId(value[i], i)
  }

  lemma {:induction false} NewFromStep(value: seq<Raw>, from: nat, seen: set<string>, i: nat)
    requires from < |value|
    ensures value[from].Record? && NormalId(value[from], from) !in seen ==>
      (NewFrom(value, from, seen, i) <==>
        i == from || NewFrom(value, from + 1, seen + {NormalId(value[from], from)}, i))
    ensures value[from].Junk? || NormalId(value[from], from) in seen ==>
      (NewFrom(value, from, seen, i) <==> NewFrom(value, from + 1, seen, i))
  {
    hide NormalId;
  }

  /** Where the messages that go on come from. */
  ghost predicate ComesFrom(value: seq<Raw>, from: nat, seen: set<string>, at: seq<nat>, ms: seq<Message>) {
    && Rising(at) && |at| == |ms| && (forall i: nat :: i in at <==> NewFrom(value, from, seen, i))
    && forall k :: 0 <= k < |at| ==> at[k] < |value| && Carries(value[at[k]], at[k], ms[k])
  }

  lemma {:induction false} SkippedRecord(value: seq<Raw>, from: nat, seen: set<string>, at: seq<nat>, ms: seq<Message>)
    requires from < |value| && (value[from].Junk? || NormalId(value[from], from) in seen)
    requires ComesFrom(value, from + 1, seen, at, ms)
    ensures ComesFrom(value, from, seen, at, ms)
  {
    hide NormalId, Carries, NewFrom, Rising;
    forall i: nat ensures i in at <==> NewFrom(value, from, seen, i) {
      NewFromStep(value, from, seen, i);
    }
  }

  lemma {:induction false} KeptRecord(value: seq<Raw>, from: nat, seen: set<string>, at: seq<nat>, ms: seq<Message>)
    requires from < |value| && value[from].Record? && NormalId(value[from], from) !in seen
    requires ComesFrom(value, from + 1, seen + {NormalId(value[from], from)}, at, ms)
    requires forall i :: i in at ==> from < i
    ensures ComesFrom(value, from, seen, [from] + at, [NormalMessage(value[from], from)] + ms)
  {
    hide NormalId, Carries, NewFrom, NormalMessage, Rising;
    RisingCons(from, at);
    RecordCarries(value[from], from);
    forall i: nat ensures i in [from] + at <==> NewFrom(value, from, seen, i) {
      NewFromStep(value, from, seen, i);
    }
    assert forall k :: 0 < k < |[from] + at| ==> ([from] + at)[k] == at[k - 1];
  }

  lemma {:induction false} NormalFromAt(value: seq<Raw>, from: nat, seen: set<string>) returns (at: seq<nat>)
    requires from <= |value|
    ensures ComesFrom(value, from, seen, at, NormalFrom(value, from, seen))
    ensures forall i :: i in at ==> from <= i
    decreases |value| - from
  {
    hide NormalId, ComesFrom, NormalMessage;
    if from == |value| {
      at := [];
      NothingComes(value, seen);
    } else if value[from].Junk? || NormalId(value[from], from) in seen {
      at := NormalFromAt(value, from + 1, seen);
      SkippedRecord(value, from, seen, at, NormalFrom(value, from + 1, seen));
    } else {
      var now := seen + {NormalId(value[from], from)};
      var rest := NormalFromAt(value, from + 1, now);
      KeptRecord(value, from, seen, rest, NormalFrom(value, from + 1, now));
      at := [from] + rest;
    }
  }

  lemma {:induction false} NothingComes(value: seq<Raw>, seen: set<string>)
    ensures ComesFrom(value, |value|, seen, [], [])
  {
  }

  /** The messages that go on are those of the first record of each id, in order of position, and each carries the
      text, the other fields and the trimmed stamps of that record. */
  lemma {:induction false} NormalFromRecords(value: seq<Raw>) returns (at: seq<nat>)
    ensures Rising(at) && |at| == |NormalFrom(value, 0, {})|
    ensures forall i: nat :: i in at <==> FirstNamed(value, i)
    ensures forall k :: 0 <= k < |at| ==>
      at[k] < |value| && Carries(value[at[k]], at[k], NormalFrom(value, 0, {})[k])
  {
    hide NormalFrom, Carries, NewFrom, FirstNamed;
    at := NormalFromAt(value, 0, {});
    forall i: nat ensures NewFrom(value, 0, {}, i) <==> FirstNamed(value, i) {
      FirstIsNew(value, i);
    }
  }

  lemma {:induction false} FirstIsNew(value: seq<Raw>, i: nat)
    ensures NewFrom(value, 0, {}, i) <==> FirstNamed(value, i)
  {
    hide NormalId, Named;
    if i < |value| && value[i].Record? {
      var x := NormalId(value[i], i);
      NamedIff(value[i], i, x);
      forall j | 0 <= j < i && value[j].Record? ensures Named(value[j], j, x) <==> NormalId(value[j], j) == x {
        NamedIff(value[j], j, x);
      }
      forall j, y | 0 <= j < i && Named(value[i], i, y) && Named(value[j], j, y) ensures y == x && value[j].Record? {
        NamedIff(value[i], i, y);
        NamedRecord(value[j], j, y);
      }
    }
  }

  lemma {:induction false} NamedRecord(raw: Raw, position: nat, x: string)
    requires Named(raw, position, x)
    ensures raw.Record?
  {
  }
}
