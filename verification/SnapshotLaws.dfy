/** What every normalised snapshot record satisfies, and when normalising it again changes nothing. A value "stands for"
    a record when reading it gives the record's fields and enumerating its tables, in any order, gives their entries. */
module SnapshotLaws {
  import opened JsText
  import opened JsValues
  import opened Outcomes
  import opened Sequences
  import opened Snapshot
  import opened SnapshotRecords
  import opened RecordLaws

  // ----- entries

  lemma {:induction false} AcceptedFrom<V(!new)>(read: ((string, Value)) -> Option<(string, V)>,
      entries: seq<(string, Value)>, i: nat)
      returns (j: nat)
    requires i < |Accepted(read, entries)|
    ensures j < |entries| && read(entries[j]) == Some(Accepted(read, entries)[i])
    decreases |entries|
  {
    var n := |entries| - 1;
    if i < |Accepted(read, entries[..n])| {
      j := AcceptedFrom(read, entries[..n], i);
    } else {
      j := n;
    }
  }

  lemma {:induction false} AcceptedKept<V>(read: ((string, Value)) -> Option<(string, V)>,
      entries: seq<(string, Value)>, kept: seq<(string, V)>)
    requires |entries| == |kept|
    requires forall i :: 0 <= i < |kept| ==> read(entries[i]) == Some(kept[i])
    ensures Accepted(read, entries) == kept
    decreases |entries|
  {
    if entries != [] {
      var n := |entries| - 1;
      AcceptedKept(read, entries[..n], kept[..n]);
      assert kept == kept[..n] + [kept[n]];
    }
  }

  lemma {:induction false} EntriesArePairs(keys: seq<string>, own: map<string, Value>)
    requires forall k :: k in keys ==> k in own
    ensures EntriesOf(keys, own) == Pairs(keys, own)
    decreases |keys|
  {
    if keys != [] {
      var n := |keys| - 1;
      EntriesArePairs(keys[..n], own);
      assert keys == keys[..n] + [keys[n]];
      assert Pairs(keys, own) == Pairs(keys[..n], own) + [(keys[n], own[keys[n]])];
    }
  }

  /** The value is an object with exactly the table's keys, enumerated in some order. */
  ghost predicate SameKeys<V>(v: Value, own: map<string, V>) {
    v.Obj? && Enumerates(v.keys, v.own) && v.own.Keys == own.Keys
  }

  lemma {:induction false} EntriesAgain<V(!new)>(read: ((string, Value)) -> Option<(string, V)>, v: Value,
      own: map<string, V>)
    requires SameKeys(v, own)
    requires forall k :: k in own ==> read((k, v.own[k])) == Some((k, own[k]))
    ensures SameKeys(v, own) && Accepted(read, Entries(v)) == Pairs(v.keys, own)
  {
    EntriesArePairs(v.keys, v.own);
    AcceptedKept(read, Entries(v), Pairs(v.keys, own));
  }

  /** A table is rebuilt by a reader that gives back each of its entries. */
  lemma {:induction false} TableAgain<V(!new)>(objects: bool, read: ((string, Value)) -> Option<(string, V)>, v: Value,
      own: map<string, V>)
    requires SameKeys(v, own) && PROTO !in own
    requires forall k :: k in own ==> read((k, v.own[k])) == Some((k, own[k]))
    ensures Collect(objects, Accepted(read, Entries(v))) == Table(true, own)
    ensures Accepted(read, Entries(v)) == [] <==> own == map[]
  {
    hide Collect, Accepted;
    EntriesAgain(read, v, own);
    assert Enumerates(v.keys, own);
    CollectAgain(objects, v.keys, own);
    if v.keys != [] {
      assert v.keys[0] in own;
    }
    if own != map[] {
      var k :| k in own;
      assert k in v.keys;
    }
  }

  // ----- maps of primitives

  ghost predicate NormalStrings(m: map<string, string>) {
    PROTO !in m && forall k :: k in m ==> Tidy(k) && Tidy(m[k])
  }

  lemma {:induction false} StringMapNormal(x: Value)
    requires StringMap(x).Some?
    ensures NormalStrings(StringMap(x).value)
  {
    hide Collect;
    var entries := Accepted(StringEntry, Entries(x));
    CollectHolds(false, entries);
    forall k | k in StringMap(x).value ensures Tidy(k) && Tidy(StringMap(x).value[k]) {
      var i := CollectFrom(false, entries, k);
      var j := AcceptedFrom(StringEntry, Entries(x), i);
      TrimIdempotent(Entries(x)[j].0);
      OptTextTidy(Entries(x)[j].1);
    }
  }

  ghost predicate StandsForStrings(v: Value, m: map<string, string>) {
    IsPlain(v) && SameKeys(v, m) && forall k :: k in m ==> v.own[k] == Str(m[k])
  }

  /** A normal string map is kept, unless it is empty: then it becomes no map at all. */
  lemma {:induction false} StringMapKept(m: map<string, string>, v: Value)
    requires NormalStrings(m) && StandsForStrings(v, m)
    ensures StringMap(v) == if m == map[] then None else Some(m)
  {
    hide Collect, Accepted, StringMap;
    TableAgain(false, StringEntry, v, m);
    StringMapUnfolds(v);
  }

  lemma {:induction false} StringMapUnfolds(v: Value)
    requires IsPlain(v)
    ensures var entries := Accepted(StringEntry, Entries(v));
      StringMap(v) == if entries == [] then None else Some(Collect(false, entries).own)
  {
  }

  ghost predicate NormalNumbers(m: map<string, real>) {
    PROTO !in m && forall k :: k in m ==> Tidy(k) && m[k] > 0.0
  }

  lemma {:induction false} NumberMapNormal(entries: seq<(string, Value)>)
    ensures NormalNumbers(NumberMapOf(entries))
    decreases |entries|
  {
    if entries != [] {
      var n := |entries| - 1;
      NumberMapNormal(entries[..n]);
      TrimIdempotent(entries[n].0);
    }
  }

  ghost predicate StandsForNumbers(v: Value, m: map<string, real>) {
    IsPlain(v) && SameKeys(v, m) && forall k :: k in m ==> v.own[k] == Num(m[k], true)
  }

  lemma {:induction false} NumberEntries(keys: seq<string>, own: map<string, Value>, m: map<string, real>)
    requires NormalNumbers(m) && Distinct(keys)
    requires forall k :: k in keys ==> k in own && k in m && own[k] == Num(m[k], true)
    ensures NumberMapOf(EntriesOf(keys, own)) == map k | k in keys :: m[k]
    decreases |keys|
  {
    hide NumberMapOf, EntriesOf;
    if keys == [] {
      NoNumbers(own);
    } else {
      var init, last := keys[..|keys| - 1], keys[|keys| - 1];
      NumberEntries(init, own, m);
      assert keys == init + [last];
      OneMoreNumber(keys, own, m[last]);
    }
  }

  lemma {:induction false} NoNumbers(own: map<string, Value>)
    ensures NumberMapOf(EntriesOf([], own)) == map[]
  {
  }

  lemma {:induction false} OneMoreNumber(keys: seq<string>, own: map<string, Value>, n: real)
    requires keys != [] && Tidy(keys[|keys| - 1]) && keys[|keys| - 1] != PROTO && n > 0.0
    requires keys[|keys| - 1] in own && own[keys[|keys| - 1]] == Num(n, true)
    ensures NumberMapOf(EntriesOf(keys, own)) == NumberMapOf(EntriesOf(keys[..|keys| - 1], own))[keys[|keys| - 1] := n]
  {
    var before, entry := EntriesOf(keys[..|keys| - 1], own), (keys[|keys| - 1], own[keys[|keys| - 1]]);
    assert (before + [entry])[..|before|] == before;
  }

  /** A normal number map is always kept. */
  lemma {:induction false} NumberMapKept(m: map<string, real>, v: Value)
    requires NormalNumbers(m) && StandsForNumbers(v, m)
    ensures NumberMap(v) == Some(m)
  {
    NumberEntries(v.keys, v.own, m);
    assert (map k | k in v.keys :: m[k]) == m;
  }

  // ----- presence

  ghost predicate NormalPresence(t: Table<Value>) {
    PROTO !in t.own && forall k :: k in t.own ==> Tidy(k) && PresenceRecord(t.own[k])
  }

  lemma {:induction false} PresenceNormal(x: Value)
    requires PresenceMap(x).Some?
    ensures NormalPresence(PresenceMap(x).value)
    ensures PresenceMap(x).value.plain ==> PresenceMap(x).value.own != map[]
  {
    hide Collect;
    var entries := Accepted(PresenceEntry, Entries(x));
    CollectHolds(true, entries);
    forall k | k in PresenceMap(x).value.own ensures Tidy(k) && PresenceRecord(PresenceMap(x).value.own[k]) {
      var i := CollectFrom(true, entries, k);
      var j := AcceptedFrom(PresenceEntry, Entries(x), i);
      TrimIdempotent(Entries(x)[j].0);
    }
    if PresenceMap(x).value.plain {
      CollectKeys(true, entries, 0);
    }
  }

  ghost predicate StandsForPresence(v: Value, t: Option<Table<Value>>) {
    if t.None? then v == Undefined
    else
      && v.Obj? && v.plain == t.value.plain && SameKeys(v, t.value.own)
      && forall k :: k in t.value.own ==> v.own[k] == t.value.own[k]
  }

  /** A normal presence map is kept exactly when its prototype is intact and it is not empty; otherwise it is
      dropped. */
  lemma {:induction false} PresenceKept(t: Table<Value>, v: Value)
    requires NormalPresence(t) && StandsForPresence(v, Some(t))
    ensures PresenceMap(v) == if t.plain && t.own != map[] then Some(t) else None
  {
    hide Collect, Accepted;
    if t.plain {
      TableAgain(true, PresenceEntry, v, t.own);
    }
  }

  // ----- voice sessions

  ghost predicate NormalParticipant(p: Participant, key: string) {
    p.peerId == key && Tidy(key) && OptTidy(p.joinedAt) && OptTidy(p.lastFrameAt) && OptTidy(p.connectionState)
  }

  ghost predicate NormalParticipants(t: Table<Participant>) {
    PROTO !in t.own && forall k :: k in t.own ==> NormalParticipant(t.own[k], k)
  }

  predicate StandsForParticipant(v: Value, p: Participant) {
    && IsPlain(v)
    && Read(v, "peer_id") == Str(p.peerId)
    && Read(v, "muted") == FromBool(p.muted)
    && Read(v, "joined_at") == FromText(p.joinedAt)
    && Read(v, "last_frame_at") == FromText(p.lastFrameAt)
    && Read(v, "video") == FromBool(p.video)
    && Read(v, "screen_sharing") == FromBool(p.screenSharing)
    && Read(v, "speaking") == FromBool(p.speaking)
    && Read(v, "connection_state") == FromText(p.connectionState)
  }

  ghost predicate StandsForParticipants(v: Value, t: Table<Participant>) {
    v.Obj? && v.plain == t.plain && SameKeys(v, t.own)
    && forall k :: k in t.own ==> StandsForParticipant(v.own[k], t.own[k])
  }

  lemma {:induction false} ParticipantNormal(v: Value, key: string)
    requires Tidy(key) && (TextOf(Field(v, "peer_id")) == "" || TextOf(Field(v, "peer_id")) == key)
    ensures NormalParticipant(ParticipantOf(v, key), key)
  {
    hide TextOf, Field, OptText, Tidy;
    OptTextTidy(Field(v, "joined_at"));
    OptTextTidy(Field(v, "last_frame_at"));
    OptTextTidy(Field(v, "connection_state"));
  }

  /** The key of every accepted participant is its tidy peer id. */
  lemma {:induction false} ParticipantEntriesNormal(x: Value, i: nat)
    requires i < |ParticipantEntries(x)|
    ensures NormalParticipant(ParticipantEntries(x)[i].1, ParticipantEntries(x)[i].0)
  {
    hide ParticipantOf;
    if x.Arr? {
      var one := ParticipantEntries(x)[i];
      var j := RecordsFrom(ListedParticipant, x.items, one);
      TextTidy(Field(x.items[j], "peer_id"));
      ParticipantNormal(x.items[j], one.0);
    } else {
      var j := AcceptedFrom(KeyedParticipant, Entries(x), i);
      TrimIdempotent(Entries(x)[j].0);
      ParticipantNormal(Entries(x)[j].1, ParticipantEntries(x)[i].0);
    }
  }

  lemma {:induction false} ParticipantsNormal(x: Value)
    ensures NormalParticipants(Participants(x))
  {
    hide Collect, ParticipantEntries, NormalParticipant;
    CollectHolds(true, ParticipantEntries(x));
    forall k | k in Participants(x).own ensures NormalParticipant(Participants(x).own[k], k) {
      var i := CollectFrom(true, ParticipantEntries(x), k);
      ParticipantEntriesNormal(x, i);
    }
  }

  lemma {:induction false} ParticipantAgain(v: Value, p: Participant, key: string)
    requires NormalParticipant(p, key) && StandsForParticipant(v, p)
    ensures KeyedParticipant((key, v)) == Some((key, p))
  {
    hide OptText, FromText, OptTidy;
    assert TextOf(Read(v, "peer_id")) == key;
    OptTextAgain(p.joinedAt);
    OptTextAgain(p.lastFrameAt);
    OptTextAgain(p.connectionState);
  }

  /** Normalised participants are kept exactly when the prototype is intact; otherwise all of them are lost. */
  lemma {:induction false} ParticipantsAgainIff(t: Table<Participant>, v: Value)
    requires NormalParticipants(t) && StandsForParticipants(v, t)
    ensures Participants(v) == if t.plain then t else Table(true, map[])
  {
    hide Collect, Accepted, KeyedParticipant, StandsForParticipant, NormalParticipant;
    if t.plain {
      forall k | k in t.own ensures KeyedParticipant((k, v.own[k])) == Some((k, t.own[k])) {
        ParticipantAgain(v.own[k], t.own[k], k);
      }
      TableAgain(true, KeyedParticipant, v, t.own);
    } else {
      assert ParticipantEntries(v) == [];
      CollectNothing<Participant>(true);
    }
  }

  ghost predicate NormalSession(s: Session) {
    && Tidy(s.channelId) && NormalParticipants(s.participants)
    && OneOfOr(s.securityMode, SESSION_MODES) && OneOfOr(s.connectionState, CONNECTION_STATES)
  }

  ghost predicate StandsForSession(v: Value, s: Session) {
    && IsPlain(v)
    && Read(v, "channel_id") == Str(s.channelId)
    && StandsForParticipants(Read(v, "participants"), s.participants)
    && Read(v, "security_mode") == FromText(s.securityMode)
    && Read(v, "connection_state") == FromText(s.connectionState)
    && Read(v, "self_muted") == FromBool(s.selfMuted)
    && Read(v, "turn_unavailable") == FromBool(s.turnUnavailable)
  }

  lemma {:induction false} SessionNormal(x: Value)
    requires SessionOf(x).Some?
    ensures NormalSession(SessionOf(x).value)
  {
    hide Participants, NormalParticipants;
    ParticipantsNormal(Read(x, "participants"));
    TextTidy(Read(x, "channel_id"));
    TextTidy(Read(x, "id"));
  }

  /** A normalised voice session is kept exactly when its participants' prototype is intact; otherwise everyone in it is
      lost and the rest is kept. */
  lemma {:induction false} SessionAgainIff(s: Session, v: Value)
    requires NormalSession(s) && StandsForSession(v, s)
    ensures SessionOf(v) == Some(if s.participants.plain then s else s.(participants := Table(true, map[])))
  {
    hide Participants, NormalParticipants, StandsForParticipants, SESSION_MODES, CONNECTION_STATES;
    ParticipantsAgainIff(s.participants, Read(v, "participants"));
  }
}
