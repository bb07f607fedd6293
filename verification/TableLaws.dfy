/** What the snapshot normalisers read from objects used as tables, and from servers, voice sessions and the snapshot as
    a whole, whatever the value is. */
module TableLaws {
  import opened EntryLaws
  import opened JsText
  import opened JsValues
  import opened Outcomes
  import opened ReadingLaws
  import opened Sequences
  import opened Snapshot
  import opened SnapshotRecords
  import opened TextLaws

  // ----- tables by their entries

  /** The own entry at this position of the enumeration has a name that trims to this nonempty key. */
  ghost predicate KeyAt(v: Value, i: nat, k: string) {
    v.Obj? && i < |v.keys| && v.keys[i] in v.own && TrimsTo(v.keys[i], k) && k != ""
  }

  /** The value of that entry. */
  function At(v: Value, i: nat): Value {
    if v.Obj? && i < |v.keys| && v.keys[i] in v.own then v.own[v.keys[i]] else Undefined
  }

  /** Looking before assigning: the first entry that is acceptable for a key decides, and an object assigned to
      `__proto__` replaces the prototype. */
  ghost predicate FirstDecides<V>(t: Table<V>, ok: (nat, string) -> bool, gives: (nat, string, V) -> bool) {
    && (t.plain <==> forall i: nat :: !ok(i, "__proto__"))
    && (forall k :: k in t.own <==> k != "__proto__" && exists i: nat :: ok(i, k))
    && (forall i: nat, k :: k in t.own && ok(i, k) && (forall j: nat :: j < i ==> !ok(j, k)) ==> gives(i, k, t.own[k]))
  }

  lemma {:induction false} FirstSays<V>(at: nat -> Option<(string, V)>, n: nat, accepted: seq<(string, V)>,
      positions: seq<nat>, ok: (nat, string) -> bool, gives: (nat, string, V) -> bool)
    requires AcceptedAt(at, n, accepted, positions) && forall i: nat :: at(i).Some? ==> i < n
    requires forall i: nat, k :: Under(at, i, k) <==> ok(i, k)
    requires forall i: nat, k :: Under(at, i, k) ==> gives(i, k, at(i).value.1)
    ensures FirstDecides(Collect(true, accepted), ok, gives)
  {
    hide Collect, AcceptedAt;
    CollectSays(true, at, n, accepted, positions);
  }

  lemma {:induction false} EntriesSay<V>(read: ((string, Value)) -> Option<(string, V)>, v: Value,
      ok: (nat, string) -> bool, gives: (nat, string, V) -> bool)
    requires v.Obj?
    requires forall i: nat, k :: Under(EntriesAt(read, v), i, k) <==> ok(i, k)
    requires forall i: nat, k :: Under(EntriesAt(read, v), i, k) ==> gives(i, k, EntriesAt(read, v)(i).value.1)
    ensures FirstDecides(Collect(true, Accepted(read, Entries(v))), ok, gives)
    ensures Accepted(read, Entries(v)) != [] <==> exists i: nat, k :: ok(i, k)
  {
    hide Collect, Accepted, EntriesOf, EntriesAt, AcceptedAt, FirstDecides;
    var positions := EntriesAccepted(read, v);
    FirstSays(EntriesAt(read, v), |v.keys|, Accepted(read, Entries(v)), positions, ok, gives);
    AcceptedSome(EntriesAt(read, v), |v.keys|, Accepted(read, Entries(v)), positions);
  }

  lemma {:induction false} KeyIff(v: Value, i: nat, k: string)
    ensures KeyAt(v, i, k) <==> v.Obj? && i < |v.keys| && v.keys[i] in v.own && Trim(v.keys[i]) == k && k != ""
  {
    hide Trim, TrimsTo;
    if v.Obj? && i < |v.keys| {
      TrimIff(v.keys[i], k);
    }
  }

  // ----- settings

  ghost predicate SettingAt(v: Value, i: nat, k: string) {
    KeyAt(v, i, k) && NotBlank(At(v, i))
  }

  lemma {:induction false} SettingUnder(v: Value, i: nat, k: string)
    ensures Under(EntriesAt(StringEntry, v), i, k) <==> SettingAt(v, i, k)
    ensures SettingAt(v, i, k) ==> TextIs(At(v, i), EntriesAt(StringEntry, v)(i).value.1)
  {
    hide Trim, TextOf, TextIs, NotBlank, KeyAt;
    KeyIff(v, i, k);
    if v.Obj? && i < |v.keys| && v.keys[i] in v.own {
      assert EntriesAt(StringEntry, v)(i) == StringEntry((v.keys[i], v.own[v.keys[i]]));
      TextIff(At(v, i), TextOf(At(v, i)));
    }
  }

  /** Settings are the entries with a key and a text; the first one for a key wins. No setting at all is no result. */
  lemma {:induction false} SettingsSay(v: Value)
    ensures StringMap(v).Some? <==> v.Obj? && v.plain && exists i: nat, k :: SettingAt(v, i, k)
    ensures StringMap(v).Some? ==>
      var m := StringMap(v).value;
      && (forall k :: k in m <==> k != "__proto__" && exists i: nat :: SettingAt(v, i, k))
      && (forall i: nat, k :: k in m && SettingAt(v, i, k) && (forall j: nat :: j < i ==> !SettingAt(v, j, k)) ==>
          TextIs(At(v, i), m[k]))
  {
    hide Accepted, EntriesOf, Collect, EntriesAt, AcceptedAt, SettingAt, TextIs, At;
    if IsPlain(v) {
      var at, accepted := EntriesAt(StringEntry, v), Accepted(StringEntry, Entries(v));
      forall i: nat, k
        ensures Under(at, i, k) <==> SettingAt(v, i, k)
        ensures Under(at, i, k) ==> TextIs(At(v, i), at(i).value.1)
      {
        SettingUnder(v, i, k);
      }
      var positions := EntriesAccepted(StringEntry, v);
      AcceptedSome(at, |v.keys|, accepted, positions);
      CollectSays(false, at, |v.keys|, accepted, positions);
    }
  }

  // ----- unread counts

  ghost predicate CountAt(v: Value, i: nat, k: string) {
    KeyAt(v, i, k) && k != "__proto__" && At(v, i).Num? && At(v, i).finite && At(v, i).n > 0.0
  }

  function CountReader(): ((string, Value)) -> Option<(string, real)> {
    (entry: (string, Value)) =>
      var key, n := Trim(entry.0), OptNumber(entry.1);
      if key != "" && key != PROTO && n.Some? && n.value > 0.0 then Some((key, n.value)) else None
  }

  lemma {:induction false} CountsOverride(entries: seq<(string, Value)>)
    ensures NumberMapOf(entries) == Override(CountReader(), entries)
    decreases |entries|
  {
    hide Trim;
    if entries != [] {
      CountsOverride(entries[..|entries| - 1]);
    }
  }

  lemma {:induction false} CountUnder(v: Value, i: nat, k: string)
    ensures Under(EntriesAt(CountReader(), v), i, k) <==> CountAt(v, i, k)
    ensures CountAt(v, i, k) ==> EntriesAt(CountReader(), v)(i).value.1 == At(v, i).n
  {
    hide Trim, KeyAt;
    KeyIff(v, i, k);
  }

  /** Unread counts are the positive finite numbers with a key; the last one for a key wins. */
  lemma {:induction false} CountsSay(v: Value)
    ensures NumberMap(v).Some? <==> v.Obj? && v.plain
    ensures NumberMap(v).Some? ==>
      var m := NumberMap(v).value;
      && (forall k :: k in m <==> exists i: nat :: CountAt(v, i, k))
      && (forall i: nat, k :: k in m && CountAt(v, i, k) && (forall j: nat :: i < j ==> !CountAt(v, j, k)) ==>
          At(v, i) == Num(m[k], true))
  {
    hide NumberMapOf, EntriesOf, Override, EntriesAt, CountAt, At;
    if IsPlain(v) {
      forall i: nat, k
        ensures Under(EntriesAt(CountReader(), v), i, k) <==> CountAt(v, i, k)
        ensures CountAt(v, i, k) ==> At(v, i) == Num(EntriesAt(CountReader(), v)(i).value.1, true)
      {
        CountUnder(v, i, k);
        CountIsNumber(v, i, k);
      }
      CountsOverride(Entries(v));
      OverrideSays(CountReader(), v);
    }
  }

  lemma {:induction false} CountIsNumber(v: Value, i: nat, k: string)
    ensures CountAt(v, i, k) ==> At(v, i).Num? && At(v, i).finite
  {
  }

  // ----- presence

  ghost predicate PresenceAt(v: Value, i: nat, k: string) {
    var x := At(v, i);
    && KeyAt(v, i, k) && x.Obj? && x.plain
    && "status" in x.own && x.own["status"].Str? && "updated_at" in x.own && x.own["updated_at"].Str?
  }

  lemma {:induction false} PresenceUnder(v: Value, i: nat, k: string)
    ensures Under(EntriesAt(PresenceEntry, v), i, k) <==> PresenceAt(v, i, k)
    ensures PresenceAt(v, i, k) ==> EntriesAt(PresenceEntry, v)(i).value.1 == At(v, i)
  {
    hide Trim, KeyAt;
    KeyIff(v, i, k);
    if v.Obj? && i < |v.keys| && v.keys[i] in v.own {
      assert EntriesAt(PresenceEntry, v)(i) == PresenceEntry((v.keys[i], v.own[v.keys[i]]));
    }
  }

  /** Presence is what the entries with a key, a status and a time hold, as it is; the first one for a key wins. */
  lemma {:induction false} PresenceSays(v: Value)
    ensures PresenceMap(v).Some? <==> v.Obj? && v.plain && exists i: nat, k :: PresenceAt(v, i, k)
    ensures PresenceMap(v).Some? ==>
      FirstDecides(PresenceMap(v).value, (i: nat, k: string) => PresenceAt(v, i, k),
        (i: nat, k: string, x: Value) => x == At(v, i))
  {
    hide Accepted, EntriesOf, Collect, EntriesAt, PresenceAt, FirstDecides, At;
    if IsPlain(v) {
      var at := EntriesAt(PresenceEntry, v);
      forall i: nat, k
        ensures Under(at, i, k) <==> PresenceAt(v, i, k)
        ensures Under(at, i, k) ==> at(i).value.1 == At(v, i)
      {
        PresenceUnder(v, i, k);
      }
      EntriesSay(PresenceEntry, v, (i: nat, k: string) => PresenceAt(v, i, k),
        (i: nat, k: string, x: Value) => x == At(v, i));
    }
  }

  // ----- voice sessions

  /** What a participant tells; it tells nothing if it is no plain object. */
  ghost predicate PersonSays(v: Value, key: string, p: Participant) {
    var x := if v.Obj? && v.plain then v else Undefined;
    && p.peerId == key && Flag(x, "muted", p.muted) && Tells(x, "joined_at", p.joinedAt)
    && Tells(x, "last_frame_at", p.lastFrameAt) && Flag(x, "video", p.video)
    && Flag(x, "screen_sharing", p.screenSharing) && Flag(x, "speaking", p.speaking)
    && Tells(x, "connection_state", p.connectionState)
  }

  /** A keyed participant names no other peer. */
  ghost predicate KeyedAt(v: Value, i: nat, k: string) {
    KeyAt(v, i, k) && (At(v, i).Obj? && At(v, i).plain ==> forall p :: Reads(At(v, i), "peer_id", p) ==> p == k)
  }

  ghost predicate ListedAt(v: Value, i: nat, k: string) {
    v.Arr? && i < |v.items| && v.items[i].Obj? && v.items[i].plain && Reads(v.items[i], "peer_id", k)
  }

  lemma {:induction false} PersonOf(v: Value, key: string)
    requires TextOf(Field(v, "peer_id")) == "" || TextOf(Field(v, "peer_id")) == key
    ensures PersonSays(v, key, ParticipantOf(v, key))
  {
    hide TextOf, OptText, OptBool, Tells, Flag;
    var x := if IsPlain(v) then v else Undefined;
    FieldReads(v);
    ReadFlag(x, "muted");
    ReadText(x, "joined_at");
    ReadText(x, "last_frame_at");
    ReadFlag(x, "video");
    ReadFlag(x, "screen_sharing");
    ReadFlag(x, "speaking");
    ReadText(x, "connection_state");
  }

  lemma {:induction false} FieldReads(v: Value)
    ensures forall name :: Field(v, name) == Read(if v.Obj? && v.plain then v else Undefined, name)
  {
  }

  lemma {:induction false} PeerNamed(v: Value, key: string)
    ensures TextOf(Field(v, "peer_id")) == key && key != "" <==> v.Obj? && v.plain && Reads(v, "peer_id", key)
    ensures TextOf(Field(v, "peer_id")) == "" || TextOf(Field(v, "peer_id")) == key <==>
      (v.Obj? && v.plain ==> forall p :: Reads(v, "peer_id", p) ==> p == key)
  {
    hide TextOf, Reads;
    var x := if v.Obj? && v.plain then v else Undefined;
    FieldReads(v);
    ReadText(x, "peer_id");
    OnlyText(x, "peer_id");
    FilledReads(x, "peer_id");
    TextIff(Undefined, "");
  }

  lemma {:induction false} FilledReads(v: Value, name: string)
    ensures forall t :: Reads(v, name, t) ==> Filled(v, name)
    ensures Filled(v, name) ==> v.Obj?
  {
    hide TextIs, NotBlank;
    forall t | Reads(v, name, t) ensures Filled(v, name) {
      TextIff(v.own[name], t);
    }
  }

  lemma {:induction false} KeyedUnder(v: Value, i: nat, k: string)
    ensures Under(EntriesAt(KeyedParticipant, v), i, k) <==> v.Obj? && KeyedAt(v, i, k)
    ensures Under(EntriesAt(KeyedParticipant, v), i, k) ==>
      PersonSays(At(v, i), k, EntriesAt(KeyedParticipant, v)(i).value.1)
  {
    hide Trim, TextOf, KeyAt, ParticipantOf, PersonSays, Field, Reads;
    KeyIff(v, i, k);
    if v.Obj? && i < |v.keys| && v.keys[i] in v.own {
      assert EntriesAt(KeyedParticipant, v)(i) == KeyedParticipant((v.keys[i], v.own[v.keys[i]]));
      PeerNamed(At(v, i), k);
      if Under(EntriesAt(KeyedParticipant, v), i, k) {
        PersonOf(At(v, i), k);
      }
    }
  }

  lemma {:induction false} ListedUnder(v: Value, i: nat, k: string)
    requires v.Arr?
    ensures Under(ItemsAt(ListedParticipant, v.items), i, k) <==> ListedAt(v, i, k)
    ensures Under(ItemsAt(ListedParticipant, v.items), i, k) ==>
      PersonSays(v.items[i], k, ItemsAt(ListedParticipant, v.items)(i).value.1)
  {
    hide TextOf, ParticipantOf, PersonSays, Field, Reads;
    if i < |v.items| {
      assert ItemsAt(ListedParticipant, v.items)(i) == ListedParticipant(v.items[i]);
      PeerNamed(v.items[i], k);
      if Under(ItemsAt(ListedParticipant, v.items), i, k) {
        PersonOf(v.items[i], k);
      }
    }
  }

  /** Participants come from a list that names them or from an object keyed by peer id; the first one with an id
      wins. */
  ghost predicate TellsPeople(v: Value, t: Table<Participant>) {
    if v.Arr? then
      FirstDecides(t, (i: nat, k: string) => ListedAt(v, i, k),
        (i: nat, k: string, p: Participant) => i < |v.items| && PersonSays(v.items[i], k, p))
    else if v.Obj? && v.plain then
      FirstDecides(t, (i: nat, k: string) => KeyedAt(v, i, k),
        (i: nat, k: string, p: Participant) => PersonSays(At(v, i), k, p))
    else t == Table(true, map[])
  }

  lemma {:induction false} ParticipantsSay(v: Value)
    ensures TellsPeople(v, Participants(v))
  {
    hide Accepted, Records, EntriesOf, Collect, EntriesAt, ItemsAt, AcceptedAt, FirstDecides, KeyedAt, PersonSays, At;
    if v.Arr? {
      var at := ItemsAt(ListedParticipant, v.items);
      forall i: nat, k
        ensures Under(at, i, k) <==> ListedAt(v, i, k)
        ensures Under(at, i, k) ==> i < |v.items| && PersonSays(v.items[i], k, at(i).value.1)
      {
        ListedUnder(v, i, k);
      }
      var positions := ItemsAccepted(ListedParticipant, v.items);
      FirstSays(at, |v.items|, Records(ListedParticipant, v.items), positions,
        (i: nat, k: string) => ListedAt(v, i, k),
        (i: nat, k: string, p: Participant) => i < |v.items| && PersonSays(v.items[i], k, p));
    } else if IsPlain(v) {
      forall i: nat, k
        ensures Under(EntriesAt(KeyedParticipant, v), i, k) <==> KeyedAt(v, i, k)
        ensures Under(EntriesAt(KeyedParticipant, v), i, k) ==>
          PersonSays(At(v, i), k, EntriesAt(KeyedParticipant, v)(i).value.1)
      {
        KeyedUnder(v, i, k);
      }
      EntriesSay(KeyedParticipant, v, (i: nat, k: string) => KeyedAt(v, i, k),
        (i: nat, k: string, p: Participant) => PersonSays(At(v, i), k, p));
    } else {
      CollectNothing<Participant>(true);
    }
  }

  /** A voice session needs a channel id, or an id in its place. */
  lemma {:induction false} SessionSays(v: Value)
    ensures SessionOf(v).Some? <==> v.Obj? && v.plain && (Filled(v, "channel_id") || Filled(v, "id"))
    ensures SessionOf(v).Some? ==>
      var s := SessionOf(v).value;
      && (if Filled(v, "channel_id") then Reads(v, "channel_id", s.channelId) else Reads(v, "id", s.channelId))
      && TellsPeople(Read(v, "participants"), s.participants)
      && Choice(v, "security_mode", {"seal", "crowd", "tree", "clear"}, s.securityMode)
      && Choice(v, "connection_state", {"connecting", "connected", "failed", "closed"}, s.connectionState)
      && Flag(v, "self_muted", s.selfMuted) && Flag(v, "turn_unavailable", s.turnUnavailable)
  {
    hide TextOf, OptBool, OneOf, Participants, TellsPeople, Filled, Reads, Choice, Flag;
    ReadText(v, "channel_id");
    ReadText(v, "id");
    ParticipantsSay(Read(v, "participants"));
    ReadChoice(v, "security_mode", SESSION_MODES);
    ReadChoice(v, "connection_state", CONNECTION_STATES);
    ReadFlag(v, "self_muted");
    ReadFlag(v, "turn_unavailable");
  }

  // ----- channels and roles

  /** A channel needs an id, the id of its server, a name and a voice flag. */
  ghost predicate IsChannel(v: Value, serverId: string) {
    && v.Obj? && v.plain && Filled(v, "id") && Reads(v, "server_id", serverId) && Filled(v, "name")
    && "voice" in v.own && v.own["voice"].Bool?
  }

  ghost predicate TellsChannel(v: Value, c: Channel) {
    && Reads(v, "id", c.id) && Reads(v, "server_id", c.serverId) && Reads(v, "name", c.name)
    && Has(v, "voice", Bool(c.voice)) && Tells(v, "created_at", c.createdAt)
    && Choice(v, "kind", {"text", "forum", "announcement"}, c.kind)
    && Tells(v, "topic", c.topic) && Amount(v, "bitrate", c.bitrate) && Amount(v, "user_limit", c.userLimit)
  }

  lemma {:induction false} ChannelSays(v: Value, serverId: string)
    ensures ChannelOf(v, serverId).Some? <==> IsChannel(v, serverId)
    ensures ChannelOf(v, serverId).Some? ==> TellsChannel(v, ChannelOf(v, serverId).value)
  {
    hide TextOf, OptText, OptNumber, OneOf, Filled, Reads, Tells, Choice, Amount;
    ReadText(v, "id");
    ReadText(v, "server_id");
    OnlyText(v, "server_id");
    ReadText(v, "name");
    ReadText(v, "created_at");
    ReadChoice(v, "kind", KINDS);
    ReadText(v, "topic");
    ReadAmount(v, "bitrate");
    ReadAmount(v, "user_limit");
  }

  ghost predicate ChannelAt(v: Value, serverId: string, i: nat, k: string) {
    IsChannel(At(v, i), serverId) && Reads(At(v, i), "id", k)
  }

  lemma {:induction false} ChannelUnder(v: Value, serverId: string, i: nat, k: string)
    ensures Under(EntriesAt(ChannelReader(serverId), v), i, k) <==> ChannelAt(v, serverId, i, k)
    ensures Under(EntriesAt(ChannelReader(serverId), v), i, k) ==>
      TellsChannel(At(v, i), EntriesAt(ChannelReader(serverId), v)(i).value.1)
  {
    hide ChannelOf, IsChannel, Reads;
    ChannelSays(At(v, i), serverId);
    OnlyText(At(v, i), "id");
    NoChannel(serverId);
  }

  lemma {:induction false} NoChannel(serverId: string)
    ensures !IsChannel(Undefined, serverId)
  {
  }

  /** The channels of a server, whose ids must differ. */
  lemma {:induction false} ChannelsSay(v: Value, serverId: string)
    ensures IdsDistinct(ChannelEntries(v, serverId)) <==>
      forall i: nat, j: nat, k :: i < j && ChannelAt(v, serverId, i, k) ==> !ChannelAt(v, serverId, j, k)
    ensures FirstDecides(Collect(true, ChannelEntries(v, serverId)),
      (i: nat, k: string) => ChannelAt(v, serverId, i, k), (i: nat, k: string, c: Channel) => TellsChannel(At(v, i), c))
  {
    hide Accepted, EntriesOf, Collect, EntriesAt, AcceptedAt, ChannelAt, TellsChannel, At, IdsDistinct;
    var at := EntriesAt(ChannelReader(serverId), v);
    forall i: nat, k
      ensures Under(at, i, k) <==> ChannelAt(v, serverId, i, k)
      ensures Under(at, i, k) ==> TellsChannel(At(v, i), at(i).value.1)
    {
      ChannelUnder(v, serverId, i, k);
    }
    if v.Obj? {
      EntriesSay(ChannelReader(serverId), v, (i: nat, k: string) => ChannelAt(v, serverId, i, k),
        (i: nat, k: string, c: Channel) => TellsChannel(At(v, i), c));
      var positions := EntriesAccepted(ChannelReader(serverId), v);
      AcceptedDistinct(at, |v.keys|, Accepted(ChannelReader(serverId), Entries(v)), positions);
    } else {
      NoChannels(v, serverId);
    }
  }

  lemma {:induction false} NoChannels(v: Value, serverId: string)
    requires !v.Obj?
    ensures ChannelEntries(v, serverId) == [] && IdsDistinct(ChannelEntries(v, serverId))
    ensures Collect(true, ChannelEntries(v, serverId)) == Table(true, map[])
    ensures forall i: nat, k :: !ChannelAt(v, serverId, i, k)
  {
  }

  /** A role needs an id and a name. */
  lemma {:induction false} RoleSays(rules: Rules, v: Value)
    ensures RoleOf(rules, v).Some? <==> v.Obj? && v.plain && Filled(v, "id") && Filled(v, "name")
    ensures RoleOf(rules, v).Some? ==>
      var r := RoleOf(rules, v).value;
      && Reads(v, "id", r.id) && Reads(v, "name", r.name)
      && (if "permissions" in v.own && v.own["permissions"].Arr? then ListIs(v.own["permissions"], r.permissions)
          else r.permissions == [])
      && TellsIf(v, "color", rules.safeColor, r.color) && (r.guarded <==> Has(v, "protected", Bool(true)))
  {
    hide TextOf, OptText, Filled, Reads, UniqueTexts, Lists;
    ReadText(v, "id");
    ReadText(v, "name");
    ReadList(v, "permissions");
    ReadText(v, "color");
    var color := OptText(Read(v, "color"));
    assert forall t :: color == Some(t) <==> Reads(v, "color", t);
  }

  // ----- role assignments

  /** The item names a declared role. */
  ghost predicate DeclaredAt(items: seq<Value>, roles: seq<Role>, i: nat, r: string) {
    TextAt(items, i, r) && exists j :: 0 <= j < |roles| && roles[j].id == r
  }

  ghost predicate FirstDeclaredAt(items: seq<Value>, roles: seq<Role>, i: nat, r: string) {
    DeclaredAt(items, roles, i, r) && forall j: nat :: j < i ==> !TextAt(items, j, r)
  }

  /** The declared roles that the items name, at their first occurrence and in that order. */
  ghost predicate Assigns(items: seq<Value>, roles: seq<Role>, ids: seq<string>, at: seq<nat>) {
    && Rising(at) && |at| == |ids| && (forall k :: 0 <= k < |ids| ==> FirstDeclaredAt(items, roles, at[k], ids[k]))
    && (forall i: nat, r :: FirstDeclaredAt(items, roles, i, r) ==> i in at)
  }

  function RoleNamed(roleIds: set<string>): Value -> Option<string> {
    (v: Value) => if TextOf(v) in roleIds then OptText(v) else None
  }

  lemma {:induction false} KnownAreRecords(items: seq<Value>, roleIds: set<string>)
    ensures KnownRoles(items, roleIds) == RecordArray(RoleNamed(roleIds), Itself, items)
  {
    hide RecordArray, FirstCopies, Without, Trim;
    CopiesAreRecords(Known(Texts(items), roleIds), RoleNamed(roleIds), items, |items|);
    assert items[..|items|] == items && Known(Texts(items), roleIds)[..|items|] == Known(Texts(items), roleIds);
  }

  lemma {:induction false} DeclaredIff(roles: seq<Role>, r: string)
    ensures r in ToSet(RoleIds(roles)) <==> exists j :: 0 <= j < |roles| && roles[j].id == r
  {
    if j :| 0 <= j < |roles| && roles[j].id == r {
      assert RoleIds(roles)[j] == r;
    }
  }

  lemma {:induction false} KeptRole(items: seq<Value>, roles: seq<Role>, i: nat)
    ensures Kept(RoleNamed(ToSet(RoleIds(roles))), Itself, items, i) <==>
      i < |items| && FirstDeclaredAt(items, roles, i, TextOf(items[i]))
    ensures forall r :: FirstDeclaredAt(items, roles, i, r) ==> i < |items| && r == TextOf(items[i])
  {
    hide Trim, TextIs, TextOf, ToSet, RoleIds;
    if i < |items| {
      var r := TextOf(items[i]);
      DeclaredIff(roles, r);
      forall t ensures TextAt(items, i, t) <==> r == t && t != "" {
        TextIff(items[i], t);
      }
      forall j: nat | j < i ensures TextAt(items, j, r) <==> TextOf(items[j]) == r && r != "" {
        TextIff(items[j], r);
      }
      FirstNamed(items, ToSet(RoleIds(roles)), i);
    }
  }

  lemma {:induction false} FirstNamed(items: seq<Value>, roleIds: set<string>, i: nat)
    requires i < |items|
    ensures Kept(RoleNamed(roleIds), Itself, items, i) <==>
      && TextOf(items[i]) != "" && TextOf(items[i]) in roleIds
      && forall j :: 0 <= j < i ==> TextOf(items[j]) != TextOf(items[i])
  {
    hide TextOf;
  }

  lemma {:induction false} KnownRolesSay(items: seq<Value>, roles: seq<Role>) returns (at: seq<nat>)
    ensures Assigns(items, roles, KnownRoles(items, ToSet(RoleIds(roles))), at)
  {
    hide KnownRoles, Kept, FirstDeclaredAt, ToSet, RoleIds, TextOf;
    var roleIds := ToSet(RoleIds(roles));
    KnownAreRecords(items, roleIds);
    at := RecordArrayOrder(RoleNamed(roleIds), Itself, items);
    forall i: nat ensures i in at <==> i < |items| && FirstDeclaredAt(items, roles, i, TextOf(items[i])) {
      KeptRole(items, roles, i);
    }
    forall k | 0 <= k < |at| ensures FirstDeclaredAt(items, roles, at[k], KnownRoles(items, roleIds)[k]) {
      assert at[k] in at;
    }
    forall i: nat, r | FirstDeclaredAt(items, roles, i, r) ensures i in at {
      KeptRole(items, roles, i);
    }
  }

  lemma {:induction false} FirstText(items: seq<Value>, i: nat, t: string) returns (f: nat)
    requires TextAt(items, i, t)
    ensures f <= i && FirstTextAt(items, f, t)
  {
    hide TextIs;
    f := 0;
    while !TextAt(items, f, t)
      invariant f <= i && forall j: nat :: j < f ==> !TextAt(items, j, t)
      decreases i - f
    {
      f := f + 1;
    }
  }

  /** An id is listed exactly when some item names it. */
  lemma {:induction false} AssignedIff(items: seq<Value>, roles: seq<Role>, ids: seq<string>, at: seq<nat>, r: string)
    requires Assigns(items, roles, ids, at)
    ensures r in ids <==> exists i: nat :: DeclaredAt(items, roles, i, r)
  {
    hide TextIs, TextOf;
    if r in ids {
      var k: nat :| k < |ids| && ids[k] == r;
      assert DeclaredAt(items, roles, at[k], r);
    }
    if i: nat :| DeclaredAt(items, roles, i, r) {
      var f := FirstText(items, i, r);
      assert FirstDeclaredAt(items, roles, f, r);
      var k: nat :| k < |at| && at[k] == f;
      KeptRole(items, roles, f);
    }
  }

  lemma {:induction false} KnownRolesIff(items: seq<Value>, roles: seq<Role>, r: string)
    ensures r in KnownRoles(items, ToSet(RoleIds(roles))) <==> exists i: nat :: DeclaredAt(items, roles, i, r)
  {
    hide KnownRoles, RoleIds, ToSet, Assigns, DeclaredAt;
    var places := KnownRolesSay(items, roles);
    AssignedIff(items, roles, KnownRoles(items, ToSet(RoleIds(roles))), places, r);
  }

  /** The ids are the declared roles that the items name, each at its first occurrence. */
  ghost predicate Holds(items: seq<Value>, roles: seq<Role>, ids: seq<string>) {
    && (forall r :: r in ids <==> exists i: nat :: DeclaredAt(items, roles, i, r))
    && exists at :: Assigns(items, roles, ids, at)
  }

  lemma {:induction false} AssignedHolds(items: seq<Value>, roles: seq<Role>)
    ensures Holds(items, roles, KnownRoles(items, ToSet(RoleIds(roles))))
  {
    hide KnownRoles, RoleIds, ToSet, Assigns, DeclaredAt;
    var places := KnownRolesSay(items, roles);
    forall r
      ensures r in KnownRoles(items, ToSet(RoleIds(roles))) <==> exists i: nat :: DeclaredAt(items, roles, i, r)
    {
      KnownRolesIff(items, roles, r);
    }
  }

  /** The member's entry is a list that names some declared role. */
  ghost predicate Assignable(v: Value, members: seq<string>, roles: seq<Role>, k: string) {
    && k in members && v.Obj? && k in v.own && v.own[k].Arr?
    && exists i: nat, r :: DeclaredAt(v.own[k].items, roles, i, r)
  }

  lemma {:induction false} AssignableIff(v: Value, members: seq<string>, roles: seq<Role>, k: string)
    ensures Assignable(v, members, roles, k) <==>
      && k in members && v.Obj? && k in v.own && v.own[k].Arr?
      && KnownRoles(v.own[k].items, ToSet(RoleIds(roles))) != []
  {
    hide KnownRoles, RoleIds, ToSet, DeclaredAt;
    if v.Obj? && k in v.own && v.own[k].Arr? {
      var items, ids := v.own[k].items, KnownRoles(v.own[k].items, ToSet(RoleIds(roles)));
      if ids != [] {
        KnownRolesIff(items, roles, ids[0]);
      }
      if i: nat, r :| DeclaredAt(items, roles, i, r) {
        KnownRolesIff(items, roles, r);
      }
    }
  }

  lemma {:induction false} AssignmentUnder(v: Value, members: seq<string>, roles: seq<Role>, i: nat, k: string)
    ensures var at := EntriesAt(AssignmentReader(ToSet(members), ToSet(RoleIds(roles))), v);
      && (Under(at, i, k) <==> v.Obj? && i < |v.keys| && v.keys[i] == k && Assignable(v, members, roles, k))
      && (Under(at, i, k) ==> at(i).value.1 == KnownRoles(v.own[k].items, ToSet(RoleIds(roles))))
  {
    hide KnownRoles, RoleIds, Assignable;
    AssignableIff(v, members, roles, k);
  }

  /** The role assignments of a server, for every key but `__proto__`: exactly the members whose entry is a list naming
      some declared role have one, and it holds the declared roles that the list names, each once, in order of first
      occurrence. An assignment to `__proto__` costs the table its prototype. */
  lemma {:induction false} MemberRolesSay(v: Value, members: seq<string>, roles: seq<Role>)
    requires v.Obj? ==> Enumerates(v.keys, v.own)
    ensures MemberRoles(v, members, roles).Some? <==> v.Obj? && v.plain
    ensures MemberRoles(v, members, roles).Some? ==>
      var t := MemberRoles(v, members, roles).value;
      && (forall k :: k in t.own <==> k != "__proto__" && Assignable(v, members, roles, k))
      && (forall k :: k in t.own ==> Holds(v.own[k].items, roles, t.own[k]))
      && (t.plain <==> !Assignable(v, members, roles, "__proto__"))
  {
    hide Collect, Accepted, EntriesOf, EntriesAt, AcceptedAt, KnownRoles, RoleIds, ToSet, Holds, Assignable;
    if IsPlain(v) {
      var read := AssignmentReader(ToSet(members), ToSet(RoleIds(roles)));
      var at, t := EntriesAt(read, v), Collect(true, Accepted(read, Entries(v)));
      var positions := EntriesAccepted(read, v);
      CollectSays(true, at, |v.keys|, Accepted(read, Entries(v)), positions);
      forall k ensures SomeUnder(at, k) <==> Assignable(v, members, roles, k) {
        SomeAssignment(v, members, roles, k);
      }
      forall k ensures k in t.own <==> k != "__proto__" && SomeUnder(at, k) {
      }
      forall k | k in t.own ensures k in v.own && v.own[k].Arr?
          && t.own[k] == KnownRoles(v.own[k].items, ToSet(RoleIds(roles))) {
        var i: nat :| Under(at, i, k);
        var f := FirstOfSome(at, i, k);
        UnderFirst(at, f, k);
        AssignmentUnder(v, members, roles, f, k);
        AssignableIff(v, members, roles, k);
      }
      forall k | k in t.own ensures Holds(v.own[k].items, roles, t.own[k]) {
        AssignedHolds(v.own[k].items, roles);
      }
    }
  }

  lemma {:induction false} SomeAssignment(v: Value, members: seq<string>, roles: seq<Role>, k: string)
    requires v.Obj? && Enumerates(v.keys, v.own)
    ensures var at := EntriesAt(AssignmentReader(ToSet(members), ToSet(RoleIds(roles))), v);
      SomeUnder(at, k) <==> Assignable(v, members, roles, k)
  {
    hide EntriesAt, Under, RoleIds, ToSet, KnownRoles;
    var at := EntriesAt(AssignmentReader(ToSet(members), ToSet(RoleIds(roles))), v);
    if i: nat :| Under(at, i, k) {
      AssignmentUnder(v, members, roles, i, k);
    }
    if Assignable(v, members, roles, k) {
      var i: nat :| i < |v.keys| && v.keys[i] == k;
      AssignmentUnder(v, members, roles, i, k);
    }
  }

  // ----- arrays of records

  /** The records of the items, each at the first item with its key and in that order. */
  ghost predicate Gathers<T(!new)>(norm: Value -> Option<T>, key: T -> string, items: seq<Value>, ts: seq<T>) {
    exists at :: GathersAt(norm, key, items, ts, at)
  }

  ghost predicate GathersAt<T(!new)>(norm: Value -> Option<T>, key: T -> string, items: seq<Value>, ts: seq<T>,
      at: seq<nat>) {
    && Rising(at) && |at| == |ts| && (forall i: nat :: i in at <==> Kept(norm, key, items, i))
    && (forall k :: 0 <= k < |at| ==> at[k] < |items| && norm(items[at[k]]) == Some(ts[k]))
  }

  lemma {:induction false} ArraySays<T(!new)>(norm: Value -> Option<T>, key: T -> string, like: Value -> Option<T>,
      same: T -> string, items: seq<Value>)
    requires (forall x :: norm(x) == like(x)) && (forall t :: key(t) == same(t))
    ensures Gathers(like, same, items, RecordArray(norm, key, items))
  {
    hide RecordArray, Rising;
    var at := RecordArrayOrder(norm, key, items);
    assert forall i: nat :: Kept(norm, key, items, i) <==> Kept(like, same, items, i);
    assert GathersAt(like, same, items, RecordArray(norm, key, items), at);
  }

  /** The property is an array with these records; anything else counts as an empty one. */
  ghost predicate TellsArray<T(!new)>(v: Value, name: string, norm: Value -> Option<T>, key: T -> string, ts: seq<T>) {
    if Read(v, name).Arr? then Gathers(norm, key, Read(v, name).items, ts) else ts == []
  }

  // ----- servers

  ghost predicate TellsServer(rules: Rules, v: Value, s: Server) {
    && Reads(v, "id", s.id) && Reads(v, "name", s.name) && Reads(v, "owner_peer_id", s.owner)
    && Tells(v, "description", s.description) && Tells(v, "created_at", s.createdAt)
    && Tells(v, "updated_at", s.updatedAt) && TellsList(v, "members", Some(s.members))
    && TellsManifest(v, "manifest", s.manifest) && Choice(v, "channel_security_mode", {"tree", "crowd"}, s.mode)
    && FirstDecides(s.channels, (i: nat, k: string) => ChannelAt(Read(v, "channels"), s.id, i, k),
         (i: nat, k: string, c: Channel) => TellsChannel(At(Read(v, "channels"), i), c))
    && (s.roles.Some? <==> Read(v, "roles").Arr?)
    && TellsArray(v, "roles", x => RoleOf(rules, x), (r: Role) => r.id, if s.roles.Some? then s.roles.value else [])
    && s.memberRoles == MemberRoles(Read(v, "member_roles"), s.members, if s.roles.Some? then s.roles.value else [])
  }

  /** A server needs an id, a name, an owner, some member and, if it has channels, an object with channels of its own
      that all have different ids. */
  lemma {:induction false} ServerSays(rules: Rules, v: Value)
    ensures ServerOf(rules, v).Some? <==>
      && v.Obj? && v.plain && Filled(v, "id") && Filled(v, "name") && Filled(v, "owner_peer_id")
      && Read(v, "members").Arr? && (exists i: nat, m :: TextAt(Read(v, "members").items, i, m))
      && (var x := Read(v, "channels");
          && (x == Undefined || x == Null || (x.Obj? && x.plain))
          && forall id, i: nat, j: nat, k :: Reads(v, "id", id) && i < j && ChannelAt(x, id, i, k) ==>
               !ChannelAt(x, id, j, k))
    ensures ServerOf(rules, v).Some? ==> TellsServer(rules, v, ServerOf(rules, v).value)
  {
    hide TextOf, OptText, OneOf, StringArray, UniqueTexts, ManifestOf, Roles, MemberRoles, ChannelEntries, Collect,
      IdsDistinct, Filled, Reads, Tells, TellsList, TellsManifest, Choice, FirstDecides, ChannelAt, TellsChannel,
      TellsArray, TextAt;
    ReadText(v, "id");
    OnlyText(v, "id");
    ReadText(v, "name");
    ReadText(v, "owner_peer_id");
    ReadText(v, "description");
    ReadText(v, "created_at");
    ReadText(v, "updated_at");
    if Read(v, "members").Arr? {
      SomeMember(v);
    }
    ReadManifest(v, "manifest");
    ReadChoice(v, "channel_security_mode", SERVER_MODES);
    ChannelsSay(Read(v, "channels"), TextOf(Read(v, "id")));
    RolesSay(rules, v);
  }

  lemma {:induction false} SomeMember(v: Value)
    requires Read(v, "members").Arr?
    ensures UniqueTexts(Read(v, "members").items) != [] <==> exists i: nat, m :: TextAt(Read(v, "members").items, i, m)
    ensures TellsList(v, "members", Some(UniqueTexts(Read(v, "members").items)))
  {
    hide UniqueTexts, TextIs;
    var items := Read(v, "members").items;
    ReadList(v, "members");
    var at := UniqueTextsList(items);
    if UniqueTexts(items) != [] {
      assert TextAt(items, at[0], UniqueTexts(items)[0]);
    }
    if i: nat, m :| TextAt(items, i, m) {
      var f := FirstText(items, i, m);
      assert f in at;
    }
  }

  lemma {:induction false} RolesSay(rules: Rules, v: Value)
    ensures Roles(rules, Read(v, "roles")).Some? <==> Read(v, "roles").Arr?
    ensures var roles := Roles(rules, Read(v, "roles"));
      TellsArray(v, "roles", x => RoleOf(rules, x), (r: Role) => r.id, if roles.Some? then roles.value else [])
  {
    hide RecordArray, RoleOf, Gathers;
    if Read(v, "roles").Arr? {
      ArraySays(RoleReader(rules), RoleKey, x => RoleOf(rules, x), (r: Role) => r.id, Read(v, "roles").items);
    }
  }

  // ----- the snapshot

  lemma {:induction false} ReadArray<T(!new)>(v: Value, name: string, norm: Value -> Option<T>, key: T -> string,
      like: Value -> Option<T>, same: T -> string)
    requires (forall x :: norm(x) == like(x)) && (forall t :: key(t) == same(t))
    ensures TellsArray(v, name, like, same, ArrayOf(norm, key, Read(v, name)))
  {
    hide RecordArray, Gathers;
    if Read(v, name).Arr? {
      ArraySays(norm, key, like, same, Read(v, name).items);
    }
  }

  /** The lists of records in a snapshot. */
  ghost predicate TellsRecordLists(rules: Rules, v: Value, s: Snapshot) {
    && TellsArray(v, "known_peers", x => PeerOf(rules, x), (p: Peer) => p.peerId, s.peers)
    && TellsArray(v, "servers", x => ServerOf(rules, x), (t: Server) => t.id, s.servers)
    && TellsArray(v, "dms", x => DmOf(x), (d: Dm) => d.id, s.dms)
    && TellsArray(v, "messages", x => MessageOf(rules, x), (m: Message) => m.id, s.messages)
    && TellsArray(v, "friends", x => FriendOf(x), (f: Friend) => f.id, s.friends)
    && TellsArray(v, "friend_requests", x => FriendOf(x), (f: Friend) => f.id, s.requests)
    && TellsArray(v, "voice_sessions", x => SessionOf(x), (t: Session) => t.channelId, s.sessions)
  }

  lemma {:induction false} RecordListsSay(rules: Rules, v: Value)
    requires SnapshotOf(rules, v).Some?
    ensures TellsRecordLists(rules, v, SnapshotOf(rules, v).value)
  {
    hide ArrayOf, TellsArray, PeerOf, ServerOf, DmOf, MessageOf, FriendOf, SessionOf;
    ReadArray(v, "known_peers", PeerReader(rules), PeerKey, x => PeerOf(rules, x), (p: Peer) => p.peerId);
    ReadArray(v, "servers", ServerReader(rules), ServerKey, x => ServerOf(rules, x), (t: Server) => t.id);
    ReadArray(v, "dms", DmOf, DmKey, x => DmOf(x), (d: Dm) => d.id);
    ReadArray(v, "messages", MessageReader(rules), MessageKey, x => MessageOf(rules, x), (m: Message) => m.id);
    ReadArray(v, "friends", FriendOf, FriendKey, x => FriendOf(x), (f: Friend) => f.id);
    ReadArray(v, "friend_requests", FriendOf, FriendKey, x => FriendOf(x), (f: Friend) => f.id);
    ReadArray(v, "voice_sessions", SessionOf, SessionKey, x => SessionOf(x), (t: Session) => t.channelId);
  }

  /** A missing list counts as an empty one. */
  ghost predicate TellsListOrNone(v: Value, name: string, ts: seq<string>) {
    if Read(v, name).Arr? then TellsList(v, name, Some(ts)) else ts == []
  }

  lemma {:induction false} ReadListOrNone(v: Value, name: string)
    ensures TellsListOrNone(v, name, OrEmpty(StringArray(Read(v, name))))
  {
    hide TellsList, UniqueTexts;
    ReadList(v, name);
  }

  /** Anything but a falsy value gives a snapshot, which holds what its properties tell. */
  lemma {:induction false} SnapshotSays(rules: Rules, v: Value)
    ensures SnapshotOf(rules, v) == None <==>
      v in {Undefined, Null, Bool(false), Str("")} || (v.Num? && v.finite && v.n == 0.0)
    ensures SnapshotOf(rules, v).Some? ==>
      var s := SnapshotOf(rules, v).value;
      && Tells(v, "role", s.role) && Tells(v, "peer_id", s.peerId) && Tells(v, "control_endpoint", s.endpoint)
      && Choice(v, "transport_state", {"connecting", "connected", "disconnected"}, s.transport)
      && s.identity == IdentityOf(rules, Read(v, "identity")) && TellsRecordLists(rules, v, s)
      && TellsListOrNone(v, "joined_server_ids", s.joined) && TellsListOrNone(v, "relay_addrs", s.relays)
      && TellsListOrNone(v, "telemetry", s.telemetry)
      && s.presence == PresenceMap(Read(v, "presence")) && s.settings == StringMap(Read(v, "settings"))
      && (NumberMap(Read(v, "unread")) == if IsPlain(Read(v, "unread")) then Some(s.unread) else None)
      && (!IsPlain(Read(v, "unread")) ==> s.unread == map[])
  {
    hide OptText, OneOf, IdentityOf, ArrayOf, OrEmpty, StringArray, PresenceMap, StringMap, NumberMapOf, Tells, Choice,
      TellsRecordLists, TellsListOrNone;
    ReadText(v, "role");
    ReadText(v, "peer_id");
    ReadText(v, "control_endpoint");
    ReadChoice(v, "transport_state", TRANSPORT_STATES);
    ReadListOrNone(v, "joined_server_ids");
    ReadListOrNone(v, "relay_addrs");
    ReadListOrNone(v, "telemetry");
    if SnapshotOf(rules, v).Some? {
      RecordListsSay(rules, v);
    }
  }
}
