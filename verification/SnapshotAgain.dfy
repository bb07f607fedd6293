/** When normalising a whole snapshot again gives it back: exactly when nothing that was kept had an acceptable
    entry called `__proto__`. */
module SnapshotAgain {
  import opened JsValues
  import opened Outcomes
  import opened RecordLaws
  import opened ServerLaws
  import opened Snapshot
  import opened SnapshotLaws
  import opened SnapshotRecords

  // ----- arrays of records

  lemma {:induction false} ArrayKeysDistinct<T>(norm: Value -> Option<T>, key: T -> string, x: Value)
    ensures KeysDistinct(key, ArrayOf(norm, key, x))
  {
    if x.Arr? {
      DedupKeys(key, Records(norm, x.items));
    }
  }

  lemma {:induction false} ArrayAgainIff<T>(norm: Value -> Option<T>, key: T -> string, x: Value, v: Value)
    requires v.Arr? && |v.items| == |ArrayOf(norm, key, x)|
    ensures ArrayOf(norm, key, v) == ArrayOf(norm, key, x) <==>
      forall i :: 0 <= i < |v.items| ==> norm(v.items[i]) == Some(ArrayOf(norm, key, x)[i])
  {
    hide RecordArray, KeysDistinct;
    ArrayKeysDistinct(norm, key, x);
    RecordArrayAgainIff(norm, key, v.items, ArrayOf(norm, key, x));
  }

  lemma {:induction false} ArrayFrom<T(!new)>(norm: Value -> Option<T>, key: T -> string, x: Value, i: nat)
      returns (j: nat)
    requires i < |ArrayOf(norm, key, x)|
    ensures x.Arr? && Kept(norm, key, x.items, j) && norm(x.items[j]) == Some(ArrayOf(norm, key, x)[i])
  {
    hide RecordArray, Kept;
    var t := ArrayOf(norm, key, x)[i];
    assert t in ArrayOf(norm, key, x);
    RecordArrayIsKept(norm, key, x.items, t);
    j :| Kept(norm, key, x.items, j) && norm(x.items[j]) == Some(t);
  }

  lemma {:induction false} KeptInArray<T(!new)>(norm: Value -> Option<T>, key: T -> string, x: Value, j: nat)
      returns (i: nat)
    requires x.Arr? && Kept(norm, key, x.items, j)
    ensures i < |ArrayOf(norm, key, x)| && norm(x.items[j]) == Some(ArrayOf(norm, key, x)[i])
  {
    hide RecordArray;
    var t := norm(x.items[j]).value;
    RecordArrayIsKept(norm, key, x.items, t);
    i :| 0 <= i < |ArrayOf(norm, key, x)| && ArrayOf(norm, key, x)[i] == t;
  }

  // ----- values that stand for a snapshot

  predicate StandsForPeers(v: Value, peers: seq<Peer>) {
    v.Arr? && |v.items| == |peers| && forall i :: 0 <= i < |peers| ==> StandsForPeer(v.items[i], peers[i])
  }

  ghost predicate StandsForServers(v: Value, servers: seq<Server>) {
    v.Arr? && |v.items| == |servers| && forall i :: 0 <= i < |servers| ==> StandsForServer(v.items[i], servers[i])
  }

  predicate StandsForDms(v: Value, dms: seq<Dm>) {
    v.Arr? && |v.items| == |dms| && forall i :: 0 <= i < |dms| ==> StandsForDm(v.items[i], dms[i])
  }

  ghost predicate StandsForMessages(name: nat -> string, v: Value, ms: seq<Message>) {
    v.Arr? && |v.items| == |ms| && forall i :: 0 <= i < |ms| ==> StandsForMessage(name, v.items[i], ms[i])
  }

  predicate StandsForFriends(v: Value, fs: seq<Friend>) {
    v.Arr? && |v.items| == |fs| && forall i :: 0 <= i < |fs| ==> StandsForFriend(v.items[i], fs[i])
  }

  ghost predicate StandsForSessions(v: Value, sessions: seq<Session>) {
    v.Arr? && |v.items| == |sessions| && forall i :: 0 <= i < |sessions| ==> StandsForSession(v.items[i], sessions[i])
  }

  ghost predicate StandsForSettings(v: Value, m: Option<map<string, string>>) {
    if m.None? then v == Undefined else StandsForStrings(v, m.value)
  }

  ghost predicate StandsForSnapshot(name: nat -> string, v: Value, s: Snapshot) {
    && v.Obj?
    && Read(v, "role") == FromText(s.role)
    && Read(v, "peer_id") == FromText(s.peerId)
    && Read(v, "control_endpoint") == FromText(s.endpoint)
    && Read(v, "transport_state") == FromText(s.transport)
    && StandsForIdentity(Read(v, "identity"), s.identity)
    && StandsForPeers(Read(v, "known_peers"), s.peers)
    && StandsForServers(Read(v, "servers"), s.servers)
    && AreTexts(Read(v, "joined_server_ids"), s.joined)
    && StandsForDms(Read(v, "dms"), s.dms)
    && StandsForMessages(name, Read(v, "messages"), s.messages)
    && StandsForFriends(Read(v, "friends"), s.friends)
    && StandsForFriends(Read(v, "friend_requests"), s.requests)
    && StandsForSessions(Read(v, "voice_sessions"), s.sessions)
    && StandsForPresence(Read(v, "presence"), s.presence)
    && AreTexts(Read(v, "relay_addrs"), s.relays)
    && AreTexts(Read(v, "telemetry"), s.telemetry)
    && StandsForSettings(Read(v, "settings"), s.settings)
    && StandsForNumbers(Read(v, "unread"), s.unread)
  }

  // ----- parts that are always kept

  lemma {:induction false} PeersAgain(rules: Rules, x: Value, v: Value)
    requires StandsForPeers(v, ArrayOf(PeerReader(rules), PeerKey, x))
    ensures ArrayOf(PeerReader(rules), PeerKey, v) == ArrayOf(PeerReader(rules), PeerKey, x)
  {
    hide PeerOf, StandsForPeer, NormalPeer, ArrayOf, Kept;
    var peers := ArrayOf(PeerReader(rules), PeerKey, x);
    forall i | 0 <= i < |peers| ensures PeerReader(rules)(v.items[i]) == Some(peers[i]) {
      var j := ArrayFrom(PeerReader(rules), PeerKey, x, i);
      PeerNormal(rules, x.items[j]);
      PeerAgain(rules, peers[i], v.items[i]);
    }
    ArrayAgainIff(PeerReader(rules), PeerKey, x, v);
  }

  lemma {:induction false} DmsAgain(x: Value, v: Value)
    requires StandsForDms(v, ArrayOf(DmOf, DmKey, x))
    ensures ArrayOf(DmOf, DmKey, v) == ArrayOf(DmOf, DmKey, x)
  {
    hide DmOf, StandsForDm, NormalDm, ArrayOf, Kept;
    var dms := ArrayOf(DmOf, DmKey, x);
    forall i | 0 <= i < |dms| ensures DmOf(v.items[i]) == Some(dms[i]) {
      var j := ArrayFrom(DmOf, DmKey, x, i);
      DmNormal(x.items[j]);
      DmAgain(dms[i], v.items[i]);
    }
    ArrayAgainIff(DmOf, DmKey, x, v);
  }

  lemma {:induction false} MessagesAgain(rules: Rules, name: nat -> string, x: Value, v: Value)
    requires Lawful(rules, name) && StandsForMessages(name, v, ArrayOf(MessageReader(rules), MessageKey, x))
    ensures ArrayOf(MessageReader(rules), MessageKey, v) == ArrayOf(MessageReader(rules), MessageKey, x)
  {
    hide MessageOf, StandsForMessage, NormalMessage, ArrayOf, Kept, Lawful;
    var ms := ArrayOf(MessageReader(rules), MessageKey, x);
    forall i | 0 <= i < |ms| ensures MessageReader(rules)(v.items[i]) == Some(ms[i]) {
      var j := ArrayFrom(MessageReader(rules), MessageKey, x, i);
      MessageNormal(rules, name, x.items[j]);
      MessageAgain(rules, name, ms[i], v.items[i]);
    }
    ArrayAgainIff(MessageReader(rules), MessageKey, x, v);
  }

  lemma {:induction false} FriendsAgain(x: Value, v: Value)
    requires StandsForFriends(v, ArrayOf(FriendOf, FriendKey, x))
    ensures ArrayOf(FriendOf, FriendKey, v) == ArrayOf(FriendOf, FriendKey, x)
  {
    hide FriendOf, StandsForFriend, NormalFriend, ArrayOf, Kept;
    var fs := ArrayOf(FriendOf, FriendKey, x);
    forall i | 0 <= i < |fs| ensures FriendOf(v.items[i]) == Some(fs[i]) {
      var j := ArrayFrom(FriendOf, FriendKey, x, i);
      FriendNormal(x.items[j]);
      FriendAgain(fs[i], v.items[i]);
    }
    ArrayAgainIff(FriendOf, FriendKey, x, v);
  }

  lemma {:induction false} ListsAgain(x: Value, v: Value)
    requires AreTexts(v, OrEmpty(StringArray(x)))
    ensures OrEmpty(StringArray(v)) == OrEmpty(StringArray(x))
  {
    if x.Arr? {
      StringArrayAgain(x, v);
    }
  }

  function Unread(v: Value): map<string, real> {
    var unread := NumberMap(v);
    if unread.Some? then unread.value else map[]
  }

  lemma {:induction false} UnreadAgain(x: Value, v: Value)
    requires StandsForNumbers(v, Unread(x))
    ensures Unread(v) == Unread(x)
  {
    hide NumberMapOf;
    UnreadNormal(x);
    NumberMapKept(Unread(x), v);
  }

  lemma {:induction false} UnreadNormal(x: Value)
    ensures NormalNumbers(Unread(x))
  {
    if IsPlain(x) {
      NumberMapNormal(Entries(x));
    }
  }

  lemma {:induction false} OptTextStays(x: Value)
    ensures OptText(FromText(OptText(x))) == OptText(x)
  {
    OptTextTidy(x);
    OptTextAgain(OptText(x));
  }

  lemma {:induction false} OneOfStays(x: Value, allowed: set<string>)
    ensures OneOf(FromText(OneOf(x, allowed)), allowed) == OneOf(x, allowed)
  {
  }

  // ----- parts that are kept when their tables are intact

  predicate IntactServer(s: Server) {
    s.channels.plain && (s.memberRoles.Some? ==> s.memberRoles.value.plain)
  }

  predicate IntactSession(s: Session) {
    s.participants.plain
  }

  lemma {:induction false} ServerIntactIff(rules: Rules, s: Server, v: Value)
    requires NormalServer(rules, s) && StandsForServer(v, s)
    ensures ServerOf(rules, v) == Some(s) <==> IntactServer(s)
  {
    hide ServerOf, NormalServer, StandsForServer;
    ServerAgain(rules, s, v);
  }

  lemma {:induction false} ServersAgainIff(rules: Rules, x: Value, v: Value)
    requires StandsForServers(v, ArrayOf(ServerReader(rules), ServerKey, x))
    ensures var servers := ArrayOf(ServerReader(rules), ServerKey, x);
      ArrayOf(ServerReader(rules), ServerKey, v) == servers <==>
        forall i :: 0 <= i < |servers| ==> IntactServer(servers[i])
  {
    hide ServerOf, StandsForServer, NormalServer, ArrayOf, Kept, IntactServer;
    var servers := ArrayOf(ServerReader(rules), ServerKey, x);
    forall i | 0 <= i < |servers|
      ensures ServerReader(rules)(v.items[i]) == Some(servers[i]) <==> IntactServer(servers[i])
    {
      var j := ArrayFrom(ServerReader(rules), ServerKey, x, i);
      ServerIsClosed(rules, x.items[j]);
      ServerIntactIff(rules, servers[i], v.items[i]);
    }
    ArrayAgainIff(ServerReader(rules), ServerKey, x, v);
  }

  lemma {:induction false} SessionsAgainIff(x: Value, v: Value)
    requires StandsForSessions(v, ArrayOf(SessionOf, SessionKey, x))
    ensures var sessions := ArrayOf(SessionOf, SessionKey, x);
      ArrayOf(SessionOf, SessionKey, v) == sessions <==> forall i :: 0 <= i < |sessions| ==> IntactSession(sessions[i])
  {
    hide SessionOf, StandsForSession, NormalSession, ArrayOf, Kept;
    var sessions := ArrayOf(SessionOf, SessionKey, x);
    forall i | 0 <= i < |sessions| ensures SessionOf(v.items[i]) == Some(sessions[i]) <==> IntactSession(sessions[i]) {
      var j := ArrayFrom(SessionOf, SessionKey, x, i);
      SessionNormal(x.items[j]);
      SessionAgainIff(sessions[i], v.items[i]);
    }
    ArrayAgainIff(SessionOf, SessionKey, x, v);
  }

  lemma {:induction false} SettingsAgainIff(x: Value, v: Value)
    requires StandsForSettings(v, StringMap(x))
    ensures StringMap(v) == StringMap(x) <==> (StringMap(x).Some? ==> StringMap(x).value != map[])
  {
    hide StringMap;
    if StringMap(x).Some? {
      StringMapNormal(x);
      StringMapKept(StringMap(x).value, v);
    } else {
      NothingFromUndefined();
    }
  }

  lemma {:induction false} PresenceAgainIff(x: Value, v: Value)
    requires StandsForPresence(v, PresenceMap(x))
    ensures PresenceMap(v) == PresenceMap(x) <==> (PresenceMap(x).Some? ==> PresenceMap(x).value.plain)
  {
    hide PresenceMap, NormalPresence;
    if PresenceMap(x).Some? {
      PresenceNormal(x);
      PresenceKept(PresenceMap(x).value, v);
    } else {
      NothingFromUndefined();
    }
  }

  lemma {:induction false} NothingFromUndefined()
    ensures StringMap(Undefined) == None && PresenceMap(Undefined) == None
  {
  }

  // ----- the condition on the input

  /** Some entry that the reader accepts is called `__proto__`. */
  ghost predicate AcceptsProto<V(!new)>(read: ((string, Value)) -> Option<(string, V)>, entries: seq<(string, Value)>) {
    exists j :: 0 <= j < |entries| && read(entries[j]).Some? && read(entries[j]).value.0 == PROTO
  }

  ghost predicate Free<V(!new)>(read: ((string, Value)) -> Option<(string, V)>, v: Value) {
    IsPlain(v) ==> !AcceptsProto(read, Entries(v))
  }

  lemma {:induction false} AcceptedAt<V>(
      read: ((string, Value)) -> Option<(string, V)>, entries: seq<(string, Value)>, j: nat) returns (i: nat)
    requires j < |entries| && read(entries[j]).Some?
    ensures i < |Accepted(read, entries)| && Accepted(read, entries)[i] == read(entries[j]).value
    decreases |entries|
  {
    var n := |entries| - 1;
    if j < n {
      i := AcceptedAt(read, entries[..n], j);
    } else {
      i := |Accepted(read, entries)| - 1;
    }
  }

  lemma {:induction false} TablePlainIff<V(!new)>(read: ((string, Value)) -> Option<(string, V)>,
      entries: seq<(string, Value)>)
    ensures Collect(true, Accepted(read, entries)).plain <==> !AcceptsProto(read, entries)
  {
    hide Collect, Accepted;
    var accepted := Accepted(read, entries);
    CollectHolds(true, accepted);
    if !Collect(true, accepted).plain {
      var i: nat :| i < |accepted| && accepted[i].0 == PROTO;
      var j := AcceptedFrom(read, entries, i);
    }
    if AcceptsProto(read, entries) {
      var j: nat :| j < |entries| && read(entries[j]).Some? && read(entries[j]).value.0 == PROTO;
      var i := AcceptedAt(read, entries, j);
    }
  }

  ghost predicate FreeServer(rules: Rules, v: Value)
    requires ServerOf(rules, v).Some?
  {
    var s := ServerOf(rules, v).value;
    && Free(ChannelReader(s.id), Read(v, "channels"))
    && Free(AssignmentReader(ToSet(s.members), ToSet(RoleIds(RolesOf(s)))), Read(v, "member_roles"))
  }

  ghost predicate FreeParticipants(v: Value) {
    if v.Arr? then forall i :: 0 <= i < |v.items| ==> TextOf(Field(v.items[i], "peer_id")) != PROTO
    else Free(KeyedParticipant, v)
  }

  /** There is no acceptable setting, or one that is not called `__proto__`. */
  ghost predicate FreeSettings(v: Value) {
    IsPlain(v) ==>
      forall j :: 0 <= j < |Entries(v)| && StringEntry(Entries(v)[j]).Some? ==>
        exists k :: 0 <= k < |Entries(v)| && StringEntry(Entries(v)[k]).Some?
          && StringEntry(Entries(v)[k]).value.0 != PROTO
  }

  ghost predicate FreeServers(rules: Rules, v: Value) {
    v.Arr? ==> forall i: nat :: Kept(ServerReader(rules), ServerKey, v.items, i) ==> FreeServer(rules, v.items[i])
  }

  ghost predicate FreeSessions(v: Value) {
    v.Arr? ==> forall i: nat :: Kept(SessionOf, SessionKey, v.items, i) ==>
      FreeParticipants(Read(v.items[i], "participants"))
  }

  /** In what normalisation keeps of the value, no acceptable channel, role assignment, participant or presence entry is
      called `__proto__`, nor are all acceptable settings. */
  ghost predicate ProtoFree(rules: Rules, x: Value) {
    && FreeServers(rules, Read(x, "servers"))
    && FreeSessions(Read(x, "voice_sessions"))
    && Free(PresenceEntry, Read(x, "presence"))
    && FreeSettings(Read(x, "settings"))
  }

  lemma {:induction false} ServerFreeIff(rules: Rules, v: Value)
    requires ServerOf(rules, v).Some?
    ensures IntactServer(ServerOf(rules, v).value) <==> FreeServer(rules, v)
  {
    hide Collect, Accepted, EntriesOf, AcceptsProto, TextOf, OptText, UniqueTexts, Roles, ToSet, RoleIds,
      ManifestOf, IdsDistinct;
    var s := ServerOf(rules, v).value;
    var channels, assignments := Read(v, "channels"), Read(v, "member_roles");
    CollectNothing<Channel>(true);
    if IsPlain(channels) {
      TablePlainIff(ChannelReader(s.id), Entries(channels));
    }
    if IsPlain(assignments) {
      TablePlainIff(AssignmentReader(ToSet(s.members), ToSet(RoleIds(RolesOf(s)))), Entries(assignments));
    }
  }

  lemma {:induction false} ParticipantsFreeIff(v: Value)
    ensures Participants(v).plain <==> FreeParticipants(v)
  {
    hide Collect, Accepted, EntriesOf, AcceptsProto, KeyedParticipant, Records;
    CollectNothing<Participant>(true);
    if v.Arr? {
      ListedFreeIff(v.items);
    } else if IsPlain(v) {
      TablePlainIff(KeyedParticipant, Entries(v));
    }
  }

  lemma {:induction false} ListedFreeIff(items: seq<Value>)
    ensures Collect(true, Records(ListedParticipant, items)).plain <==>
      forall i :: 0 <= i < |items| ==> TextOf(Field(items[i], "peer_id")) != PROTO
  {
    hide Collect, Records, TextOf, Field, ParticipantOf;
    var listed := Records(ListedParticipant, items);
    CollectHolds(true, listed);
    if !Collect(true, listed).plain {
      var i: nat :| i < |listed| && listed[i].0 == PROTO;
      var j := RecordsFrom(ListedParticipant, items, listed[i]);
    }
    if i: nat :| i < |items| && TextOf(Field(items[i], "peer_id")) == PROTO {
      var k := RecordAt(ListedParticipant, items, i);
    }
  }

  lemma {:induction false} RecordAt<T>(norm: Value -> Option<T>, items: seq<Value>, j: nat) returns (i: nat)
    requires j < |items| && norm(items[j]).Some?
    ensures i < |Records(norm, items)| && Records(norm, items)[i] == norm(items[j]).value
    decreases |items|
  {
    var n := |items| - 1;
    if j < n {
      i := RecordAt(norm, items[..n], j);
    } else {
      i := |Records(norm, items)| - 1;
    }
  }

  lemma {:induction false} SessionParticipants(v: Value)
    requires SessionOf(v).Some?
    ensures SessionOf(v).value.participants == Participants(Read(v, "participants"))
  {
    hide Participants;
  }

  lemma {:induction false} ServersFreeIff(rules: Rules, v: Value)
    ensures var servers := ArrayOf(ServerReader(rules), ServerKey, v);
      (forall i :: 0 <= i < |servers| ==> IntactServer(servers[i])) <==> FreeServers(rules, v)
  {
    hide ServerOf, ArrayOf, IntactServer, FreeServer, Kept;
    var servers := ArrayOf(ServerReader(rules), ServerKey, v);
    if FreeServers(rules, v) {
      forall i | 0 <= i < |servers| ensures IntactServer(servers[i]) {
        var j := ArrayFrom(ServerReader(rules), ServerKey, v, i);
        ServerFreeIff(rules, v.items[j]);
      }
    }
    if v.Arr? && forall i :: 0 <= i < |servers| ==> IntactServer(servers[i]) {
      forall j: nat | Kept(ServerReader(rules), ServerKey, v.items, j) ensures FreeServer(rules, v.items[j]) {
        var i := KeptInArray(ServerReader(rules), ServerKey, v, j);
        ServerFreeIff(rules, v.items[j]);
      }
    }
  }

  lemma {:induction false} SessionsFreeIff(v: Value)
    ensures var sessions := ArrayOf(SessionOf, SessionKey, v);
      (forall i :: 0 <= i < |sessions| ==> IntactSession(sessions[i])) <==> FreeSessions(v)
  {
    hide SessionOf, ArrayOf, FreeParticipants, Participants, Kept;
    var sessions := ArrayOf(SessionOf, SessionKey, v);
    if FreeSessions(v) {
      forall i | 0 <= i < |sessions| ensures IntactSession(sessions[i]) {
        var j := ArrayFrom(SessionOf, SessionKey, v, i);
        SessionParticipants(v.items[j]);
        ParticipantsFreeIff(Read(v.items[j], "participants"));
      }
    }
    if v.Arr? && forall i :: 0 <= i < |sessions| ==> IntactSession(sessions[i]) {
      forall j: nat | Kept(SessionOf, SessionKey, v.items, j)
        ensures FreeParticipants(Read(v.items[j], "participants"))
      {
        var i := KeptInArray(SessionOf, SessionKey, v, j);
        assert SessionOf(v.items[j]).Some?;
        SessionParticipants(v.items[j]);
        ParticipantsFreeIff(Read(v.items[j], "participants"));
      }
    }
  }

  lemma {:induction false} PresenceFreeIff(v: Value)
    ensures (PresenceMap(v).Some? ==> PresenceMap(v).value.plain) <==> Free(PresenceEntry, v)
  {
    hide Collect, Accepted, EntriesOf, AcceptsProto, PresenceEntry;
    CollectNothing<Value>(true);
    if IsPlain(v) {
      TablePlainIff(PresenceEntry, Entries(v));
    }
  }

  lemma {:induction false} SettingsFreeIff(v: Value)
    ensures (StringMap(v).Some? ==> StringMap(v).value != map[]) <==> FreeSettings(v)
  {
    hide Collect, Accepted, EntriesOf, StringEntry;
    if IsPlain(v) {
      var accepted := Accepted(StringEntry, Entries(v));
      var own := Collect(false, accepted).own;
      CollectHolds(false, accepted);
      if own != map[] {
        var k :| k in own;
        var i := CollectFrom(false, accepted, k);
        var j := AcceptedFrom(StringEntry, Entries(v), i);
      }
      forall j | 0 <= j < |Entries(v)| && StringEntry(Entries(v)[j]).Some?
        ensures accepted != [] && (StringEntry(Entries(v)[j]).value.0 != PROTO ==> own != map[])
      {
        var i := AcceptedAt(StringEntry, Entries(v), j);
        if accepted[i].0 != PROTO {
          CollectKeys(false, accepted, i);
        }
      }
      if accepted != [] {
        var j := AcceptedFrom(StringEntry, Entries(v), 0);
      }
    }
  }

  // ----- the whole snapshot

  /** Normalising a normalised snapshot gives it back exactly when the value it came from was free of `__proto__`. */
  lemma {:induction false} SnapshotAgainIff(rules: Rules, name: nat -> string, x: Value, v: Value)
    requires Lawful(rules, name)
    requires SnapshotOf(rules, x).Some? && StandsForSnapshot(name, v, SnapshotOf(rules, x).value)
    ensures SnapshotOf(rules, v) == SnapshotOf(rules, x) <==> ProtoFree(rules, x)
  {
    hide ArrayOf, PresenceMap, StringMap, NumberMap, StringArray, IdentityOf, OptText, OneOf, FromText,
      TRANSPORT_STATES, Read, IntactServer, IntactSession, StandsForIdentity, StandsForPeers, StandsForServers,
      StandsForDms, StandsForMessages, StandsForFriends, StandsForSessions, StandsForPresence, StandsForSettings,
      StandsForNumbers, AreTexts, FreeServers, FreeSessions, Free, FreeSettings, Lawful;
    OptTextStays(Read(x, "role"));
    OptTextStays(Read(x, "peer_id"));
    OptTextStays(Read(x, "control_endpoint"));
    OneOfStays(Read(x, "transport_state"), TRANSPORT_STATES);
    IdentityNormal(rules, Read(x, "identity"));
    IdentityAgain(rules, IdentityOf(rules, Read(x, "identity")), Read(v, "identity"));
    PeersAgain(rules, Read(x, "known_peers"), Read(v, "known_peers"));
    ServersAgainIff(rules, Read(x, "servers"), Read(v, "servers"));
    ServersFreeIff(rules, Read(x, "servers"));
    ListsAgain(Read(x, "joined_server_ids"), Read(v, "joined_server_ids"));
    DmsAgain(Read(x, "dms"), Read(v, "dms"));
    MessagesAgain(rules, name, Read(x, "messages"), Read(v, "messages"));
    FriendsAgain(Read(x, "friends"), Read(v, "friends"));
    FriendsAgain(Read(x, "friend_requests"), Read(v, "friend_requests"));
    SessionsAgainIff(Read(x, "voice_sessions"), Read(v, "voice_sessions"));
    SessionsFreeIff(Read(x, "voice_sessions"));
    PresenceAgainIff(Read(x, "presence"), Read(v, "presence"));
    PresenceFreeIff(Read(x, "presence"));
    ListsAgain(Read(x, "relay_addrs"), Read(v, "relay_addrs"));
    ListsAgain(Read(x, "telemetry"), Read(v, "telemetry"));
    SettingsAgainIff(Read(x, "settings"), Read(v, "settings"));
    SettingsFreeIff(Read(x, "settings"));
    UnreadAgain(Read(x, "unread"), Read(v, "unread"));
  }
}
