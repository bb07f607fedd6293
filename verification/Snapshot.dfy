/** The runtime snapshot normalisers: from any JSON-like value to closed, trimmed, duplicate-free records. */
module Snapshot {
  import opened JsText
  import opened JsValues
  import opened Outcomes
  import opened Sequences
  import opened SnapshotRecords

  // ----- maps of primitives

  function StringEntry(entry: (string, Value)): Option<(string, string)> {
    var key, text := Trim(entry.0), TextOf(entry.1);
    if key != "" && text != "" then Some((key, text)) else None
  }

  /** The results of a reader over the entries, without the ones it skips. */
  function Accepted<V>(read: ((string, Value)) -> Option<(string, V)>,
      entries: seq<(string, Value)>): seq<(string, V)> {
    if entries == [] then []
    else
      var before := Accepted(read, entries[..|entries| - 1]);
      var one := read(entries[|entries| - 1]);
      if one.None? then before else before + [one.value]
  }

  lemma {:induction false} AcceptedStep<V>(read: ((string, Value)) -> Option<(string, V)>,
      entries: seq<(string, Value)>, i: nat)
    requires i < |entries|
    ensures Accepted(read, entries[..i + 1]) ==
      Accepted(read, entries[..i]) + if read(entries[i]).Some? then [read(entries[i]).value] else []
  {
    assert entries[..i + 1][..i] == entries[..i];
  }

  /** `normalizeRuntimeStringMap`. Nothing is left when no entry is accepted; assigning a string to `__proto__` does
      nothing. */
  function StringMap(v: Value): Option<map<string, string>> {
    if !IsPlain(v) then None
    else
      var entries := Accepted(StringEntry, Entries(v));
      if entries == [] then None else Some(Collect(false, entries).own)
  }

  /** A number map's entries are assigned without looking for the key first. */
  function NumberMapOf(entries: seq<(string, Value)>): map<string, real> {
    if entries == [] then map[]
    else
      var before := NumberMapOf(entries[..|entries| - 1]);
      var entry := entries[|entries| - 1];
      var key, n := Trim(entry.0), OptNumber(entry.1);
      if key != "" && key != PROTO && n.Some? && n.value > 0.0 then before[key := n.value] else before
  }

  /** `normalizeRuntimeNumberMap`. */
  function NumberMap(v: Value): Option<map<string, real>> {
    if !IsPlain(v) then None else Some(NumberMapOf(Entries(v)))
  }

  method NormalizeNumberMap(v: Value) returns (result: Option<map<string, real>>)
    ensures result == NumberMap(v)
  {
    if !IsPlain(v) {
      return None;
    }
    var entries := Entries(v);
    var normalized: map<string, real> := map[];
    for i := 0 to |entries|
      invariant normalized == NumberMapOf(entries[..i])
    {
      assert entries[..i + 1][..i] == entries[..i];
      var k := Trim(entries[i].0);
      var n := if entries[i].1.Num? && entries[i].1.finite then entries[i].1.n else 0.0;
      if k != "" && n > 0.0 && k != PROTO {
        normalized := normalized[k := n];
      }
    }
    assert entries[..|entries|] == entries;
    return Some(normalized);
  }

  // ----- presence

  predicate PresenceRecord(v: Value) {
    IsPlain(v) && Read(v, "status").Str? && Read(v, "updated_at").Str?
  }

  function PresenceEntry(entry: (string, Value)): Option<(string, Value)> {
    if Trim(entry.0) != "" && PresenceRecord(entry.1) then Some((Trim(entry.0), entry.1)) else None
  }

  function PresenceMap(v: Value): Option<Table<Value>> {
    if !IsPlain(v) then None
    else
      var entries := Accepted(PresenceEntry, Entries(v));
      if entries == [] then None else Some(Collect(true, entries))
  }

  // ----- voice sessions

  datatype Participant = Participant(
    peerId: string, muted: Option<bool>, joinedAt: Option<string>, lastFrameAt: Option<string>,
    video: Option<bool>, screenSharing: Option<bool>, speaking: Option<bool>, connectionState: Option<string>)

  /** The fields are read only from a plain object. */
  function Field(v: Value, name: string): Value {
    if IsPlain(v) then Read(v, name) else Undefined
  }

  function ParticipantOf(v: Value, fallback: string): Participant {
    var peerId := TextOf(Field(v, "peer_id"));
    Participant(
      if peerId != "" then peerId else fallback,
      OptBool(Field(v, "muted")),
      OptText(Field(v, "joined_at")),
      OptText(Field(v, "last_frame_at")),
      OptBool(Field(v, "video")),
      OptBool(Field(v, "screen_sharing")),
      OptBool(Field(v, "speaking")),
      OptText(Field(v, "connection_state")))
  }

  function KeyedParticipant(entry: (string, Value)): Option<(string, Participant)> {
    var key, peerId := Trim(entry.0), TextOf(Field(entry.1, "peer_id"));
    if key == "" || (peerId != "" && peerId != key) then None else Some((key, ParticipantOf(entry.1, key)))
  }

  function ListedParticipant(v: Value): Option<(string, Participant)> {
    var peerId := TextOf(Field(v, "peer_id"));
    if peerId == "" then None else Some((peerId, ParticipantOf(v, peerId)))
  }

  function ParticipantEntries(v: Value): seq<(string, Participant)> {
    if v.Arr? then Records(ListedParticipant, v.items)
    else if IsPlain(v) then Accepted(KeyedParticipant, Entries(v))
    else []
  }

  function Participants(v: Value): Table<Participant> {
    Collect(true, ParticipantEntries(v))
  }

  /** `normalizeRuntimeVoiceParticipantMap`: a list of participants or an object keyed by peer id. */
  method NormalizeParticipants(v: Value) returns (normalized: Table<Participant>)
    ensures normalized == Participants(v)
  {
    hide Records, Accepted, Collect, Assign, ParticipantOf, Field, TextOf, EntriesOf;
    normalized := Table(true, map[]);
    CollectNothing<Participant>(true);
    if v.Arr? {
      NothingListed(v.items);
      for i := 0 to |v.items|
        invariant normalized == Collect(true, Records(ListedParticipant, v.items[..i]))
      {
        RecordsStep(ListedParticipant, v.items, i);
        ghost var before := Records(ListedParticipant, v.items[..i]);
        assert before + [] == before;
        var entry := v.items[i];
        var peerId := TextOf(Field(entry, "peer_id"));
        if peerId != "" {
          CollectSnoc(true, before, peerId, ParticipantOf(entry, peerId));
          AssignOnce(true, normalized, peerId, ParticipantOf(entry, peerId));
          if peerId !in normalized.own {
            normalized := Assign(true, normalized, peerId, ParticipantOf(entry, peerId));
          }
        }
      }
      assert v.items[..|v.items|] == v.items;
    } else if IsPlain(v) {
      var entries := Entries(v);
      NothingAccepted(entries);
      for i := 0 to |entries|
        invariant normalized == Collect(true, Accepted(KeyedParticipant, entries[..i]))
      {
        AcceptedStep(KeyedParticipant, entries, i);
        ghost var before := Accepted(KeyedParticipant, entries[..i]);
        assert before + [] == before;
        var entry := entries[i];
        var key, peerId := Trim(entry.0), TextOf(Field(entry.1, "peer_id"));
        if key == "" || (peerId != "" && peerId != key) {
          continue;
        }
        CollectSnoc(true, before, key, ParticipantOf(entry.1, key));
        AssignOnce(true, normalized, key, ParticipantOf(entry.1, key));
        if key !in normalized.own {
          normalized := Assign(true, normalized, key, ParticipantOf(entry.1, key));
        }
      }
      assert entries[..|entries|] == entries;
    }
  }

  lemma {:induction false} NothingListed(items: seq<Value>)
    ensures Records(ListedParticipant, items[..0]) == []
  {
  }

  lemma {:induction false} NothingAccepted(entries: seq<(string, Value)>)
    ensures Accepted(KeyedParticipant, entries[..0]) == []
  {
  }

  datatype Session = Session(
    channelId: string, participants: Table<Participant>, securityMode: Option<string>,
    connectionState: Option<string>, selfMuted: Option<bool>, turnUnavailable: Option<bool>)

  const SESSION_MODES: set<string> := {"seal", "crowd", "tree", "clear"}
  const CONNECTION_STATES: set<string> := {"connecting", "connected", "failed", "closed"}

  function SessionOf(v: Value): Option<Session> {
    if !IsPlain(v) then None
    else
      var named, id := TextOf(Read(v, "channel_id")), TextOf(Read(v, "id"));
      var channelId := if named != "" then named else id;
      if channelId == "" then None
      else Some(Session(
        channelId,
        Participants(Read(v, "participants")),
        OneOf(Read(v, "security_mode"), SESSION_MODES),
        OneOf(Read(v, "connection_state"), CONNECTION_STATES),
        OptBool(Read(v, "self_muted")),
        OptBool(Read(v, "turn_unavailable"))))
  }

  function SessionKey(s: Session): string {
    s.channelId
  }

  // ----- servers

  datatype Channel = Channel(
    id: string, serverId: string, name: string, voice: bool, createdAt: Option<string>, kind: Option<string>,
    topic: Option<string>, bitrate: Option<real>, userLimit: Option<real>)

  const KINDS: set<string> := {"text", "forum", "announcement"}

  function ChannelOf(v: Value, serverId: string): Option<Channel> {
    if !IsPlain(v) then None
    else
      var id, owner, name := TextOf(Read(v, "id")), TextOf(Read(v, "server_id")), TextOf(Read(v, "name"));
      var voice := Read(v, "voice");
      if id == "" || owner == "" || owner != serverId || name == "" || !voice.Bool? then None
      else Some(Channel(
        id, owner, name, voice.b,
        OptText(Read(v, "created_at")),
        OneOf(Read(v, "kind"), KINDS),
        OptText(Read(v, "topic")),
        OptNumber(Read(v, "bitrate")),
        OptNumber(Read(v, "user_limit"))))
  }

  datatype Role = Role(id: string, name: string, permissions: seq<string>, color: Option<string>, guarded: bool)

  function RoleOf(rules: Rules, v: Value): Option<Role> {
    if !IsPlain(v) then None
    else
      var id, name := TextOf(Read(v, "id")), TextOf(Read(v, "name"));
      var permissions, color := Read(v, "permissions"), OptText(Read(v, "color"));
      if id == "" || name == "" then None
      else Some(Role(
        id, name,
        if permissions.Arr? then UniqueTexts(permissions.items) else [],
        if color.Some? && rules.safeColor(color.value) then color else None,
        Read(v, "protected") == Bool(true)))
  }

  function RoleReader(rules: Rules): Value -> Option<Role> {
    v => RoleOf(rules, v)
  }

  function RoleKey(r: Role): string {
    r.id
  }

  function Roles(rules: Rules, v: Value): Option<seq<Role>> {
    if v.Arr? then Some(RecordArray(RoleReader(rules), RoleKey, v.items)) else None
  }

  function RoleIds(roles: seq<Role>): (r: seq<string>)
    ensures |r| == |roles| && forall i :: 0 <= i < |roles| ==> r[i] == roles[i].id
  {
    if roles == [] then [] else [roles[0].id] + RoleIds(roles[1..])
  }

  /** The declared roles among the listed ones. */
  function KnownRoles(items: seq<Value>, roleIds: set<string>): seq<string> {
    FirstCopies(Without(Known(Texts(items), roleIds), {""}))
  }

  function Known(ss: seq<string>, roleIds: set<string>): (r: seq<string>)
    ensures |r| == |ss|
    ensures forall i :: 0 <= i < |ss| ==> r[i] == if ss[i] in roleIds then ss[i] else ""
  {
    if ss == [] then [] else [if ss[0] in roleIds then ss[0] else ""] + Known(ss[1..], roleIds)
  }

  function AssignmentOf(members: set<string>, roleIds: set<string>,
      entry: (string, Value)): Option<(string, seq<string>)> {
    if entry.0 !in members || !entry.1.Arr? then None
    else
      var normalized := KnownRoles(entry.1.items, roleIds);
      if normalized == [] then None else Some((entry.0, normalized))
  }

  function AssignmentReader(members: set<string>, roleIds: set<string>):
      ((string, Value)) -> Option<(string, seq<string>)> {
    entry => AssignmentOf(members, roleIds, entry)
  }

  function ToSet(ss: seq<string>): set<string> {
    set s | s in ss
  }

  function MemberRoles(v: Value, members: seq<string>, roles: seq<Role>): Option<Table<seq<string>>> {
    if !IsPlain(v) then None
    else Some(Collect(true, Accepted(AssignmentReader(ToSet(members), ToSet(RoleIds(roles))), Entries(v))))
  }

  /** `normalizeRuntimeMemberRoles`: the keys of an object are distinct, so assigning never finds its key. */
  method NormalizeMemberRoles(v: Value, members: seq<string>, roles: seq<Role>)
      returns (result: Option<Table<seq<string>>>)
    requires v.Obj? ==> Distinct(v.keys)
    ensures result == MemberRoles(v, members, roles)
  {
    hide Accepted, Collect, AssignmentOf, KnownRoles, EntriesOf, ToSet, RoleIds;
    if !IsPlain(v) {
      return None;
    }
    var memberIds, roleIds := ToSet(members), ToSet(RoleIds(roles));
    ghost var read := AssignmentReader(memberIds, roleIds);
    var entries := Entries(v);
    EntriesDistinct(v.keys, v.own);
    NothingAssigned(read, entries);
    var assignments: Table<seq<string>> := Table(true, map[]);
    for i := 0 to |entries|
      invariant assignments == Collect(true, Accepted(read, entries[..i]))
      invariant forall k :: k in assignments.own ==> exists j :: 0 <= j < i && entries[j].0 == k
    {
      AcceptedStep(read, entries, i);
      AssignmentRead(memberIds, roleIds, entries[i]);
      ghost var before := Accepted(read, entries[..i]);
      assert before + [] == before;
      var entry := entries[i];
      if entry.0 !in memberIds || !entry.1.Arr? {
        continue;
      }
      var normalized := KnownRoles(entry.1.items, roleIds);
      if normalized != [] {
        CollectSnoc(true, before, entry.0, normalized);
        assert entry.0 !in assignments.own;
        assignments := if entry.0 == PROTO then assignments.(plain := false)
          else assignments.(own := assignments.own[entry.0 := normalized]);
      }
    }
    assert entries[..|entries|] == entries;
    return Some(assignments);
  }

  lemma {:induction false} NothingAssigned<V>(read: ((string, Value)) -> Option<(string, V)>,
      entries: seq<(string, Value)>)
    ensures Collect(true, Accepted(read, entries[..0])) == Table(true, map[])
  {
  }

  lemma {:induction false} AssignmentRead(members: set<string>, roleIds: set<string>, entry: (string, Value))
    ensures AssignmentReader(members, roleIds)(entry) ==
      if entry.0 !in members || !entry.1.Arr? || KnownRoles(entry.1.items, roleIds) == [] then None
      else Some((entry.0, KnownRoles(entry.1.items, roleIds)))
  {
    hide KnownRoles;
  }

  lemma {:induction false} EntriesDistinct(keys: seq<string>, own: map<string, Value>)
    requires Distinct(keys)
    ensures forall i, j :: 0 <= i < j < |EntriesOf(keys, own)| ==>
      EntriesOf(keys, own)[i].0 != EntriesOf(keys, own)[j].0
    ensures forall i :: 0 <= i < |EntriesOf(keys, own)| ==> EntriesOf(keys, own)[i].0 in keys
    decreases |keys|
  {
    if keys != [] {
      var n := |keys| - 1;
      EntriesDistinct(keys[..n], own);
      assert keys[n] !in keys[..n];
    }
  }

  datatype Server = Server(
    id: string, name: string, description: Option<string>, owner: string, members: seq<string>,
    channels: Table<Channel>, createdAt: Option<string>, updatedAt: Option<string>, manifest: Option<Manifest>,
    roles: Option<seq<Role>>, memberRoles: Option<Table<seq<string>>>, mode: Option<string>)

  function ChannelReader(serverId: string): ((string, Value)) -> Option<(string, Channel)> {
    (entry: (string, Value)) =>
      var channel := ChannelOf(entry.1, serverId);
      if channel.None? then None else Some((channel.value.id, channel.value))
  }

  /** The accepted channels under their ids; missing channels count as none. */
  function ChannelEntries(v: Value, serverId: string): seq<(string, Channel)> {
    if v.Obj? then Accepted(ChannelReader(serverId), Entries(v)) else []
  }

  predicate IdsDistinct<V>(entries: seq<(string, V)>) {
    forall i, j :: 0 <= i < j < |entries| ==> entries[i].0 != entries[j].0
  }

  function ServerOf(rules: Rules, v: Value): Option<Server> {
    if !IsPlain(v) then None
    else
      var id, name, owner := TextOf(Read(v, "id")), TextOf(Read(v, "name")), TextOf(Read(v, "owner_peer_id"));
      var listed, channels := Read(v, "members"), Read(v, "channels");
      if id == "" || name == "" || owner == "" || !listed.Arr?
        || !(channels.Undefined? || channels.Null? || IsPlain(channels)) then None
      else
        var entries := ChannelEntries(channels, id);
        var members := UniqueTexts(listed.items);
        if !IdsDistinct(entries) || members == [] then None
        else
          var roles := Roles(rules, Read(v, "roles"));
          Some(Server(
            id, name,
            OptText(Read(v, "description")),
            owner, members,
            Collect(true, entries),
            OptText(Read(v, "created_at")),
            OptText(Read(v, "updated_at")),
            ManifestOf(Read(v, "manifest")),
            roles,
            MemberRoles(Read(v, "member_roles"), members, if roles.Some? then roles.value else []),
            OneOf(Read(v, "channel_security_mode"), SERVER_MODES)))
  }

  function ServerReader(rules: Rules): Value -> Option<Server> {
    v => ServerOf(rules, v)
  }

  function ServerKey(s: Server): string {
    s.id
  }

  // ----- the snapshot

  const TRANSPORT_STATES: set<string> := {"connecting", "connected", "disconnected"}

  datatype Snapshot = Snapshot(
    role: Option<string>, peerId: Option<string>, endpoint: Option<string>, transport: Option<string>,
    identity: Option<Identity>, peers: seq<Peer>, servers: seq<Server>, joined: seq<string>, dms: seq<Dm>,
    messages: seq<Message>, friends: seq<Friend>, requests: seq<Friend>, sessions: seq<Session>,
    presence: Option<Table<Value>>, relays: seq<string>, telemetry: seq<string>,
    settings: Option<map<string, string>>, unread: map<string, real>)

  function OrEmpty<T>(list: Option<seq<T>>): seq<T> {
    if list.Some? then list.value else []
  }

  /** The records of an array, or none if there is no array. */
  function ArrayOf<T>(norm: Value -> Option<T>, key: T -> string, v: Value): seq<T> {
    if v.Arr? then RecordArray(norm, key, v.items) else []
  }

  predicate Falsy(v: Value) {
    v == Undefined || v == Null || v == Bool(false) || v == Str("") || (v.Num? && v.finite && v.n == 0.0)
  }

  /** `normalizeInjectedRuntimeSnapshot`. */
  function SnapshotOf(rules: Rules, v: Value): Option<Snapshot> {
    if Falsy(v) then None
    else
      var unread := NumberMap(Read(v, "unread"));
      Some(Snapshot(
        OptText(Read(v, "role")),
        OptText(Read(v, "peer_id")),
        OptText(Read(v, "control_endpoint")),
        OneOf(Read(v, "transport_state"), TRANSPORT_STATES),
        IdentityOf(rules, Read(v, "identity")),
        ArrayOf(PeerReader(rules), PeerKey, Read(v, "known_peers")),
        ArrayOf(ServerReader(rules), ServerKey, Read(v, "servers")),
        OrEmpty(StringArray(Read(v, "joined_server_ids"))),
        ArrayOf(DmOf, DmKey, Read(v, "dms")),
        ArrayOf(MessageReader(rules), MessageKey, Read(v, "messages")),
        ArrayOf(FriendOf, FriendKey, Read(v, "friends")),
        ArrayOf(FriendOf, FriendKey, Read(v, "friend_requests")),
        ArrayOf(SessionOf, SessionKey, Read(v, "voice_sessions")),
        PresenceMap(Read(v, "presence")),
        OrEmpty(StringArray(Read(v, "relay_addrs"))),
        OrEmpty(StringArray(Read(v, "telemetry"))),
        StringMap(Read(v, "settings")),
        if unread.Some? then unread.value else map[]))
  }
}
