/** Every normalised snapshot is the reading of some value, so the statements about normalising again are never void. */
module SnapshotValues {
  import opened JsValues
  import opened Outcomes
  import opened RecordLaws
  import opened Sequences
  import opened ServerLaws
  import opened Snapshot
  import opened SnapshotAgain
  import opened SnapshotLaws
  import opened SnapshotRecords

  lemma {:induction false} KeysOf<V(!new)>(own: map<string, V>) returns (keys: seq<string>)
    ensures Enumerates(keys, own)
    decreases |own|
  {
    if own == map[] {
      keys := [];
    } else {
      var k :| k in own;
      var rest := KeysOf(own - {k});
      keys := [k] + rest;
      DistinctCons(k, rest);
    }
  }

  /** A record's object; the enumeration order of its fields does not matter. */
  function Record(own: map<string, Value>): Value {
    Obj(true, own, [])
  }

  lemma {:induction false} TextsValue(ss: seq<string>) returns (v: Value)
    ensures AreTexts(v, ss)
  {
    v := Arr(seq(|ss|, i requires 0 <= i < |ss| => Str(ss[i])));
  }

  lemma {:induction false} TableValue<V(!new)>(t: Table<V>, vals: map<string, Value>) returns (v: Value)
    requires vals.Keys == t.own.Keys
    ensures v.Obj? && v.plain == t.plain && v.own == vals && SameKeys(v, t.own)
  {
    var keys := KeysOf(vals);
    v := Obj(t.plain, vals, keys);
  }

  lemma {:induction false} ListValue(ss: Option<seq<string>>) returns (v: Value)
    ensures StandsForList(v, ss)
  {
    v := Undefined;
    if ss.Some? {
      v := TextsValue(ss.value);
    }
  }

  // ----- records without tables

  lemma {:induction false} ProfileValue(p: Option<Profile>) returns (v: Value)
    ensures StandsForProfile(v, p)
  {
    hide FromText;
    v := if p.None? then Undefined else Record(map[
      "display_name" := FromText(p.value.displayName), "bio" := FromText(p.value.bio),
      "avatar" := FromText(p.value.avatar)]);
  }

  lemma {:induction false} IdentityValue(i: Option<Identity>) returns (v: Value)
    ensures StandsForIdentity(v, i)
  {
    hide FromText, StandsForProfile;
    v := Undefined;
    if i.Some? {
      var profile := ProfileValue(i.value.profile);
      v := Record(map[
        "id" := FromText(i.value.id), "peer_id" := Str(i.value.peerId),
        "public_key" := FromText(i.value.publicKey), "created_at" := FromText(i.value.createdAt),
        "profile" := profile]);
    }
  }

  lemma {:induction false} PeerValue(p: Peer) returns (v: Value)
    ensures StandsForPeer(v, p)
  {
    hide FromText, StandsForList;
    var addresses := ListValue(p.addresses);
    v := Record(map[
      "peer_id" := Str(p.peerId), "role" := FromText(p.role), "addresses" := addresses,
      "public_key" := FromText(p.publicKey), "source" := FromText(p.source),
      "last_seen_at" := FromText(p.lastSeenAt), "display_name" := FromText(p.displayName),
      "avatar" := FromText(p.avatar)]);
  }

  lemma {:induction false} PeersValue(ps: seq<Peer>) returns (v: Value)
    ensures StandsForPeers(v, ps)
  {
    hide StandsForPeer;
    forall i | 0 <= i < |ps| ensures exists w :: StandsForPeer(w, ps[i]) {
      var w := PeerValue(ps[i]);
    }
    v := Arr(seq(|ps|, i requires 0 <= i < |ps| => var w :| StandsForPeer(w, ps[i]); w));
  }

  lemma {:induction false} DmValue(d: Dm) returns (v: Value)
    ensures StandsForDm(v, d)
  {
    hide FromText, AreTexts;
    var participants := TextsValue(d.participants);
    v := Record(map["id" := Str(d.id), "participants" := participants, "created_at" := FromText(d.createdAt)]);
  }

  lemma {:induction false} DmsValue(ds: seq<Dm>) returns (v: Value)
    ensures StandsForDms(v, ds)
  {
    hide StandsForDm;
    forall i | 0 <= i < |ds| ensures exists w :: StandsForDm(w, ds[i]) {
      var w := DmValue(ds[i]);
    }
    v := Arr(seq(|ds|, i requires 0 <= i < |ds| => var w :| StandsForDm(w, ds[i]); w));
  }

  lemma {:induction false} ReactionValue(r: Reaction) returns (v: Value)
    ensures StandsForReaction(v, r)
  {
    v := Record(map["emoji" := Str(r.emoji), "count" := Num(r.count, r.finite), "reacted" := Bool(r.reacted)]);
  }

  lemma {:induction false} ReactionsValue(rs: Option<seq<Reaction>>) returns (v: Value)
    ensures StandsForReactions(v, rs)
  {
    hide StandsForReaction;
    v := Undefined;
    if rs.Some? {
      forall i | 0 <= i < |rs.value| ensures exists w :: StandsForReaction(w, rs.value[i]) {
        var w := ReactionValue(rs.value[i]);
      }
      v := Arr(seq(|rs.value|, i requires 0 <= i < |rs.value| => var w :| StandsForReaction(w, rs.value[i]); w));
    }
  }

  lemma {:induction false} TallyValue(index: string -> Option<nat>, name: nat -> string,
      votes: Option<map<nat, seq<string>>>)
      returns (v: Value)
    requires ReadsPrinted(index, name) && NormalTally(index, votes)
    ensures StandsForTally(name, v, votes)
  {
    hide AreTexts;
    v := Undefined;
    if votes.Some? {
      var names := set n | n in votes.value :: name(n);
      forall n: nat | n in votes.value ensures index(name(n)) == Some(n) && exists w :: AreTexts(w, votes.value[n]) {
        var w := TextsValue(votes.value[n]);
      }
      var vals := map k | k in names :: var w :| AreTexts(w, votes.value[index(k).value]); w;
      v := TableValue(Table(true, vals), vals);
    }
  }

  function MessageRecord(m: Message, reactions: Value, votes: Value): Value {
    Record(map[
      "id" := Str(m.id), "scope_type" := Str(m.scopeType), "scope_id" := Str(m.scopeId),
      "sender_peer_id" := Str(m.sender), "body" := Str(m.body), "server_id" := FromText(m.serverId),
      "reply_to" := FromText(m.replyTo), "forwarded_from" := FromText(m.forwardedFrom), "reactions" := reactions,
      "media" := (if m.media.None? then Undefined else Arr(m.media.value)), "created_at" := FromText(m.createdAt),
      "updated_at" := FromText(m.updatedAt), "deleted" := FromBool(m.deleted), "pinned" := FromBool(m.pinned),
      "delivery_status" := FromText(m.deliveryStatus), "security_mode" := FromText(m.securityMode),
      "encrypted" := FromBool(m.encrypted), "poll_votes" := votes])
  }

  lemma {:induction false} MessageRecordTexts(m: Message, reactions: Value, votes: Value)
    ensures var v := MessageRecord(m, reactions, votes);
      && Read(v, "id") == Str(m.id)
      && Read(v, "scope_type") == Str(m.scopeType)
      && Read(v, "scope_id") == Str(m.scopeId)
  {
    hide FromText, FromBool;
  }

  lemma {:induction false} MessageRecordBody(m: Message, reactions: Value, votes: Value)
    ensures var v := MessageRecord(m, reactions, votes);
      && Read(v, "sender_peer_id") == Str(m.sender)
      && Read(v, "body") == Str(m.body)
      && Read(v, "server_id") == FromText(m.serverId)
  {
    hide FromText, FromBool;
  }

  lemma {:induction false} MessageRecordParts(m: Message, reactions: Value, votes: Value)
    ensures var v := MessageRecord(m, reactions, votes);
      && Read(v, "reply_to") == FromText(m.replyTo)
      && Read(v, "forwarded_from") == FromText(m.forwardedFrom)
      && Read(v, "reactions") == reactions
  {
    hide FromText, FromBool;
  }

  lemma {:induction false} MessageRecordTimes(m: Message, reactions: Value, votes: Value)
    ensures var v := MessageRecord(m, reactions, votes);
      && Read(v, "media") == (if m.media.None? then Undefined else Arr(m.media.value))
      && Read(v, "created_at") == FromText(m.createdAt)
      && Read(v, "updated_at") == FromText(m.updatedAt)
  {
    hide FromText, FromBool;
  }

  lemma {:induction false} MessageRecordFlags(m: Message, reactions: Value, votes: Value)
    ensures var v := MessageRecord(m, reactions, votes);
      && Read(v, "deleted") == FromBool(m.deleted)
      && Read(v, "pinned") == FromBool(m.pinned)
      && Read(v, "delivery_status") == FromText(m.deliveryStatus)
      && Read(v, "security_mode") == FromText(m.securityMode)
      && Read(v, "encrypted") == FromBool(m.encrypted)
      && Read(v, "poll_votes") == votes
  {
    hide FromText, FromBool;
  }

  lemma {:induction false} MessageValue(rules: Rules, name: nat -> string, m: Message) returns (v: Value)
    requires ReadsPrinted(rules.index, name) && NormalTally(rules.index, m.pollVotes)
    ensures StandsForMessage(name, v, m)
  {
    var reactions := ReactionsValue(m.reactions);
    var votes := TallyValue(rules.index, name, m.pollVotes);
    v := MessageRecord(m, reactions, votes);
    assert IsPlain(v);
    hide FromText, FromBool, StandsForReactions, StandsForTally, Read, MessageRecord, ReadsPrinted;
    MessageRecordTexts(m, reactions, votes);
    MessageRecordBody(m, reactions, votes);
    MessageRecordParts(m, reactions, votes);
    MessageRecordTimes(m, reactions, votes);
    MessageRecordFlags(m, reactions, votes);
  }

  /** The votes of the messages are under numbers that can be read. */
  ghost predicate NormalTallies(rules: Rules, ms: seq<Message>) {
    forall i :: 0 <= i < |ms| ==> NormalTally(rules.index, ms[i].pollVotes)
  }

  lemma {:induction false} MessagesValue(rules: Rules, name: nat -> string, ms: seq<Message>) returns (v: Value)
    requires ReadsPrinted(rules.index, name) && NormalTallies(rules, ms)
    ensures StandsForMessages(name, v, ms)
  {
    hide StandsForMessage, ReadsPrinted, NormalTally;
    forall i | 0 <= i < |ms| ensures exists w :: StandsForMessage(name, w, ms[i]) {
      var w := MessageValue(rules, name, ms[i]);
    }
    v := Arr(seq(|ms|, i requires 0 <= i < |ms| => var w :| StandsForMessage(name, w, ms[i]); w));
  }

  lemma {:induction false} FriendValue(f: Friend) returns (v: Value)
    ensures StandsForFriend(v, f)
  {
    hide FromText;
    v := Record(map[
      "id" := Str(f.id), "from_peer_id" := Str(f.fromPeerId), "status" := Str(f.status),
      "to_peer_id" := FromText(f.toPeerId), "to_peer_addr" := FromText(f.toPeerAddr),
      "delivery_status" := FromText(f.deliveryStatus), "created_at" := FromText(f.createdAt),
      "expires_at" := FromText(f.expiresAt)]);
  }

  lemma {:induction false} FriendsValue(fs: seq<Friend>) returns (v: Value)
    ensures StandsForFriends(v, fs)
  {
    hide StandsForFriend;
    forall i | 0 <= i < |fs| ensures exists w :: StandsForFriend(w, fs[i]) {
      var w := FriendValue(fs[i]);
    }
    v := Arr(seq(|fs|, i requires 0 <= i < |fs| => var w :| StandsForFriend(w, fs[i]); w));
  }

  lemma {:induction false} ManifestValue(m: Option<Manifest>) returns (v: Value)
    ensures StandsForManifest(v, m)
  {
    hide FromText, FromNumber, StandsForList;
    v := Undefined;
    if m.Some? {
      var owners := ListValue(m.value.ownerAddresses);
      var bootstrap := ListValue(m.value.bootstrapAddrs);
      var relays := ListValue(m.value.relayAddrs);
      var capabilities := ListValue(m.value.capabilities);
      v := Record(map[
        "name" := FromText(m.value.name), "description" := FromText(m.value.description),
        "owner_addresses" := owners, "bootstrap_addrs" := bootstrap, "relay_addrs" := relays,
        "capabilities" := capabilities, "security_mode" := FromText(m.value.securityMode),
        "history_coverage" := FromText(m.value.historyCoverage),
        "history_retention_messages" := FromNumber(m.value.historyRetention),
        "join_history_messages" := FromNumber(m.value.joinHistory)]);
    }
  }

  // ----- voice sessions

  lemma {:induction false} ParticipantValue(p: Participant) returns (v: Value)
    ensures StandsForParticipant(v, p)
  {
    hide FromText, FromBool;
    v := Record(map[
      "peer_id" := Str(p.peerId), "muted" := FromBool(p.muted), "joined_at" := FromText(p.joinedAt),
      "last_frame_at" := FromText(p.lastFrameAt), "video" := FromBool(p.video),
      "screen_sharing" := FromBool(p.screenSharing), "speaking" := FromBool(p.speaking),
      "connection_state" := FromText(p.connectionState)]);
  }

  lemma {:induction false} ParticipantsValue(t: Table<Participant>) returns (v: Value)
    ensures StandsForParticipants(v, t)
  {
    hide StandsForParticipant;
    forall k | k in t.own ensures exists w :: StandsForParticipant(w, t.own[k]) {
      var w := ParticipantValue(t.own[k]);
    }
    var vals := map k | k in t.own :: var w :| StandsForParticipant(w, t.own[k]); w;
    v := TableValue(t, vals);
  }

  lemma {:induction false} SessionValue(s: Session) returns (v: Value)
    ensures StandsForSession(v, s)
  {
    hide FromText, FromBool, StandsForParticipants;
    var participants := ParticipantsValue(s.participants);
    v := Record(map[
      "channel_id" := Str(s.channelId), "participants" := participants,
      "security_mode" := FromText(s.securityMode), "connection_state" := FromText(s.connectionState),
      "self_muted" := FromBool(s.selfMuted), "turn_unavailable" := FromBool(s.turnUnavailable)]);
  }

  lemma {:induction false} SessionsValue(ss: seq<Session>) returns (v: Value)
    ensures StandsForSessions(v, ss)
  {
    hide StandsForSession;
    forall i | 0 <= i < |ss| ensures exists w :: StandsForSession(w, ss[i]) {
      var w := SessionValue(ss[i]);
    }
    v := Arr(seq(|ss|, i requires 0 <= i < |ss| => var w :| StandsForSession(w, ss[i]); w));
  }

  // ----- servers

  lemma {:induction false} ChannelValue(c: Channel) returns (v: Value)
    ensures StandsForChannel(v, c)
  {
    hide FromText, FromNumber;
    v := Record(map[
      "id" := Str(c.id), "server_id" := Str(c.serverId), "name" := Str(c.name), "voice" := Bool(c.voice),
      "created_at" := FromText(c.createdAt), "kind" := FromText(c.kind), "topic" := FromText(c.topic),
      "bitrate" := FromNumber(c.bitrate), "user_limit" := FromNumber(c.userLimit)]);
  }

  lemma {:induction false} ChannelsValue(t: Table<Channel>) returns (v: Value)
    ensures StandsForChannels(v, t)
  {
    hide StandsForChannel;
    forall k | k in t.own ensures exists w :: StandsForChannel(w, t.own[k]) {
      var w := ChannelValue(t.own[k]);
    }
    var vals := map k | k in t.own :: var w :| StandsForChannel(w, t.own[k]); w;
    v := TableValue(t, vals);
  }

  lemma {:induction false} RoleValue(r: Role) returns (v: Value)
    ensures StandsForRole(v, r)
  {
    hide FromText, AreTexts;
    var permissions := TextsValue(r.permissions);
    v := Record(map[
      "id" := Str(r.id), "name" := Str(r.name), "permissions" := permissions, "color" := FromText(r.color),
      "protected" := if r.guarded then Bool(true) else Undefined]);
  }

  lemma {:induction false} RolesValue(roles: Option<seq<Role>>) returns (v: Value)
    ensures StandsForRoles(v, roles)
  {
    hide StandsForRole;
    if roles.Some? {
      forall i | 0 <= i < |roles.value| ensures exists w :: StandsForRole(w, roles.value[i]) {
        var w := RoleValue(roles.value[i]);
      }
    }
    v := if roles.None? then Undefined
         else Arr(seq(|roles.value|,
           i requires 0 <= i < |roles.value| => var w :| StandsForRole(w, roles.value[i]); w));
  }

  lemma {:induction false} MemberRolesValue(t: Option<Table<seq<string>>>) returns (v: Value)
    ensures StandsForMemberRoles(v, t)
  {
    hide AreTexts;
    v := Undefined;
    if t.Some? {
      forall k | k in t.value.own ensures exists w :: AreTexts(w, t.value.own[k]) {
        var w := TextsValue(t.value.own[k]);
      }
      var vals := map k | k in t.value.own :: var w :| AreTexts(w, t.value.own[k]); w;
      v := TableValue(t.value, vals);
    }
  }

  lemma {:induction false} ServerValue(s: Server) returns (v: Value)
    ensures StandsForServer(v, s)
  {
    hide FromText, AreTexts, StandsForChannels, StandsForRoles, StandsForMemberRoles, StandsForManifest;
    var manifest := ManifestValue(s.manifest);
    var members := TextsValue(s.members);
    var channels := ChannelsValue(s.channels);
    var roles := RolesValue(s.roles);
    var memberRoles := MemberRolesValue(s.memberRoles);
    v := Record(map[
      "id" := Str(s.id), "name" := Str(s.name), "description" := FromText(s.description),
      "owner_peer_id" := Str(s.owner), "members" := members, "channels" := channels,
      "created_at" := FromText(s.createdAt), "updated_at" := FromText(s.updatedAt), "manifest" := manifest,
      "roles" := roles, "member_roles" := memberRoles, "channel_security_mode" := FromText(s.mode)]);
  }

  lemma {:induction false} ServersValue(ss: seq<Server>) returns (v: Value)
    ensures StandsForServers(v, ss)
  {
    hide StandsForServer;
    forall i | 0 <= i < |ss| ensures exists w :: StandsForServer(w, ss[i]) {
      var w := ServerValue(ss[i]);
    }
    v := Arr(seq(|ss|, i requires 0 <= i < |ss| => var w :| StandsForServer(w, ss[i]); w));
  }

  // ----- the snapshot

  lemma {:induction false} StringsValue(m: map<string, string>) returns (v: Value)
    ensures StandsForStrings(v, m)
  {
    v := TableValue(Table(true, m), map k | k in m :: Str(m[k]));
  }

  lemma {:induction false} NumbersValue(m: map<string, real>) returns (v: Value)
    ensures StandsForNumbers(v, m)
  {
    v := TableValue(Table(true, m), map k | k in m :: Num(m[k], true));
  }

  lemma {:induction false} PresenceValue(t: Option<Table<Value>>) returns (v: Value)
    ensures StandsForPresence(v, t)
  {
    v := Undefined;
    if t.Some? {
      v := TableValue(t.value, t.value.own);
    }
  }

  lemma {:induction false} SettingsValue(m: Option<map<string, string>>) returns (v: Value)
    ensures StandsForSettings(v, m)
  {
    v := Undefined;
    if m.Some? {
      v := StringsValue(m.value);
    }
  }

  /** The values of a snapshot's parts, in the order of its fields. */
  datatype Parts = Parts(
    identity: Value, peers: Value, servers: Value, joined: Value, dms: Value, messages: Value, friends: Value,
    requests: Value, sessions: Value, presence: Value, relays: Value, telemetry: Value, settings: Value,
    unread: Value)

  function SnapshotRecord(s: Snapshot, p: Parts): Value {
    Record(map[
      "role" := FromText(s.role), "peer_id" := FromText(s.peerId), "control_endpoint" := FromText(s.endpoint),
      "transport_state" := FromText(s.transport), "identity" := p.identity, "known_peers" := p.peers,
      "servers" := p.servers, "joined_server_ids" := p.joined, "dms" := p.dms, "messages" := p.messages,
      "friends" := p.friends, "friend_requests" := p.requests, "voice_sessions" := p.sessions,
      "presence" := p.presence, "relay_addrs" := p.relays, "telemetry" := p.telemetry, "settings" := p.settings,
      "unread" := p.unread])
  }

  lemma {:induction false} SnapshotRecordHead(s: Snapshot, p: Parts)
    ensures var v := SnapshotRecord(s, p);
      && Read(v, "role") == FromText(s.role)
      && Read(v, "peer_id") == FromText(s.peerId)
      && Read(v, "control_endpoint") == FromText(s.endpoint)
      && Read(v, "transport_state") == FromText(s.transport)
      && Read(v, "identity") == p.identity
      && Read(v, "known_peers") == p.peers
  {
    hide FromText;
  }

  lemma {:induction false} SnapshotRecordBody(s: Snapshot, p: Parts)
    ensures var v := SnapshotRecord(s, p);
      && Read(v, "servers") == p.servers
      && Read(v, "joined_server_ids") == p.joined
      && Read(v, "dms") == p.dms
      && Read(v, "messages") == p.messages
      && Read(v, "friends") == p.friends
      && Read(v, "friend_requests") == p.requests
  {
    hide FromText;
  }

  lemma {:induction false} SnapshotRecordTail(s: Snapshot, p: Parts)
    ensures var v := SnapshotRecord(s, p);
      && Read(v, "voice_sessions") == p.sessions
      && Read(v, "presence") == p.presence
      && Read(v, "relay_addrs") == p.relays
      && Read(v, "telemetry") == p.telemetry
      && Read(v, "settings") == p.settings
      && Read(v, "unread") == p.unread
  {
    hide FromText;
  }

  /** Some value stands for any given snapshot record whose votes are under numbers that can be read. */
  lemma {:induction false} SnapshotValue(rules: Rules, name: nat -> string, s: Snapshot) returns (v: Value)
    requires ReadsPrinted(rules.index, name) && NormalTallies(rules, s.messages)
    ensures StandsForSnapshot(name, v, s)
  {
    var identity := IdentityValue(s.identity);
    var peers := PeersValue(s.peers);
    var servers := ServersValue(s.servers);
    var joined := TextsValue(s.joined);
    var dms := DmsValue(s.dms);
    var messages := MessagesValue(rules, name, s.messages);
    var friends := FriendsValue(s.friends);
    var requests := FriendsValue(s.requests);
    var sessions := SessionsValue(s.sessions);
    var presence := PresenceValue(s.presence);
    var relays := TextsValue(s.relays);
    var telemetry := TextsValue(s.telemetry);
    var settings := SettingsValue(s.settings);
    var unread := NumbersValue(s.unread);
    var p := Parts(identity, peers, servers, joined, dms, messages, friends, requests, sessions, presence, relays,
      telemetry, settings, unread);
    v := SnapshotRecord(s, p);
    assert v.Obj?;
    hide FromText, StandsForIdentity, StandsForPeers, StandsForServers, StandsForDms, StandsForMessages,
      StandsForFriends, StandsForSessions, StandsForPresence, StandsForSettings, StandsForNumbers, AreTexts,
      ReadsPrinted, Read, SnapshotRecord;
    SnapshotRecordHead(s, p);
    SnapshotRecordBody(s, p);
    SnapshotRecordTail(s, p);
  }

  lemma {:induction false} MessageTally(rules: Rules, x: Value)
    requires MessageOf(rules, x).Some?
    ensures NormalTally(rules.index, MessageOf(rules, x).value.pollVotes)
  {
    hide PollVotes, NormalTally, Reactions, Attachments;
    TallyNormal(rules, Read(x, "poll_votes"));
  }

  lemma {:induction false} ArrayTallies(rules: Rules, x: Value)
    ensures NormalTallies(rules, ArrayOf(MessageReader(rules), MessageKey, x))
  {
    hide MessageOf, ArrayOf, Kept, NormalTally;
    var ms := ArrayOf(MessageReader(rules), MessageKey, x);
    forall i | 0 <= i < |ms| ensures NormalTally(rules.index, ms[i].pollVotes) {
      var j := ArrayFrom(MessageReader(rules), MessageKey, x, i);
      MessageTally(rules, x.items[j]);
    }
  }

  /** Some value stands for the result of any normalisation. */
  lemma {:induction false} ResultValue(rules: Rules, name: nat -> string, x: Value) returns (v: Value)
    requires ReadsPrinted(rules.index, name) && SnapshotOf(rules, x).Some?
    ensures StandsForSnapshot(name, v, SnapshotOf(rules, x).value)
  {
    hide ReadsPrinted, NormalTallies, StandsForSnapshot;
    ArrayTallies(rules, Read(x, "messages"));
    v := SnapshotValue(rules, name, SnapshotOf(rules, x).value);
  }
}
