/** The records of the runtime snapshot that hold no table of objects: identity, peers, direct messages, messages,
    friends and a server's manifest. */
module SnapshotRecords {
  import opened JsText
  import opened JsValues
  import opened Outcomes

  /** What the normalisers ask other modules: whether a colour or an avatar is acceptable, the copy of an acceptable
      attachment, and the whole number a property name reads as. */
  datatype Rules = Rules(
    safeColor: string -> bool, safeAvatar: string -> bool, attachment: Value -> Option<Value>,
    index: string -> Option<nat>)

  /** The own entries of an object in enumeration order. */
  function Entries(v: Value): seq<(string, Value)>
    requires v.Obj?
  {
    EntriesOf(v.keys, v.own)
  }

  function EntriesOf(keys: seq<string>, own: map<string, Value>): seq<(string, Value)> {
    if keys == [] then []
    else
      var before := EntriesOf(keys[..|keys| - 1], own);
      var key := keys[|keys| - 1];
      if key in own then before + [(key, own[key])] else before
  }

  // ----- parts

  function StringArray(v: Value): Option<seq<string>> {
    if v.Arr? then Some(UniqueTexts(v.items)) else None
  }

  /** A string that is not empty, as it is. */
  function RawText(v: Value): Option<string> {
    if v.Str? && v.s != "" then Some(v.s) else None
  }

  function Avatar(rules: Rules, v: Value): Option<string> {
    var text := OptText(v);
    if text.Some? && rules.safeAvatar(text.value) then text else None
  }

  predicate AllTexts(v: Value) {
    v.Arr? && forall i :: 0 <= i < |v.items| ==> TextOf(v.items[i]) != ""
  }

  function NonEmpty<T>(list: seq<T>): Option<seq<T>> {
    if list == [] then None else Some(list)
  }

  function VoterOf(v: Value): Option<string> {
    if v.Str? && Trim(v.s) != "" then Some(v.s) else None
  }

  /** The voters that are not blank, as they are. */
  function Voters(items: seq<Value>): seq<string> {
    Records(VoterOf, items)
  }

  /** `index` reads a property name as a whole number that is not negative. */
  function PollVotesOf(index: string -> Option<nat>, entries: seq<(string, Value)>): map<nat, seq<string>> {
    if entries == [] then map[]
    else
      var before := PollVotesOf(index, entries[..|entries| - 1]);
      var entry := entries[|entries| - 1];
      var option := index(entry.0);
      if option.Some? && entry.1.Arr? && Voters(entry.1.items) != [] then before[option.value := Voters(entry.1.items)]
        else before
  }

  /** `normalizeRuntimePollVotes`: any object will do, and no vote at all is no result. */
  function PollVotes(index: string -> Option<nat>, v: Value): Option<map<nat, seq<string>>> {
    if !v.Obj? then None
    else
      var votes := PollVotesOf(index, Entries(v));
      if votes == map[] then None else Some(votes)
  }

  method NormalizePollVotes(index: string -> Option<nat>, v: Value) returns (result: Option<map<nat, seq<string>>>)
    ensures result == PollVotes(index, v)
  {
    if !v.Obj? {
      return None;
    }
    var entries := Entries(v);
    var out: map<nat, seq<string>> := map[];
    var any := false;
    for i := 0 to |entries|
      invariant out == PollVotesOf(index, entries[..i])
      invariant any <==> out != map[]
    {
      assert entries[..i + 1][..i] == entries[..i];
      var option := index(entries[i].0);
      if option.None? || !entries[i].1.Arr? {
        continue;
      }
      var peers := Voters(entries[i].1.items);
      if peers == [] {
        continue;
      }
      out := out[option.value := peers];
      any := true;
      assert option.value in out;
    }
    assert entries[..|entries|] == entries;
    return if any then Some(out) else None;
  }

  // ----- identity

  datatype Profile = Profile(displayName: Option<string>, bio: Option<string>, avatar: Option<string>)

  function ProfileOf(rules: Rules, v: Value): Option<Profile> {
    if !IsPlain(v) then None
    else
      var profile := Profile(OptText(Read(v, "display_name")), OptText(Read(v, "bio")),
        Avatar(rules, Read(v, "avatar")));
      if profile == Profile(None, None, None) then None else Some(profile)
  }

  datatype Identity = Identity(
    id: Option<string>, peerId: string, publicKey: Option<string>, createdAt: Option<string>,
    profile: Option<Profile>)

  function IdentityOf(rules: Rules, v: Value): Option<Identity> {
    if !IsPlain(v) then None
    else
      var peerId := TextOf(Read(v, "peer_id"));
      if peerId == "" then None
      else Some(Identity(
        OptText(Read(v, "id")), peerId, OptText(Read(v, "public_key")), OptText(Read(v, "created_at")),
        ProfileOf(rules, Read(v, "profile"))))
  }

  // ----- peers

  datatype Peer = Peer(
    peerId: string, role: Option<string>, addresses: Option<seq<string>>, publicKey: Option<string>,
    source: Option<string>, lastSeenAt: Option<string>, displayName: Option<string>, avatar: Option<string>)

  function PeerOf(rules: Rules, v: Value): Option<Peer> {
    if !IsPlain(v) then None
    else
      var peerId, addresses := TextOf(Read(v, "peer_id")), Read(v, "addresses");
      if peerId == "" || !(addresses.Undefined? || AllTexts(addresses)) then None
      else Some(Peer(
        peerId,
        OptText(Read(v, "role")),
        StringArray(addresses),
        OptText(Read(v, "public_key")),
        OptText(Read(v, "source")),
        OptText(Read(v, "last_seen_at")),
        OptText(Read(v, "display_name")),
        Avatar(rules, Read(v, "avatar"))))
  }

  function PeerReader(rules: Rules): Value -> Option<Peer> {
    v => PeerOf(rules, v)
  }

  function PeerKey(p: Peer): string {
    p.peerId
  }

  // ----- direct messages

  datatype Dm = Dm(id: string, participants: seq<string>, createdAt: Option<string>)

  function DmOf(v: Value): Option<Dm> {
    if !IsPlain(v) then None
    else
      var id, participants := TextOf(Read(v, "id")), Read(v, "participants");
      if id == "" || !AllTexts(participants) then None
      else Some(Dm(id, UniqueTexts(participants.items), OptText(Read(v, "created_at"))))
  }

  function DmKey(d: Dm): string {
    d.id
  }

  // ----- messages

  /** A reaction's count is any number at all. */
  datatype Reaction = Reaction(emoji: string, count: real, finite: bool, reacted: bool)

  function ReactionOf(v: Value): Option<Reaction> {
    var emoji, count := Read(v, "emoji"), Read(v, "count");
    if emoji.Str? && count.Num? then Some(Reaction(emoji.s, count.n, count.finite, Read(v, "reacted") == Bool(true)))
      else None
  }

  function Reactions(v: Value): Option<seq<Reaction>> {
    if v.Arr? then NonEmpty(Records(ReactionOf, v.items)) else None
  }

  function Attachments(rules: Rules, v: Value): Option<seq<Value>> {
    if v.Arr? then NonEmpty(Records(rules.attachment, v.items)) else None
  }

  datatype Message = Message(
    id: string, scopeType: string, scopeId: string, sender: string, body: string, serverId: Option<string>,
    replyTo: Option<string>, forwardedFrom: Option<string>, reactions: Option<seq<Reaction>>,
    media: Option<seq<Value>>, createdAt: Option<string>, updatedAt: Option<string>, deleted: Option<bool>,
    pinned: Option<bool>, deliveryStatus: Option<string>, securityMode: Option<string>, encrypted: Option<bool>,
    pollVotes: Option<map<nat, seq<string>>>)

  const MESSAGE_MODES: set<string> := {"seal", "tree", "crowd", "clear"}

  function MessageOf(rules: Rules, v: Value): Option<Message> {
    if !IsPlain(v) then None
    else
      var id, scopeType, scopeId := TextOf(Read(v, "id")), TextOf(Read(v, "scope_type")), TextOf(Read(v, "scope_id"));
      var sender, body, deleted := TextOf(Read(v, "sender_peer_id")), TextOf(Read(v, "body")), Read(v, "deleted");
      if id == "" || scopeType == "" || scopeId == "" || sender == "" || body == ""
        || !(deleted.Undefined? || deleted.Bool?) then None
      else Some(Message(
        id, scopeType, scopeId, sender, body,
        OptText(Read(v, "server_id")),
        OptText(Read(v, "reply_to")),
        OptText(Read(v, "forwarded_from")),
        Reactions(Read(v, "reactions")),
        Attachments(rules, Read(v, "media")),
        OptText(Read(v, "created_at")),
        OptText(Read(v, "updated_at")),
        OptBool(deleted),
        OptBool(Read(v, "pinned")),
        RawText(Read(v, "delivery_status")),
        OneOf(Read(v, "security_mode"), MESSAGE_MODES),
        OptBool(Read(v, "encrypted")),
        PollVotes(rules.index, Read(v, "poll_votes"))))
  }

  function MessageReader(rules: Rules): Value -> Option<Message> {
    v => MessageOf(rules, v)
  }

  function MessageKey(m: Message): string {
    m.id
  }

  // ----- friends

  datatype Friend = Friend(
    id: string, fromPeerId: string, status: string, toPeerId: Option<string>, toPeerAddr: Option<string>,
    deliveryStatus: Option<string>, createdAt: Option<string>, expiresAt: Option<string>)

  const FRIEND_STATES: set<string> := {"pending", "accepted", "declined", "cancelled", "blocked"}
  const FRIEND_DELIVERIES: set<string> := {"pending", "sent", "queued", "failed"}

  function FriendOf(v: Value): Option<Friend> {
    if !IsPlain(v) then None
    else
      var id, fromPeerId, status := TextOf(Read(v, "id")), TextOf(Read(v, "from_peer_id")), TextOf(Read(v, "status"));
      if id == "" || fromPeerId == "" || status == "" || status !in FRIEND_STATES then None
      else Some(Friend(
        id, fromPeerId, status,
        OptText(Read(v, "to_peer_id")),
        OptText(Read(v, "to_peer_addr")),
        OneOf(Read(v, "delivery_status"), FRIEND_DELIVERIES),
        OptText(Read(v, "created_at")),
        OptText(Read(v, "expires_at"))))
  }

  function FriendKey(f: Friend): string {
    f.id
  }

  // ----- a server's manifest

  datatype Manifest = Manifest(
    name: Option<string>, description: Option<string>, ownerAddresses: Option<seq<string>>,
    bootstrapAddrs: Option<seq<string>>, relayAddrs: Option<seq<string>>, capabilities: Option<seq<string>>,
    securityMode: Option<string>, historyCoverage: Option<string>, historyRetention: Option<real>,
    joinHistory: Option<real>)

  const SERVER_MODES: set<string> := {"tree", "crowd"}
  const NO_MANIFEST := Manifest(None, None, None, None, None, None, None, None, None, None)

  function ManifestOf(v: Value): Option<Manifest> {
    if !IsPlain(v) then None
    else
      var manifest := Manifest(
        OptText(Read(v, "name")),
        OptText(Read(v, "description")),
        StringArray(Read(v, "owner_addresses")),
        StringArray(Read(v, "bootstrap_addrs")),
        StringArray(Read(v, "relay_addrs")),
        StringArray(Read(v, "capabilities")),
        OneOf(Read(v, "security_mode"), SERVER_MODES),
        OptText(Read(v, "history_coverage")),
        OptNumber(Read(v, "history_retention_messages")),
        OptNumber(Read(v, "join_history_messages")));
      if manifest == NO_MANIFEST then None else Some(manifest)
  }
}
