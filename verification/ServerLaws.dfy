/** Closure of normalised server records, and what a second normalisation makes of them. */
module ServerLaws {
  import opened JsValues
  import opened Outcomes
  import opened Sequences
  import opened RecordLaws
  import opened Snapshot
  import opened SnapshotLaws
  import opened SnapshotRecords

  // ----- channels

  ghost predicate NormalChannel(c: Channel, serverId: string) {
    && Tidy(c.id) && Tidy(c.name) && Tidy(c.serverId) && c.serverId == serverId
    && OptTidy(c.createdAt) && OptTidy(c.topic) && OneOfOr(c.kind, KINDS)
  }

  predicate StandsForChannel(v: Value, c: Channel) {
    && IsPlain(v)
    && Read(v, "id") == Str(c.id)
    && Read(v, "server_id") == Str(c.serverId)
    && Read(v, "name") == Str(c.name)
    && Read(v, "voice") == Bool(c.voice)
    && Read(v, "created_at") == FromText(c.createdAt)
    && Read(v, "kind") == FromText(c.kind)
    && Read(v, "topic") == FromText(c.topic)
    && Read(v, "bitrate") == FromNumber(c.bitrate)
    && Read(v, "user_limit") == FromNumber(c.userLimit)
  }

  lemma {:induction false} ChannelNormal(x: Value, serverId: string)
    requires ChannelOf(x, serverId).Some?
    ensures NormalChannel(ChannelOf(x, serverId).value, serverId)
  {
    hide TextOf, OptText, Tidy;
    TextTidy(Read(x, "id"));
    TextTidy(Read(x, "server_id"));
    TextTidy(Read(x, "name"));
    OptTextTidy(Read(x, "created_at"));
    OptTextTidy(Read(x, "topic"));
  }

  lemma {:induction false} ChannelAgain(c: Channel, v: Value)
    requires NormalChannel(c, c.serverId) && StandsForChannel(v, c)
    ensures ChannelOf(v, c.serverId) == Some(c)
  {
    hide TextOf, OptText, Tidy, OptTidy, Read, FromText, KINDS;
    TextAgain(c.id);
    TextAgain(c.serverId);
    TextAgain(c.name);
    OptTextAgain(c.createdAt);
    OptTextAgain(c.topic);
    OneOfAgain(c.kind, KINDS);
  }

  /** Every channel sits under its own id and names its server. */
  ghost predicate NormalChannels(t: Table<Channel>, serverId: string) {
    PROTO !in t.own && forall k :: k in t.own ==> t.own[k].id == k && NormalChannel(t.own[k], serverId)
  }

  lemma {:induction false} ChannelsNormal(x: Value, serverId: string)
    ensures NormalChannels(Collect(true, ChannelEntries(x, serverId)), serverId)
  {
    hide Collect, Accepted, EntriesOf, ChannelOf, NormalChannel;
    var entries := ChannelEntries(x, serverId);
    CollectHolds(true, entries);
    forall k | k in Collect(true, entries).own
      ensures Collect(true, entries).own[k].id == k && NormalChannel(Collect(true, entries).own[k], serverId)
    {
      var i := CollectFrom(true, entries, k);
      var j := AcceptedFrom(ChannelReader(serverId), Entries(x), i);
      ChannelNormal(Entries(x)[j].1, serverId);
    }
  }

  ghost predicate StandsForChannels(v: Value, t: Table<Channel>) {
    v.Obj? && v.plain == t.plain && SameKeys(v, t.own)
    && forall k :: k in t.own ==> StandsForChannel(v.own[k], t.own[k])
  }

  lemma {:induction false} ChannelsAgain(t: Table<Channel>, serverId: string, v: Value)
    requires NormalChannels(t, serverId) && StandsForChannels(v, t) && t.plain
    ensures Collect(true, ChannelEntries(v, serverId)) == t
    ensures IdsDistinct(ChannelEntries(v, serverId))
  {
    hide Collect, Accepted, EntriesOf, ChannelOf, NormalChannel, StandsForChannel, IdsDistinct;
    forall k | k in t.own ensures ChannelReader(serverId)((k, v.own[k])) == Some((k, t.own[k])) {
      ChannelSide(t.own[k], serverId);
      ChannelAgain(t.own[k], v.own[k]);
    }
    TableAgain(true, ChannelReader(serverId), v, t.own);
    EntriesAgain(ChannelReader(serverId), v, t.own);
    PairsDistinct(v.keys, t.own);
  }

  lemma {:induction false} ChannelSide(c: Channel, serverId: string)
    requires NormalChannel(c, serverId)
    ensures c.serverId == serverId
  {
  }

  lemma {:induction false} PairsDistinct<V>(keys: seq<string>, own: map<string, V>)
    requires Distinct(keys) && forall k :: k in keys ==> k in own
    ensures IdsDistinct(Pairs(keys, own))
  {
  }

  // ----- roles

  ghost predicate NormalRole(rules: Rules, r: Role) {
    && Tidy(r.id) && Tidy(r.name) && TidyList(r.permissions)
    && (r.color.Some? ==> Tidy(r.color.value) && rules.safeColor(r.color.value))
  }

  ghost predicate StandsForRole(v: Value, r: Role) {
    && IsPlain(v)
    && Read(v, "id") == Str(r.id)
    && Read(v, "name") == Str(r.name)
    && AreTexts(Read(v, "permissions"), r.permissions)
    && Read(v, "color") == FromText(r.color)
    && Read(v, "protected") == if r.guarded then Bool(true) else Undefined
  }

  lemma {:induction false} RoleNormal(rules: Rules, x: Value)
    requires RoleOf(rules, x).Some?
    ensures NormalRole(rules, RoleOf(rules, x).value)
  {
    hide TextOf, OptText, Tidy, TidyList, UniqueTexts;
    TextTidy(Read(x, "id"));
    TextTidy(Read(x, "name"));
    OptTextTidy(Read(x, "color"));
    if Read(x, "permissions").Arr? {
      UniqueTextsTidy(Read(x, "permissions").items);
    }
    NothingTidy();
  }

  lemma {:induction false} NothingTidy()
    ensures TidyList([])
  {
  }

  lemma {:induction false} RoleAgain(rules: Rules, r: Role, v: Value)
    requires NormalRole(rules, r) && StandsForRole(v, r)
    ensures RoleOf(rules, v) == Some(r)
  {
    hide TextOf, OptText, Tidy, TidyList, UniqueTexts, Read;
    TextAgain(r.id);
    TextAgain(r.name);
    UniqueTextsAgain(r.permissions, Read(v, "permissions"));
    ColorAgain(r.color);
  }

  lemma {:induction false} ColorAgain(color: Option<string>)
    requires color.Some? ==> Tidy(color.value)
    ensures OptText(FromText(color)) == color
  {
  }

  ghost predicate NormalRoles(rules: Rules, roles: seq<Role>) {
    KeysDistinct(RoleKey, roles) && forall i :: 0 <= i < |roles| ==> NormalRole(rules, roles[i])
  }

  ghost predicate StandsForRoles(v: Value, roles: Option<seq<Role>>) {
    if roles.None? then v == Undefined
    else
      && v.Arr? && |v.items| == |roles.value|
      && forall i :: 0 <= i < |v.items| ==> StandsForRole(v.items[i], roles.value[i])
  }

  lemma {:induction false} RolesNormal(rules: Rules, x: Value)
    requires Roles(rules, x).Some?
    ensures NormalRoles(rules, Roles(rules, x).value)
  {
    hide RecordArray, RoleOf, NormalRole;
    var roles := Roles(rules, x).value;
    DedupKeysOf(RoleReader(rules), RoleKey, x.items);
    forall i | 0 <= i < |roles| ensures NormalRole(rules, roles[i]) {
      var j := RecordArrayFrom(RoleReader(rules), RoleKey, x.items, roles[i]);
      RoleNormal(rules, x.items[j]);
    }
  }

  lemma {:induction false} DedupKeysOf<T>(norm: Value -> Option<T>, key: T -> string, items: seq<Value>)
    ensures KeysDistinct(key, RecordArray(norm, key, items))
  {
    DedupKeys(key, Records(norm, items));
  }

  lemma {:induction false} RolesAgain(rules: Rules, roles: Option<seq<Role>>, v: Value)
    requires roles.Some? ==> NormalRoles(rules, roles.value)
    requires StandsForRoles(v, roles)
    ensures Roles(rules, v) == roles
  {
    hide RecordArray, RoleOf, NormalRole, StandsForRole, KeysDistinct;
    if roles.Some? {
      forall i | 0 <= i < |roles.value| ensures RoleReader(rules)(v.items[i]) == Some(roles.value[i]) {
        RoleAgain(rules, roles.value[i], v.items[i]);
      }
      RecordArrayAgainIff(RoleReader(rules), RoleKey, v.items, roles.value);
    }
  }

  // ----- member roles

  /** Only members have roles, at least one each, distinct, and only declared ones. */
  ghost predicate NormalMemberRoles(t: Table<seq<string>>, members: set<string>, roleIds: set<string>) {
    && PROTO !in t.own
    && forall k :: k in t.own ==> k in members && NormalAssignment(t.own[k], roleIds)
  }

  ghost predicate NormalAssignment(ids: seq<string>, roleIds: set<string>) {
    ids != [] && TidyList(ids) && forall id :: id in ids ==> id in roleIds
  }

  lemma {:induction false} KnownRolesNormal(items: seq<Value>, roleIds: set<string>)
    requires KnownRoles(items, roleIds) != []
    ensures NormalAssignment(KnownRoles(items, roleIds), roleIds)
  {
    var known := Known(Texts(items), roleIds);
    FirstCopiesMembers(Without(known, {""}));
    forall id | id in KnownRoles(items, roleIds) ensures id in roleIds && Tidy(id) {
      var i :| 0 <= i < |known| && known[i] == id;
      TextTidy(items[i]);
    }
  }

  lemma {:induction false} KnownRolesAgain(ids: seq<string>, v: Value, roleIds: set<string>)
    requires NormalAssignment(ids, roleIds) && AreTexts(v, ids)
    ensures KnownRoles(v.items, roleIds) == ids
  {
    forall i | 0 <= i < |ids| ensures Known(Texts(v.items), roleIds)[i] == ids[i] {
      assert ids[i] in ids && Tidy(ids[i]) && v.items[i] == Str(ids[i]);
    }
    assert Known(Texts(v.items), roleIds) == ids;
    WithoutNone(ids, {""});
    FirstCopiesDistinct(ids);
  }

  lemma {:induction false} MemberRolesNormal(x: Value, members: seq<string>, roles: seq<Role>)
    requires MemberRoles(x, members, roles).Some?
    ensures NormalMemberRoles(MemberRoles(x, members, roles).value, ToSet(members), ToSet(RoleIds(roles)))
  {
    hide Collect, Accepted, EntriesOf, KnownRoles, NormalAssignment, ToSet, RoleIds;
    var read := AssignmentReader(ToSet(members), ToSet(RoleIds(roles)));
    var entries := Accepted(read, Entries(x));
    CollectHolds(true, entries);
    forall k | k in Collect(true, entries).own
      ensures k in ToSet(members) && NormalAssignment(Collect(true, entries).own[k], ToSet(RoleIds(roles)))
    {
      var i := CollectFrom(true, entries, k);
      var j := AcceptedFrom(read, Entries(x), i);
      KnownRolesNormal(Entries(x)[j].1.items, ToSet(RoleIds(roles)));
    }
  }

  ghost predicate StandsForMemberRoles(v: Value, t: Option<Table<seq<string>>>) {
    if t.None? then v == Undefined
    else
      && v.Obj? && v.plain == t.value.plain && SameKeys(v, t.value.own)
      && forall k :: k in t.value.own ==> AreTexts(v.own[k], t.value.own[k])
  }

  function PlainOnly<V>(t: Option<Table<V>>): Option<Table<V>> {
    if t.Some? && t.value.plain then t else None
  }

  lemma {:induction false} MemberRolesAgain(t: Option<Table<seq<string>>>, members: seq<string>, roles: seq<Role>,
      v: Value)
    requires t.Some? ==> NormalMemberRoles(t.value, ToSet(members), ToSet(RoleIds(roles)))
    requires StandsForMemberRoles(v, t)
    ensures MemberRoles(v, members, roles) == PlainOnly(t)
  {
    hide Collect, Accepted, EntriesOf, KnownRoles, NormalAssignment, ToSet, RoleIds, AreTexts;
    if t.Some? && t.value.plain {
      var own := t.value.own;
      var memberIds, roleIds := ToSet(members), ToSet(RoleIds(roles));
      forall k | k in own ensures AssignmentReader(memberIds, roleIds)((k, v.own[k])) == Some((k, own[k])) {
        KnownRolesAgain(own[k], v.own[k], roleIds);
        ListIsArray(v.own[k], own[k]);
        AssignmentNotEmpty(own[k], roleIds);
      }
      TableAgain(true, AssignmentReader(memberIds, roleIds), v, own);
    }
  }

  lemma {:induction false} ListIsArray(v: Value, ss: seq<string>)
    requires AreTexts(v, ss)
    ensures v.Arr?
  {
  }

  lemma {:induction false} AssignmentNotEmpty(ids: seq<string>, roleIds: set<string>)
    requires NormalAssignment(ids, roleIds)
    ensures ids != []
  {
  }

  // ----- servers

  function RolesOf(s: Server): seq<Role> {
    if s.roles.Some? then s.roles.value else []
  }

  /** A server record is closed: channels sit under their ids and name the server, members are distinct, and roles are
      assigned to members only, out of the declared ones. */
  ghost predicate NormalServer(rules: Rules, s: Server) {
    && Tidy(s.id) && Tidy(s.name) && Tidy(s.owner) && OptTidy(s.description) && OptTidy(s.createdAt)
      && OptTidy(s.updatedAt)
    && s.members != [] && TidyList(s.members)
    && NormalChannels(s.channels, s.id)
    && (s.manifest.Some? ==> NormalManifest(s.manifest.value))
    && (s.roles.Some? ==> NormalRoles(rules, s.roles.value))
    && (s.memberRoles.Some? ==> NormalMemberRoles(s.memberRoles.value, ToSet(s.members), ToSet(RoleIds(RolesOf(s)))))
    && OneOfOr(s.mode, SERVER_MODES)
  }

  lemma {:induction false} ServerIsClosed(rules: Rules, x: Value)
    requires ServerOf(rules, x).Some?
    ensures NormalServer(rules, ServerOf(rules, x).value)
  {
    hide TextOf, OptText, Tidy, OptTidy, TidyList, UniqueTexts, ChannelEntries, ManifestOf, NormalManifest,
      StandsForManifest, Collect, NormalChannels, NormalRoles, NormalMemberRoles, Roles, MemberRoles, ToSet,
      RoleIds, IdsDistinct;
    TextTidy(Read(x, "id"));
    TextTidy(Read(x, "name"));
    TextTidy(Read(x, "owner_peer_id"));
    OptTextTidy(Read(x, "description"));
    OptTextTidy(Read(x, "created_at"));
    OptTextTidy(Read(x, "updated_at"));
    var s := ServerOf(rules, x).value;
    UniqueTextsTidy(Read(x, "members").items);
    ChannelsNormal(Read(x, "channels"), s.id);
    ManifestNormal(Read(x, "manifest"));
    if s.roles.Some? {
      RolesNormal(rules, Read(x, "roles"));
    }
    if s.memberRoles.Some? {
      MemberRolesNormal(Read(x, "member_roles"), s.members, RolesOf(s));
    }
  }

  ghost predicate StandsForServer(v: Value, s: Server) {
    && IsPlain(v)
    && Read(v, "id") == Str(s.id)
    && Read(v, "name") == Str(s.name)
    && Read(v, "description") == FromText(s.description)
    && Read(v, "owner_peer_id") == Str(s.owner)
    && AreTexts(Read(v, "members"), s.members)
    && StandsForChannels(Read(v, "channels"), s.channels)
    && Read(v, "created_at") == FromText(s.createdAt)
    && Read(v, "updated_at") == FromText(s.updatedAt)
    && StandsForManifest(Read(v, "manifest"), s.manifest)
    && StandsForRoles(Read(v, "roles"), s.roles)
    && StandsForMemberRoles(Read(v, "member_roles"), s.memberRoles)
    && Read(v, "channel_security_mode") == FromText(s.mode)
  }

  /** What a second normalisation makes of a normalised server: it is dropped when the prototype of its channels was
      replaced, and loses its role assignments when theirs was. */
  lemma {:induction false} ServerAgain(rules: Rules, s: Server, v: Value)
    requires NormalServer(rules, s) && StandsForServer(v, s)
    ensures ServerOf(rules, v) == if s.channels.plain then Some(s.(memberRoles := PlainOnly(s.memberRoles))) else None
  {
    hide TextOf, OptText, Tidy, OptTidy, TidyList, UniqueTexts, ChannelEntries, ManifestOf, NormalManifest,
      StandsForManifest, Collect, NormalChannels, NormalRoles, NormalMemberRoles, Roles, MemberRoles, ToSet,
      RoleIds, IdsDistinct, Read, FromText, StandsForRoles, StandsForMemberRoles, AreTexts, SameKeys,
      StandsForChannel;
    TextAgain(s.id);
    TextAgain(s.name);
    TextAgain(s.owner);
    OptTextAgain(s.description);
    OptTextAgain(s.createdAt);
    OptTextAgain(s.updatedAt);
    UniqueTextsAgain(s.members, Read(v, "members"));
    ListIsArray(Read(v, "members"), s.members);
    ManifestAgain(s.manifest, Read(v, "manifest"));
    RolesAgain(rules, s.roles, Read(v, "roles"));
    MemberRolesAgain(s.memberRoles, s.members, RolesOf(s), Read(v, "member_roles"));
    OneOfAgain(s.mode, SERVER_MODES);
    if s.channels.plain {
      ChannelsAgain(s.channels, s.id, Read(v, "channels"));
    }
  }
}
