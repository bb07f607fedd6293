/** What every normalised record without tables satisfies, and that every such record is kept by normalising it again. A
    value "stands for" a record when reading it gives the record's fields. */
module RecordLaws {
  import opened JsText
  import opened JsValues
  import opened Outcomes
  import opened SnapshotRecords

  // ----- parts

  lemma {:induction false} TextTidy(v: Value)
    ensures TextOf(v) != "" ==> Tidy(TextOf(v))
  {
    OptTextTidy(v);
  }

  lemma {:induction false} OptTextAgain(s: Option<string>)
    requires OptTidy(s)
    ensures OptText(FromText(s)) == s
  {
  }

  lemma {:induction false} TextAgain(s: string)
    requires Tidy(s)
    ensures TextOf(Str(s)) == s && s != ""
  {
  }

  predicate OneOfOr(s: Option<string>, allowed: set<string>) {
    s.Some? ==> s.value in allowed
  }

  lemma {:induction false} OneOfAgain(s: Option<string>, allowed: set<string>)
    requires OneOfOr(s, allowed)
    ensures OneOf(FromText(s), allowed) == s
  {
  }

  /** A normalised list of strings is tidy and always kept. */
  lemma {:induction false} StringArrayAgain(x: Value, v: Value)
    requires StringArray(x).Some? && AreTexts(v, StringArray(x).value)
    ensures StringArray(v) == StringArray(x)
    ensures TidyList(StringArray(x).value)
  {
    UniqueTextsTidy(x.items);
    UniqueTextsAgain(StringArray(x).value, v);
  }

  ghost predicate OptList(ss: Option<seq<string>>) {
    ss.Some? ==> TidyList(ss.value)
  }

  predicate StandsForList(v: Value, ss: Option<seq<string>>) {
    if ss.Some? then AreTexts(v, ss.value) else v == Undefined
  }

  lemma {:induction false} ListNormal(x: Value)
    ensures OptList(StringArray(x))
  {
    if x.Arr? {
      UniqueTextsTidy(x.items);
    }
  }

  lemma {:induction false} ListAgain(ss: Option<seq<string>>, v: Value)
    requires OptList(ss) && StandsForList(v, ss)
    ensures StringArray(v) == ss
  {
    if ss.Some? {
      UniqueTextsAgain(ss.value, v);
    }
  }

  /** A list of tidy texts has only texts. */
  lemma {:induction false} ListIsTexts(ss: seq<string>, v: Value)
    requires TidyList(ss) && AreTexts(v, ss)
    ensures AllTexts(v) && UniqueTexts(v.items) == ss
  {
    UniqueTextsAgain(ss, v);
    forall i | 0 <= i < |v.items| ensures TextOf(v.items[i]) != "" {
      assert Tidy(ss[i]);
    }
  }

  predicate NormalAvatar(rules: Rules, avatar: Option<string>) {
    avatar.Some? ==> Tidy(avatar.value) && rules.safeAvatar(avatar.value)
  }

  lemma {:induction false} AvatarNormal(rules: Rules, x: Value)
    ensures NormalAvatar(rules, Avatar(rules, x))
  {
    OptTextTidy(x);
  }

  lemma {:induction false} AvatarAgain(rules: Rules, avatar: Option<string>)
    requires NormalAvatar(rules, avatar)
    ensures Avatar(rules, FromText(avatar)) == avatar
  {
  }

  // ----- poll votes

  /** The number is the reading of some property name. JavaScript reads names as doubles, so not every number is. */
  ghost predicate IsRead(index: string -> Option<nat>, n: nat) {
    exists k :: index(k) == Some(n)
  }

  /** The printed form of every number that can be read is read as that number. */
  ghost predicate ReadsPrinted(index: string -> Option<nat>, name: nat -> string) {
    forall n: nat :: IsRead(index, n) ==> index(name(n)) == Some(n)
  }

  /** Every way of reading names has a way of printing that goes with it. */
  lemma {:induction false} SomePrinterIsRead(index: string -> Option<nat>) returns (name: nat -> string)
    ensures ReadsPrinted(index, name)
  {
    name := (n: nat) => if IsRead(index, n) then (var k :| index(k) == Some(n); k) else "";
  }

  ghost predicate StandsForVotes(name: nat -> string, v: Value, votes: map<nat, seq<string>>) {
    && v.Obj? && Enumerates(v.keys, v.own)
    && (forall n: nat :: n in votes ==> name(n) in v.own && AreTexts(v.own[name(n)], votes[n]))
    && (forall k :: k in v.own ==> exists n: nat :: n in votes && k == name(n))
  }

  lemma {:induction false} VotersKept(items: seq<Value>)
    ensures forall s :: s in Voters(items) ==> Trim(s) != ""
  {
    forall s | s in Voters(items) ensures Trim(s) != "" {
      var i := RecordsFrom(VoterOf, items, s);
    }
  }

  lemma {:induction false} VotersAgain(items: seq<Value>, ss: seq<string>)
    requires |items| == |ss| && forall i :: 0 <= i < |ss| ==> items[i] == Str(ss[i])
    requires forall s :: s in ss ==> Trim(s) != ""
    ensures Voters(items) == ss
  {
    hide Records, Trim;
    RecordsKept(VoterOf, items, ss);
  }

  ghost predicate NormalVotes(index: string -> Option<nat>, votes: map<nat, seq<string>>) {
    forall n: nat :: n in votes ==>
      IsRead(index, n) && votes[n] != [] && forall s :: s in votes[n] ==> Trim(s) != ""
  }

  lemma {:induction false} PollVotesNormal(index: string -> Option<nat>, entries: seq<(string, Value)>)
    ensures NormalVotes(index, PollVotesOf(index, entries))
    decreases |entries|
  {
    if entries != [] {
      var n := |entries| - 1;
      PollVotesNormal(index, entries[..n]);
      if entries[n].1.Arr? {
        VotersKept(entries[n].1.items);
      }
    }
  }

  /** One more entry under a name that is read as a number. */
  lemma {:induction false} OneMoreVote(index: string -> Option<nat>, keys: seq<string>, own: map<string, Value>,
      n: nat, voters: seq<string>)
    requires keys != [] && keys[|keys| - 1] in own && index(keys[|keys| - 1]) == Some(n)
    requires voters != [] && AreTexts(own[keys[|keys| - 1]], voters) && forall s :: s in voters ==> Trim(s) != ""
    ensures PollVotesOf(index, EntriesOf(keys, own)) ==
      PollVotesOf(index, EntriesOf(keys[..|keys| - 1], own))[n := voters]
  {
    hide Trim, Voters;
    var before, entry := EntriesOf(keys[..|keys| - 1], own), (keys[|keys| - 1], own[keys[|keys| - 1]]);
    VotersAgain(entry.1.items, voters);
    assert (before + [entry])[..|before|] == before;
  }

  /** Different numbers that can be read are printed differently. */
  lemma {:induction false} PrintsDiffer(index: string -> Option<nat>, name: nat -> string, m: nat, n: nat)
    requires ReadsPrinted(index, name) && IsRead(index, m) && IsRead(index, n) && name(m) == name(n)
    ensures m == n
  {
  }

  /** Which numbers the entries of some of the names give votes under. */
  ghost predicate VotesUnder(read: map<nat, seq<string>>, name: nat -> string, keys: seq<string>,
      votes: map<nat, seq<string>>) {
    && (forall n: nat :: n in read <==> n in votes && name(n) in keys)
    && (forall n: nat :: n in read ==> n in votes && read[n] == votes[n])
  }

  lemma {:induction false} VotesUnderMore(read: map<nat, seq<string>>, index: string -> Option<nat>,
      name: nat -> string, keys: seq<string>, n: nat, votes: map<nat, seq<string>>)
    requires ReadsPrinted(index, name) && NormalVotes(index, votes) && n in votes
    requires VotesUnder(read, name, keys, votes)
    ensures VotesUnder(read[n := votes[n]], name, keys + [name(n)], votes)
  {
    forall m: nat | m in votes && name(m) == name(n) ensures m == n {
      PrintsDiffer(index, name, m, n);
    }
  }

  lemma {:induction false} VoteEntries(index: string -> Option<nat>, name: nat -> string, keys: seq<string>, v: Value,
      votes: map<nat, seq<string>>)
    requires ReadsPrinted(index, name) && StandsForVotes(name, v, votes) && NormalVotes(index, votes)
    requires forall k :: k in keys ==> k in v.own
    ensures VotesUnder(PollVotesOf(index, EntriesOf(keys, v.own)), name, keys, votes)
    decreases |keys|
  {
    hide PollVotesOf, EntriesOf, VotesUnder, AreTexts, Trim, IsRead;
    if keys == [] {
      NoVotes(index, name, v.own, votes);
    } else {
      var init, k := keys[..|keys| - 1], keys[|keys| - 1];
      VoteEntries(index, name, init, v, votes);
      assert keys == init + [k];
      assert k in v.own;
      var n: nat :| n in votes && k == name(n);
      OneMoreVote(index, keys, v.own, n, votes[n]);
      VotesUnderMore(PollVotesOf(index, EntriesOf(init, v.own)), index, name, init, n, votes);
    }
  }

  lemma {:induction false} NoVotes(index: string -> Option<nat>, name: nat -> string, own: map<string, Value>,
      votes: map<nat, seq<string>>)
    ensures VotesUnder(PollVotesOf(index, EntriesOf([], own)), name, [], votes)
  {
  }

  /** Normal poll votes are kept, unless there are none: then they become no votes at all. */
  lemma {:induction false} PollVotesKept(index: string -> Option<nat>, name: nat -> string,
      votes: map<nat, seq<string>>, v: Value)
    requires ReadsPrinted(index, name) && NormalVotes(index, votes) && StandsForVotes(name, v, votes)
    ensures PollVotes(index, v) == if votes == map[] then None else Some(votes)
  {
    hide PollVotesOf, EntriesOf, ReadsPrinted, NormalVotes, AreTexts;
    VoteEntries(index, name, v.keys, v, votes);
    var again := PollVotesOf(index, Entries(v));
    assert again.Keys == votes.Keys;
    assert again == votes;
  }

  // ----- identity

  predicate NormalProfile(rules: Rules, p: Profile) {
    OptTidy(p.displayName) && OptTidy(p.bio) && NormalAvatar(rules, p.avatar) && p != Profile(None, None, None)
  }

  predicate StandsForProfile(v: Value, p: Option<Profile>) {
    if p.None? then v == Undefined
    else
      && IsPlain(v)
      && Read(v, "display_name") == FromText(p.value.displayName)
      && Read(v, "bio") == FromText(p.value.bio)
      && Read(v, "avatar") == FromText(p.value.avatar)
  }

  lemma {:induction false} ProfileNormal(rules: Rules, x: Value)
    ensures ProfileOf(rules, x).Some? ==> NormalProfile(rules, ProfileOf(rules, x).value)
  {
    hide OptText, OptTidy, Avatar, NormalAvatar;
    OptTextTidy(Read(x, "display_name"));
    OptTextTidy(Read(x, "bio"));
    AvatarNormal(rules, Read(x, "avatar"));
  }

  lemma {:induction false} ProfileAgain(rules: Rules, p: Option<Profile>, v: Value)
    requires (p.Some? ==> NormalProfile(rules, p.value)) && StandsForProfile(v, p)
    ensures ProfileOf(rules, v) == p
  {
    hide OptText, OptTidy, Avatar, NormalAvatar, FromText;
    if p.Some? {
      OptTextAgain(p.value.displayName);
      OptTextAgain(p.value.bio);
      AvatarAgain(rules, p.value.avatar);
    }
  }

  predicate NormalIdentity(rules: Rules, i: Identity) {
    && OptTidy(i.id) && Tidy(i.peerId) && OptTidy(i.publicKey) && OptTidy(i.createdAt)
    && (i.profile.Some? ==> NormalProfile(rules, i.profile.value))
  }

  predicate StandsForIdentity(v: Value, i: Option<Identity>) {
    if i.None? then v == Undefined
    else
      && IsPlain(v)
      && Read(v, "id") == FromText(i.value.id)
      && Read(v, "peer_id") == Str(i.value.peerId)
      && Read(v, "public_key") == FromText(i.value.publicKey)
      && Read(v, "created_at") == FromText(i.value.createdAt)
      && StandsForProfile(Read(v, "profile"), i.value.profile)
  }

  lemma {:induction false} IdentityNormal(rules: Rules, x: Value)
    ensures IdentityOf(rules, x).Some? ==> NormalIdentity(rules, IdentityOf(rules, x).value)
  {
    hide TextOf, OptText, Tidy, OptTidy, ProfileOf, NormalProfile;
    TextTidy(Read(x, "peer_id"));
    OptTextTidy(Read(x, "id"));
    OptTextTidy(Read(x, "public_key"));
    OptTextTidy(Read(x, "created_at"));
    ProfileNormal(rules, Read(x, "profile"));
  }

  /** A normal identity is kept. */
  lemma {:induction false} IdentityAgain(rules: Rules, i: Option<Identity>, v: Value)
    requires (i.Some? ==> NormalIdentity(rules, i.value)) && StandsForIdentity(v, i)
    ensures IdentityOf(rules, v) == i
  {
    hide TextOf, OptText, Tidy, OptTidy, ProfileOf, NormalProfile, StandsForProfile, FromText;
    if i.Some? {
      TextAgain(i.value.peerId);
      OptTextAgain(i.value.id);
      OptTextAgain(i.value.publicKey);
      OptTextAgain(i.value.createdAt);
      ProfileAgain(rules, i.value.profile, Read(v, "profile"));
    }
  }

  // ----- peers

  ghost predicate NormalPeer(rules: Rules, p: Peer) {
    && Tidy(p.peerId) && OptTidy(p.role) && OptList(p.addresses) && OptTidy(p.publicKey) && OptTidy(p.source)
    && OptTidy(p.lastSeenAt) && OptTidy(p.displayName) && NormalAvatar(rules, p.avatar)
  }

  predicate StandsForPeer(v: Value, p: Peer) {
    && IsPlain(v)
    && Read(v, "peer_id") == Str(p.peerId)
    && Read(v, "role") == FromText(p.role)
    && StandsForList(Read(v, "addresses"), p.addresses)
    && Read(v, "public_key") == FromText(p.publicKey)
    && Read(v, "source") == FromText(p.source)
    && Read(v, "last_seen_at") == FromText(p.lastSeenAt)
    && Read(v, "display_name") == FromText(p.displayName)
    && Read(v, "avatar") == FromText(p.avatar)
  }

  lemma {:induction false} PeerNormal(rules: Rules, x: Value)
    requires PeerOf(rules, x).Some?
    ensures NormalPeer(rules, PeerOf(rules, x).value)
  {
    hide TextOf, OptText, Tidy, OptTidy, OptList, StringArray, Avatar, NormalAvatar, AllTexts;
    TextTidy(Read(x, "peer_id"));
    OptTextTidy(Read(x, "role"));
    ListNormal(Read(x, "addresses"));
    OptTextTidy(Read(x, "public_key"));
    OptTextTidy(Read(x, "source"));
    OptTextTidy(Read(x, "last_seen_at"));
    OptTextTidy(Read(x, "display_name"));
    AvatarNormal(rules, Read(x, "avatar"));
  }

  lemma {:induction false} AddressesAccepted(ss: Option<seq<string>>, v: Value)
    requires OptList(ss) && StandsForList(v, ss)
    ensures v.Undefined? || AllTexts(v)
  {
    if ss.Some? {
      ListIsTexts(ss.value, v);
    }
  }

  /** A normal peer is kept. */
  lemma {:induction false} PeerAgain(rules: Rules, p: Peer, v: Value)
    requires NormalPeer(rules, p) && StandsForPeer(v, p)
    ensures PeerOf(rules, v) == Some(p)
  {
    hide TextOf, OptText, Tidy, OptTidy, OptList, StandsForList, StringArray, Avatar, NormalAvatar, AllTexts,
      FromText, Read;
    TextAgain(p.peerId);
    OptTextAgain(p.role);
    AddressesAccepted(p.addresses, Read(v, "addresses"));
    ListAgain(p.addresses, Read(v, "addresses"));
    OptTextAgain(p.publicKey);
    OptTextAgain(p.source);
    OptTextAgain(p.lastSeenAt);
    OptTextAgain(p.displayName);
    AvatarAgain(rules, p.avatar);
  }

  // ----- direct messages

  ghost predicate NormalDm(d: Dm) {
    Tidy(d.id) && TidyList(d.participants) && OptTidy(d.createdAt)
  }

  predicate StandsForDm(v: Value, d: Dm) {
    && IsPlain(v)
    && Read(v, "id") == Str(d.id)
    && AreTexts(Read(v, "participants"), d.participants)
    && Read(v, "created_at") == FromText(d.createdAt)
  }

  lemma {:induction false} DmNormal(x: Value)
    requires DmOf(x).Some?
    ensures NormalDm(DmOf(x).value)
  {
    hide TextOf, OptText, Tidy, OptTidy, TidyList, UniqueTexts, AllTexts;
    assert Read(x, "participants").Arr? by {
      ArraysOnly(Read(x, "participants"));
    }
    TextTidy(Read(x, "id"));
    UniqueTextsTidy(Read(x, "participants").items);
    OptTextTidy(Read(x, "created_at"));
  }

  lemma {:induction false} ArraysOnly(v: Value)
    ensures AllTexts(v) ==> v.Arr?
  {
  }

  /** A normal direct message channel is kept. */
  lemma {:induction false} DmAgain(d: Dm, v: Value)
    requires NormalDm(d) && StandsForDm(v, d)
    ensures DmOf(v) == Some(d)
  {
    hide TextOf, OptText, Tidy, OptTidy, TidyList, UniqueTexts, AllTexts, FromText, Read;
    TextAgain(d.id);
    ListIsTexts(d.participants, Read(v, "participants"));
    OptTextAgain(d.createdAt);
  }

  // ----- messages

  /** The copy of an acceptable attachment is acceptable and copied as it is. */
  ghost predicate Lawful(rules: Rules, name: nat -> string) {
    && ReadsPrinted(rules.index, name)
    && (forall v, w :: rules.attachment(v) == Some(w) ==> rules.attachment(w) == Some(w))
  }

  predicate StandsForReaction(v: Value, r: Reaction) {
    v.Obj? && Read(v, "emoji") == Str(r.emoji) && Read(v, "count") == Num(r.count, r.finite)
      && Read(v, "reacted") == Bool(r.reacted)
  }

  predicate StandsForReactions(v: Value, rs: Option<seq<Reaction>>) {
    if rs.None? then v == Undefined
    else
      && v.Arr? && |v.items| == |rs.value|
      && forall i :: 0 <= i < |v.items| ==> StandsForReaction(v.items[i], rs.value[i])
  }

  lemma {:induction false} ReactionsAgain(rs: Option<seq<Reaction>>, v: Value)
    requires (rs.Some? ==> rs.value != []) && StandsForReactions(v, rs)
    ensures Reactions(v) == rs
  {
    if rs.Some? {
      forall i | 0 <= i < |rs.value| ensures ReactionOf(v.items[i]) == Some(rs.value[i]) {
        ReactionAgain(rs.value[i], v.items[i]);
      }
      RecordsKept(ReactionOf, v.items, rs.value);
    }
  }

  lemma {:induction false} ReactionAgain(r: Reaction, v: Value)
    requires StandsForReaction(v, r)
    ensures ReactionOf(v) == Some(r)
  {
  }

  ghost predicate NormalMedia(rules: Rules, media: Option<seq<Value>>) {
    media.Some? ==> media.value != [] && forall w :: w in media.value ==> rules.attachment(w) == Some(w)
  }

  predicate StandsForMedia(v: Value, media: Option<seq<Value>>) {
    v == if media.None? then Undefined else Arr(media.value)
  }

  lemma {:induction false} MediaNormal(rules: Rules, name: nat -> string, x: Value)
    requires Lawful(rules, name)
    ensures NormalMedia(rules, Attachments(rules, x))
  {
    if Attachments(rules, x).Some? {
      forall w | w in Attachments(rules, x).value ensures rules.attachment(w) == Some(w) {
        var i := RecordsFrom(rules.attachment, x.items, w);
      }
    }
  }

  lemma {:induction false} MediaAgain(rules: Rules, media: Option<seq<Value>>, v: Value)
    requires NormalMedia(rules, media) && StandsForMedia(v, media)
    ensures Attachments(rules, v) == media
  {
    if media.Some? {
      RecordsKept(rules.attachment, v.items, media.value);
    }
  }

  predicate NormalRaw(s: Option<string>) {
    s.Some? ==> s.value != ""
  }

  ghost predicate NormalTally(index: string -> Option<nat>, votes: Option<map<nat, seq<string>>>) {
    votes.Some? ==> NormalVotes(index, votes.value) && votes.value != map[]
  }

  ghost predicate NormalMessage(rules: Rules, m: Message) {
    && Tidy(m.id) && Tidy(m.scopeType) && Tidy(m.scopeId) && Tidy(m.sender) && Tidy(m.body)
    && OptTidy(m.serverId) && OptTidy(m.replyTo) && OptTidy(m.forwardedFrom)
    && (m.reactions.Some? ==> m.reactions.value != []) && NormalMedia(rules, m.media)
    && OptTidy(m.createdAt) && OptTidy(m.updatedAt) && NormalRaw(m.deliveryStatus)
    && OneOfOr(m.securityMode, MESSAGE_MODES) && NormalTally(rules.index, m.pollVotes)
  }

  ghost predicate StandsForTally(name: nat -> string, v: Value, votes: Option<map<nat, seq<string>>>) {
    if votes.None? then v == Undefined else StandsForVotes(name, v, votes.value)
  }

  ghost predicate StandsForMessage(name: nat -> string, v: Value, m: Message) {
    && IsPlain(v)
    && Read(v, "id") == Str(m.id)
    && Read(v, "scope_type") == Str(m.scopeType)
    && Read(v, "scope_id") == Str(m.scopeId)
    && Read(v, "sender_peer_id") == Str(m.sender)
    && Read(v, "body") == Str(m.body)
    && Read(v, "server_id") == FromText(m.serverId)
    && Read(v, "reply_to") == FromText(m.replyTo)
    && Read(v, "forwarded_from") == FromText(m.forwardedFrom)
    && StandsForReactions(Read(v, "reactions"), m.reactions)
    && StandsForMedia(Read(v, "media"), m.media)
    && Read(v, "created_at") == FromText(m.createdAt)
    && Read(v, "updated_at") == FromText(m.updatedAt)
    && Read(v, "deleted") == FromBool(m.deleted)
    && Read(v, "pinned") == FromBool(m.pinned)
    && Read(v, "delivery_status") == FromText(m.deliveryStatus)
    && Read(v, "security_mode") == FromText(m.securityMode)
    && Read(v, "encrypted") == FromBool(m.encrypted)
    && StandsForTally(name, Read(v, "poll_votes"), m.pollVotes)
  }

  lemma {:induction false} TallyNormal(rules: Rules, x: Value)
    ensures NormalTally(rules.index, PollVotes(rules.index, x))
  {
    if x.Obj? {
      PollVotesNormal(rules.index, Entries(x));
    }
  }

  lemma {:induction false} TallyAgain(rules: Rules, name: nat -> string, votes: Option<map<nat, seq<string>>>, v: Value)
    requires Lawful(rules, name) && NormalTally(rules.index, votes) && StandsForTally(name, v, votes)
    ensures PollVotes(rules.index, v) == votes
  {
    if votes.Some? {
      PollVotesKept(rules.index, name, votes.value, v);
    }
  }

  lemma {:induction false} MessageNormal(rules: Rules, name: nat -> string, x: Value)
    requires Lawful(rules, name) && MessageOf(rules, x).Some?
    ensures NormalMessage(rules, MessageOf(rules, x).value)
  {
    hide TextOf, OptText, Tidy, OptTidy, Reactions, Attachments, NormalMedia, PollVotes, NormalTally, Lawful;
    TextTidy(Read(x, "id"));
    TextTidy(Read(x, "scope_type"));
    TextTidy(Read(x, "scope_id"));
    TextTidy(Read(x, "sender_peer_id"));
    TextTidy(Read(x, "body"));
    OptTextTidy(Read(x, "server_id"));
    OptTextTidy(Read(x, "reply_to"));
    OptTextTidy(Read(x, "forwarded_from"));
    ReactionsNormal(Read(x, "reactions"));
    MediaNormal(rules, name, Read(x, "media"));
    OptTextTidy(Read(x, "created_at"));
    OptTextTidy(Read(x, "updated_at"));
    TallyNormal(rules, Read(x, "poll_votes"));
  }

  lemma {:induction false} ReactionsNormal(x: Value)
    ensures Reactions(x).Some? ==> Reactions(x).value != []
  {
  }

  lemma {:induction false} RawAgain(s: Option<string>)
    requires NormalRaw(s)
    ensures RawText(FromText(s)) == s
  {
  }

  lemma {:induction false} BoolAgain(b: Option<bool>)
    ensures OptBool(FromBool(b)) == b && (FromBool(b).Undefined? || FromBool(b).Bool?)
  {
  }

  /** A normal message is kept. */
  lemma {:induction false} MessageAgain(rules: Rules, name: nat -> string, m: Message, v: Value)
    requires Lawful(rules, name) && NormalMessage(rules, m) && StandsForMessage(name, v, m)
    ensures MessageOf(rules, v) == Some(m)
  {
    hide TextOf, OptText, Tidy, OptTidy, Reactions, Attachments, NormalMedia, PollVotes, NormalTally, Lawful, Read,
      FromText, FromBool, OptBool, RawText, NormalRaw, OneOf, OneOfOr, StandsForReactions, StandsForMedia,
      StandsForTally;
    TextAgain(m.id);
    TextAgain(m.scopeType);
    TextAgain(m.scopeId);
    TextAgain(m.sender);
    TextAgain(m.body);
    OptTextAgain(m.serverId);
    OptTextAgain(m.replyTo);
    OptTextAgain(m.forwardedFrom);
    ReactionsAgain(m.reactions, Read(v, "reactions"));
    MediaAgain(rules, m.media, Read(v, "media"));
    OptTextAgain(m.createdAt);
    OptTextAgain(m.updatedAt);
    BoolAgain(m.deleted);
    BoolAgain(m.pinned);
    RawAgain(m.deliveryStatus);
    OneOfAgain(m.securityMode, MESSAGE_MODES);
    BoolAgain(m.encrypted);
    TallyAgain(rules, name, m.pollVotes, Read(v, "poll_votes"));
  }

  // ----- friends

  predicate NormalFriend(f: Friend) {
    && Tidy(f.id) && Tidy(f.fromPeerId) && Tidy(f.status) && f.status in FRIEND_STATES
    && OptTidy(f.toPeerId) && OptTidy(f.toPeerAddr) && OneOfOr(f.deliveryStatus, FRIEND_DELIVERIES)
    && OptTidy(f.createdAt) && OptTidy(f.expiresAt)
  }

  predicate StandsForFriend(v: Value, f: Friend) {
    && IsPlain(v)
    && Read(v, "id") == Str(f.id)
    && Read(v, "from_peer_id") == Str(f.fromPeerId)
    && Read(v, "status") == Str(f.status)
    && Read(v, "to_peer_id") == FromText(f.toPeerId)
    && Read(v, "to_peer_addr") == FromText(f.toPeerAddr)
    && Read(v, "delivery_status") == FromText(f.deliveryStatus)
    && Read(v, "created_at") == FromText(f.createdAt)
    && Read(v, "expires_at") == FromText(f.expiresAt)
  }

  lemma {:induction false} FriendNormal(x: Value)
    requires FriendOf(x).Some?
    ensures NormalFriend(FriendOf(x).value)
  {
    hide TextOf, OptText, Tidy, OptTidy, FRIEND_STATES;
    TextTidy(Read(x, "id"));
    TextTidy(Read(x, "from_peer_id"));
    TextTidy(Read(x, "status"));
    OptTextTidy(Read(x, "to_peer_id"));
    OptTextTidy(Read(x, "to_peer_addr"));
    OptTextTidy(Read(x, "created_at"));
    OptTextTidy(Read(x, "expires_at"));
  }

  /** A normal friend record is kept. */
  lemma {:induction false} FriendAgain(f: Friend, v: Value)
    requires NormalFriend(f) && StandsForFriend(v, f)
    ensures FriendOf(v) == Some(f)
  {
    hide TextOf, OptText, Tidy, OptTidy, FRIEND_STATES, FRIEND_DELIVERIES, Read, FromText, OneOf, OneOfOr;
    TextAgain(f.id);
    TextAgain(f.fromPeerId);
    TextAgain(f.status);
    OptTextAgain(f.toPeerId);
    OptTextAgain(f.toPeerAddr);
    OneOfAgain(f.deliveryStatus, FRIEND_DELIVERIES);
    OptTextAgain(f.createdAt);
    OptTextAgain(f.expiresAt);
  }

  // ----- manifests

  ghost predicate NormalManifest(m: Manifest) {
    && OptTidy(m.name) && OptTidy(m.description) && OptList(m.ownerAddresses) && OptList(m.bootstrapAddrs)
    && OptList(m.relayAddrs) && OptList(m.capabilities) && OneOfOr(m.securityMode, SERVER_MODES)
    && OptTidy(m.historyCoverage) && m != NO_MANIFEST
  }

  predicate StandsForManifest(v: Value, m: Option<Manifest>) {
    if m.None? then v == Undefined
    else
      && IsPlain(v)
      && Read(v, "name") == FromText(m.value.name)
      && Read(v, "description") == FromText(m.value.description)
      && StandsForList(Read(v, "owner_addresses"), m.value.ownerAddresses)
      && StandsForList(Read(v, "bootstrap_addrs"), m.value.bootstrapAddrs)
      && StandsForList(Read(v, "relay_addrs"), m.value.relayAddrs)
      && StandsForList(Read(v, "capabilities"), m.value.capabilities)
      && Read(v, "security_mode") == FromText(m.value.securityMode)
      && Read(v, "history_coverage") == FromText(m.value.historyCoverage)
      && Read(v, "history_retention_messages") == FromNumber(m.value.historyRetention)
      && Read(v, "join_history_messages") == FromNumber(m.value.joinHistory)
  }

  lemma {:induction false} ManifestNormal(x: Value)
    ensures ManifestOf(x).Some? ==> NormalManifest(ManifestOf(x).value)
  {
    hide OptText, OptTidy, StringArray, OptList, OptNumber;
    OptTextTidy(Read(x, "name"));
    OptTextTidy(Read(x, "description"));
    ListNormal(Read(x, "owner_addresses"));
    ListNormal(Read(x, "bootstrap_addrs"));
    ListNormal(Read(x, "relay_addrs"));
    ListNormal(Read(x, "capabilities"));
    OptTextTidy(Read(x, "history_coverage"));
  }

  lemma {:induction false} NumberAgain(n: Option<real>)
    ensures OptNumber(FromNumber(n)) == n
  {
  }

  /** A normal manifest is kept. */
  lemma {:induction false} ManifestAgain(m: Option<Manifest>, v: Value)
    requires (m.Some? ==> NormalManifest(m.value)) && StandsForManifest(v, m)
    ensures ManifestOf(v) == m
  {
    hide OptText, OptTidy, StringArray, OptList, OptNumber, FromText, FromNumber, OneOf, OneOfOr, StandsForList,
      Read, SERVER_MODES;
    if m.Some? {
      OptTextAgain(m.value.name);
      OptTextAgain(m.value.description);
      ListAgain(m.value.ownerAddresses, Read(v, "owner_addresses"));
      ListAgain(m.value.bootstrapAddrs, Read(v, "bootstrap_addrs"));
      ListAgain(m.value.relayAddrs, Read(v, "relay_addrs"));
      ListAgain(m.value.capabilities, Read(v, "capabilities"));
      OneOfAgain(m.value.securityMode, SERVER_MODES);
      OptTextAgain(m.value.historyCoverage);
      NumberAgain(m.value.historyRetention);
      NumberAgain(m.value.joinHistory);
    }
  }
}
