/** What the snapshot normalisers read from a value, whatever it is: the texts, flags and lists of each record, told by
    the value's own properties. */
module ReadingLaws {
  import opened EntryLaws
  import opened JsText
  import opened JsValues
  import opened Outcomes
  import opened Sequences
  import opened SnapshotRecords
  import opened TextLaws

  // ----- own properties

  /** A string that is not blank, without the white space around it. */
  ghost predicate TextIs(x: Value, t: string) {
    x.Str? && TrimsTo(x.s, t) && t != ""
  }

  ghost predicate NotBlank(x: Value) {
    x.Str? && !AllWhite(x.s)
  }

  predicate Has(v: Value, name: string, x: Value) {
    v.Obj? && name in v.own && v.own[name] == x
  }

  /** The property is a string that is not blank, and this is its trimmed text. */
  ghost predicate Reads(v: Value, name: string, t: string) {
    v.Obj? && name in v.own && TextIs(v.own[name], t)
  }

  ghost predicate Filled(v: Value, name: string) {
    v.Obj? && name in v.own && NotBlank(v.own[name])
  }

  ghost predicate Tells(v: Value, name: string, o: Option<string>) {
    forall t :: o == Some(t) <==> Reads(v, name, t)
  }

  ghost predicate TellsIf(v: Value, name: string, ok: string -> bool, o: Option<string>) {
    forall t :: o == Some(t) <==> Reads(v, name, t) && ok(t)
  }

  ghost predicate Flag(v: Value, name: string, o: Option<bool>) {
    forall b :: o == Some(b) <==> Has(v, name, Bool(b))
  }

  ghost predicate Amount(v: Value, name: string, o: Option<real>) {
    forall n :: o == Some(n) <==> Has(v, name, Num(n, true))
  }

  ghost predicate Choice(v: Value, name: string, allowed: set<string>, o: Option<string>) {
    forall s :: o == Some(s) <==> s in allowed && Has(v, name, Str(s))
  }

  lemma {:induction false} BlankIff(s: string)
    ensures AllWhite(s) <==> Trim(s) == ""
  {
    hide Trim, WHITE;
    TrimIff(s, "");
    if AllWhite(s) {
      assert TrimsBy(s, s, "", "");
    }
  }

  lemma {:induction false} TextIff(x: Value, t: string)
    ensures TextIs(x, t) <==> TextOf(x) == t && t != ""
    ensures NotBlank(x) <==> TextOf(x) != ""
  {
    hide Trim, TrimsTo, AllWhite;
    if x.Str? {
      TrimIff(x.s, t);
      BlankIff(x.s);
    }
  }

  lemma {:induction false} ReadText(v: Value, name: string)
    ensures Filled(v, name) <==> TextOf(Read(v, name)) != ""
    ensures Filled(v, name) ==> Reads(v, name, TextOf(Read(v, name)))
    ensures Tells(v, name, OptText(Read(v, name)))
  {
    hide Trim, TextIs, NotBlank, TextOf;
    TextIff(Read(v, name), TextOf(Read(v, name)));
    forall t ensures OptText(Read(v, name)) == Some(t) <==> Reads(v, name, t) {
      TextIff(Read(v, name), t);
      NothingRead(t);
    }
    NothingRead("");
  }

  lemma {:induction false} NothingRead(t: string)
    ensures TextOf(Undefined) == "" && !TextIs(Undefined, t)
  {
  }

  lemma {:induction false} ReadFlag(v: Value, name: string)
    ensures Flag(v, name, OptBool(Read(v, name)))
  {
  }

  lemma {:induction false} ReadAmount(v: Value, name: string)
    ensures Amount(v, name, OptNumber(Read(v, name)))
  {
  }

  lemma {:induction false} ReadChoice(v: Value, name: string, allowed: set<string>)
    ensures Choice(v, name, allowed, OneOf(Read(v, name), allowed))
  {
  }

  lemma {:induction false} ReadAvatar(rules: Rules, v: Value, name: string)
    ensures TellsIf(v, name, rules.safeAvatar, Avatar(rules, Read(v, name)))
  {
    hide OptText, Reads;
    ReadText(v, name);
    var text := OptText(Read(v, name));
    forall t ensures Avatar(rules, Read(v, name)) == Some(t) <==> Reads(v, name, t) && rules.safeAvatar(t) {
      assert text == Some(t) <==> Reads(v, name, t);
    }
  }

  // ----- lists of strings

  ghost predicate TextAt(items: seq<Value>, i: nat, t: string) {
    i < |items| && TextIs(items[i], t)
  }

  ghost predicate FirstTextAt(items: seq<Value>, i: nat, t: string) {
    TextAt(items, i, t) && forall j: nat :: j < i ==> !TextAt(items, j, t)
  }

  /** Every text of the items, at its first occurrence and in that order. */
  ghost predicate Lists(items: seq<Value>, ts: seq<string>, at: seq<nat>) {
    && Rising(at) && |at| == |ts| && (forall k :: 0 <= k < |ts| ==> FirstTextAt(items, at[k], ts[k]))
    && (forall i: nat, t :: FirstTextAt(items, i, t) ==> i in at)
  }

  ghost predicate ListIs(x: Value, ts: seq<string>) {
    x.Arr? && exists at :: Lists(x.items, ts, at)
  }

  ghost predicate TellsList(v: Value, name: string, o: Option<seq<string>>) {
    if o.Some? then v.Obj? && name in v.own && ListIs(v.own[name], o.value)
    else v.Obj? && name in v.own ==> !v.own[name].Arr?
  }

  lemma {:induction false} KeptText(items: seq<Value>, i: nat)
    ensures Kept(OptText, Itself, items, i) <==> i < |items| && FirstTextAt(items, i, TextOf(items[i]))
    ensures forall t :: FirstTextAt(items, i, t) ==> t == TextOf(items[i])
  {
    hide Trim, TextIs;
    if i < |items| {
      var s := TextOf(items[i]);
      forall t ensures TextAt(items, i, t) <==> s == t && t != "" {
        TextIff(items[i], t);
      }
      forall j: nat | j < i ensures TextAt(items, j, s) <==> TextOf(items[j]) == s && s != "" {
        TextIff(items[j], s);
      }
      FirstGiven(items, i);
    }
  }

  lemma {:induction false} FirstGiven(items: seq<Value>, i: nat)
    requires i < |items|
    ensures Kept(OptText, Itself, items, i) <==>
      TextOf(items[i]) != "" && forall j :: 0 <= j < i ==> TextOf(items[j]) != TextOf(items[i])
  {
    hide TextOf;
  }

  /** The normalised list of strings holds each trimmed text that is not blank once, in order of first occurrence. */
  lemma {:induction false} UniqueTextsList(items: seq<Value>) returns (at: seq<nat>)
    ensures Lists(items, UniqueTexts(items), at)
  {
    hide UniqueTexts, Kept, FirstTextAt, TextOf;
    UniqueAreRecords(items);
    at := RecordArrayOrder(OptText, Itself, items);
    forall i: nat ensures i in at <==> i < |items| && FirstTextAt(items, i, TextOf(items[i])) {
      KeptText(items, i);
    }
    forall k | 0 <= k < |at| ensures FirstTextAt(items, at[k], UniqueTexts(items)[k]) {
      assert at[k] in at;
    }
    forall i: nat, t | FirstTextAt(items, i, t) ensures i in at {
      KeptText(items, i);
      TextInRange(items, i, t);
    }
  }

  lemma {:induction false} TextInRange(items: seq<Value>, i: nat, t: string)
    requires FirstTextAt(items, i, t)
    ensures i < |items|
  {
  }

  lemma {:induction false} UniqueAreRecords(items: seq<Value>)
    ensures UniqueTexts(items) == RecordArray(OptText, Itself, items)
  {
    hide RecordArray, FirstCopies, Without, Trim;
    CopiesAreRecords(Texts(items), OptText, items, |items|);
    assert items[..|items|] == items && Texts(items)[..|items|] == Texts(items);
  }

  lemma {:induction false} ReadList(v: Value, name: string)
    ensures TellsList(v, name, StringArray(Read(v, name)))
  {
    hide Lists, UniqueTexts;
    if Read(v, name).Arr? {
      var at := UniqueTextsList(Read(v, name).items);
    }
  }

  /** An array of strings that are not blank. */
  ghost predicate OnlyTexts(x: Value) {
    x.Arr? && forall i :: 0 <= i < |x.items| ==> NotBlank(x.items[i])
  }

  lemma {:induction false} OnlyTextsIff(x: Value)
    ensures AllTexts(x) <==> OnlyTexts(x)
  {
    hide TextOf, NotBlank;
    if x.Arr? {
      forall i | 0 <= i < |x.items| ensures NotBlank(x.items[i]) <==> TextOf(x.items[i]) != "" {
        TextIff(x.items[i], "");
      }
    }
  }

  // ----- identity and peers

  /** A profile tells what it has; without a name, a text or an avatar it is none. */
  ghost predicate TellsProfile(rules: Rules, v: Value, name: string, o: Option<Profile>) {
    var x := if v.Obj? && name in v.own && v.own[name].Obj? && v.own[name].plain then v.own[name] else Undefined;
    var p := if o.Some? then o.value else Profile(None, None, None);
    && o != Some(Profile(None, None, None))
    && Tells(x, "display_name", p.displayName) && Tells(x, "bio", p.bio)
    && TellsIf(x, "avatar", rules.safeAvatar, p.avatar)
  }

  lemma {:induction false} ReadProfile(rules: Rules, v: Value, name: string)
    ensures TellsProfile(rules, v, name, ProfileOf(rules, Read(v, name)))
  {
    hide OptText, Avatar, Tells, TellsIf;
    var x := if IsPlain(Read(v, name)) then Read(v, name) else Undefined;
    ReadText(x, "display_name");
    ReadText(x, "bio");
    ReadAvatar(rules, x, "avatar");
    NoText();
  }

  lemma {:induction false} NoText()
    ensures OptText(Undefined) == None && forall rules :: Avatar(rules, Undefined) == None
  {
  }

  /** An identity needs a peer id and tells the rest. */
  lemma {:induction false} IdentitySays(rules: Rules, v: Value)
    ensures IdentityOf(rules, v).Some? <==> v.Obj? && v.plain && Filled(v, "peer_id")
    ensures IdentityOf(rules, v).Some? ==>
      var i := IdentityOf(rules, v).value;
      && Tells(v, "id", i.id) && Reads(v, "peer_id", i.peerId) && Tells(v, "public_key", i.publicKey)
      && Tells(v, "created_at", i.createdAt) && TellsProfile(rules, v, "profile", i.profile)
  {
    hide TextOf, OptText, ProfileOf, Filled, Reads, Tells, TellsProfile;
    ReadText(v, "id");
    ReadText(v, "peer_id");
    ReadText(v, "public_key");
    ReadText(v, "created_at");
    ReadProfile(rules, v, "profile");
  }

  /** A peer needs a peer id, and addresses that are all texts if it has any. */
  lemma {:induction false} PeerSays(rules: Rules, v: Value)
    ensures PeerOf(rules, v).Some? <==>
      && v.Obj? && v.plain && Filled(v, "peer_id")
      && ("addresses" !in v.own || v.own["addresses"] == Undefined || OnlyTexts(v.own["addresses"]))
    ensures PeerOf(rules, v).Some? ==>
      var p := PeerOf(rules, v).value;
      && Reads(v, "peer_id", p.peerId) && Tells(v, "role", p.role) && TellsList(v, "addresses", p.addresses)
      && Tells(v, "public_key", p.publicKey) && Tells(v, "source", p.source)
      && Tells(v, "last_seen_at", p.lastSeenAt) && Tells(v, "display_name", p.displayName)
      && TellsIf(v, "avatar", rules.safeAvatar, p.avatar)
  {
    hide TextOf, OptText, StringArray, Avatar, AllTexts, OnlyTexts, Filled, Reads, Tells, TellsIf, TellsList;
    ReadText(v, "peer_id");
    ReadText(v, "role");
    ReadList(v, "addresses");
    OnlyTextsIff(Read(v, "addresses"));
    ReadText(v, "public_key");
    ReadText(v, "source");
    ReadText(v, "last_seen_at");
    ReadText(v, "display_name");
    ReadAvatar(rules, v, "avatar");
  }

  // ----- direct messages, messages and friends

  lemma {:induction false} DmSays(v: Value)
    ensures DmOf(v).Some? <==>
      v.Obj? && v.plain && Filled(v, "id") && "participants" in v.own && OnlyTexts(v.own["participants"])
    ensures DmOf(v).Some? ==>
      var d := DmOf(v).value;
      && Reads(v, "id", d.id) && TellsList(v, "participants", Some(d.participants))
      && Tells(v, "created_at", d.createdAt)
  {
    hide TextOf, OptText, UniqueTexts, Filled, Reads, Tells, TellsList, NotBlank;
    ReadText(v, "id");
    ReadList(v, "participants");
    OnlyTextsIff(Read(v, "participants"));
    ReadText(v, "created_at");
  }

  ghost predicate GivesReaction(x: Value, r: Reaction) {
    && x.Obj? && Has(x, "emoji", Str(r.emoji)) && Has(x, "count", Num(r.count, r.finite))
    && (r.reacted <==> Has(x, "reacted", Bool(true)))
  }

  lemma {:induction false} ReactionIff(x: Value, r: Reaction)
    ensures ReactionOf(x) == Some(r) <==> GivesReaction(x, r)
  {
  }

  /** The records that the items give, in order. */
  ghost predicate RecordsBy<T(!new)>(gives: (Value, T) -> bool, items: seq<Value>, ts: seq<T>, at: seq<nat>) {
    && Rising(at) && |at| == |ts| && (forall k :: 0 <= k < |ts| ==> at[k] < |items| && gives(items[at[k]], ts[k]))
    && (forall i: nat, t :: i < |items| && gives(items[i], t) ==> i in at)
  }

  ghost predicate GivenBy<T(!new)>(gives: (Value, T) -> bool, items: seq<Value>, ts: seq<T>) {
    exists at :: RecordsBy(gives, items, ts, at)
  }

  /** The records of an array, if it has any. */
  ghost predicate TellsRecords<T(!new)>(gives: (Value, T) -> bool, v: Value, name: string, o: Option<seq<T>>) {
    var items := if v.Obj? && name in v.own && v.own[name].Arr? then v.own[name].items else [];
    o != Some([]) && GivenBy(gives, items, if o.Some? then o.value else [])
  }

  lemma {:induction false} RecordsGiven<T(!new)>(norm: Value -> Option<T>, gives: (Value, T) -> bool,
      items: seq<Value>) returns (at: seq<nat>)
    requires forall x, t :: norm(x) == Some(t) <==> gives(x, t)
    ensures RecordsBy(gives, items, Records(norm, items), at)
  {
    hide Records;
    at := RecordsOrder(norm, items);
  }

  lemma {:induction false} ReadRecords<T(!new)>(norm: Value -> Option<T>, gives: (Value, T) -> bool, v: Value,
      name: string)
    requires forall x, t :: norm(x) == Some(t) <==> gives(x, t)
    ensures var x := Read(v, name);
      TellsRecords(gives, v, name, if x.Arr? then NonEmpty(Records(norm, x.items)) else None)
  {
    hide RecordsBy, Records;
    var at := RecordsGiven(norm, gives, if Read(v, name).Arr? then Read(v, name).items else []);
    NoRecords(norm);
  }

  lemma {:induction false} NoRecords<T>(norm: Value -> Option<T>)
    ensures Records(norm, []) == []
  {
  }

  // ----- poll votes

  ghost predicate GivesVoter(x: Value, s: string) {
    x == Str(s) && NotBlank(x)
  }

  /** The entry at this position votes for the option, by at least one voter. */
  ghost predicate VoteAt(index: string -> Option<nat>, x: Value, i: nat, n: nat) {
    && x.Obj? && i < |x.keys| && x.keys[i] in x.own && index(x.keys[i]) == Some(n) && x.own[x.keys[i]].Arr?
    && exists j :: 0 <= j < |x.own[x.keys[i]].items| && NotBlank(x.own[x.keys[i]].items[j])
  }

  ghost predicate LastVoteAt(index: string -> Option<nat>, x: Value, i: nat, n: nat) {
    VoteAt(index, x, i, n) && forall j: nat :: i < j ==> !VoteAt(index, x, j, n)
  }

  ghost predicate VotersOf(x: Value, i: nat, voters: seq<string>) {
    && x.Obj? && i < |x.keys| && x.keys[i] in x.own && x.own[x.keys[i]].Arr?
    && GivenBy(GivesVoter, x.own[x.keys[i]].items, voters)
  }

  /** Each option has the voters of the last entry with votes for it. */
  ghost predicate VotesBy(index: string -> Option<nat>, x: Value, votes: map<nat, seq<string>>) {
    && (forall n: nat :: n in votes <==> exists i: nat :: VoteAt(index, x, i, n))
    && (forall i: nat, n: nat :: n in votes && LastVoteAt(index, x, i, n) ==> VotersOf(x, i, votes[n]))
  }

  /** No vote at all is no result. */
  ghost predicate TellsVotes(index: string -> Option<nat>, x: Value, o: Option<map<nat, seq<string>>>) {
    o != Some(map[]) && VotesBy(index, x, if o.Some? then o.value else map[])
  }

  lemma {:induction false} VoterIff(x: Value, s: string)
    ensures VoterOf(x) == Some(s) <==> GivesVoter(x, s)
    ensures VoterOf(x).Some? <==> NotBlank(x)
  {
    hide Trim, AllWhite;
    if x.Str? {
      BlankIff(x.s);
    }
  }

  lemma {:induction false} VotersBy(items: seq<Value>) returns (at: seq<nat>)
    ensures RecordsBy(GivesVoter, items, Voters(items), at)
    ensures Voters(items) != [] <==> exists j :: 0 <= j < |items| && NotBlank(items[j])
  {
    hide Records, NotBlank, GivesVoter, VoterOf;
    forall x, s ensures VoterOf(x) == Some(s) <==> GivesVoter(x, s) {
      VoterIff(x, s);
    }
    at := RecordsGiven(VoterOf, GivesVoter, items);
    forall j | 0 <= j < |items| ensures NotBlank(items[j]) <==> j in at {
      NotBlankGives(items[j]);
    }
    if at != [] {
      assert at[0] in at;
    }
  }

  lemma {:induction false} NotBlankGives(x: Value)
    ensures NotBlank(x) <==> exists s :: GivesVoter(x, s)
  {
    if NotBlank(x) {
      assert GivesVoter(x, x.s);
    }
  }

  function VoteReader(index: string -> Option<nat>): ((string, Value)) -> Option<(nat, seq<string>)> {
    (entry: (string, Value)) =>
      if index(entry.0).Some? && entry.1.Arr? && Voters(entry.1.items) != []
      then Some((index(entry.0).value, Voters(entry.1.items))) else None
  }

  lemma {:induction false} VotesOverride(index: string -> Option<nat>, entries: seq<(string, Value)>)
    ensures PollVotesOf(index, entries) == Override(VoteReader(index), entries)
    decreases |entries|
  {
    if entries != [] {
      VotesOverride(index, entries[..|entries| - 1]);
    }
  }

  lemma {:induction false} VoteUnder(index: string -> Option<nat>, x: Value, i: nat, n: nat)
    ensures Under(EntriesAt(VoteReader(index), x), i, n) <==> VoteAt(index, x, i, n)
    ensures Under(EntriesAt(VoteReader(index), x), i, n) ==> VotersOf(x, i, EntriesAt(VoteReader(index), x)(i).value.1)
  {
    hide Voters, RecordsBy, NotBlank;
    if x.Obj? && i < |x.keys| && x.keys[i] in x.own && x.own[x.keys[i]].Arr? {
      var at := VotersBy(x.own[x.keys[i]].items);
    }
  }

  lemma {:induction false} ReadVotes(index: string -> Option<nat>, x: Value)
    ensures TellsVotes(index, x, PollVotes(index, x))
  {
    hide PollVotesOf, Override, EntriesOf, VoteAt, EntriesAt, VotersOf;
    forall i: nat, n: nat
      ensures Under(EntriesAt(VoteReader(index), x), i, n) <==> VoteAt(index, x, i, n)
      ensures Under(EntriesAt(VoteReader(index), x), i, n) ==>
        VotersOf(x, i, EntriesAt(VoteReader(index), x)(i).value.1)
    {
      VoteUnder(index, x, i, n);
    }
    OnlyObjects(index, x);
    if x.Obj? {
      VotesOverride(index, Entries(x));
      OverrideSays(VoteReader(index), x);
    }
  }

  lemma {:induction false} OnlyObjects(index: string -> Option<nat>, x: Value)
    ensures forall i: nat, n: nat :: VoteAt(index, x, i, n) ==> x.Obj?
  {
  }

  /** A message needs its five texts, and a flag or nothing where it says whether it is deleted. */
  lemma {:induction false} MessageSays(rules: Rules, v: Value)
    ensures MessageOf(rules, v).Some? <==>
      && v.Obj? && v.plain && Filled(v, "id") && Filled(v, "scope_type") && Filled(v, "scope_id")
      && Filled(v, "sender_peer_id") && Filled(v, "body")
      && ("deleted" in v.own ==> v.own["deleted"] == Undefined || v.own["deleted"].Bool?)
    ensures MessageOf(rules, v).Some? ==>
      var m := MessageOf(rules, v).value;
      && Reads(v, "id", m.id) && Reads(v, "scope_type", m.scopeType) && Reads(v, "scope_id", m.scopeId)
      && Reads(v, "sender_peer_id", m.sender) && Reads(v, "body", m.body) && TellsMore(rules, v, m)
  {
    hide TextOf, Filled, Reads, TellsMore;
    ReadText(v, "id");
    ReadText(v, "scope_type");
    ReadText(v, "scope_id");
    ReadText(v, "sender_peer_id");
    ReadText(v, "body");
    if MessageOf(rules, v).Some? {
      MessageTellsMore(rules, v);
    }
  }

  /** The parts that a message may have. */
  ghost predicate TellsMore(rules: Rules, v: Value, m: Message) {
    && Tells(v, "server_id", m.serverId) && Tells(v, "reply_to", m.replyTo)
    && Tells(v, "forwarded_from", m.forwardedFrom)
    && Tells(v, "created_at", m.createdAt) && Tells(v, "updated_at", m.updatedAt)
    && TellsRecords(GivesReaction, v, "reactions", m.reactions)
    && TellsRecords((x, w) => rules.attachment(x) == Some(w), v, "media", m.media)
    && Flag(v, "deleted", m.deleted) && Flag(v, "pinned", m.pinned) && Flag(v, "encrypted", m.encrypted)
    && (forall s :: m.deliveryStatus == Some(s) <==> s != "" && Has(v, "delivery_status", Str(s)))
    && Choice(v, "security_mode", {"seal", "tree", "crowd", "clear"}, m.securityMode)
    && TellsVotes(rules.index, if v.Obj? && "poll_votes" in v.own then v.own["poll_votes"] else Undefined, m.pollVotes)
  }

  lemma {:induction false} MessageTellsMore(rules: Rules, v: Value)
    requires MessageOf(rules, v).Some?
    ensures TellsMore(rules, v, MessageOf(rules, v).value)
  {
    hide TextOf, OptText, Tells, TellsRecords, Flag, Choice, TellsVotes, OptBool, OneOf, PollVotes, Reactions,
      Attachments;
    ReadText(v, "server_id");
    ReadText(v, "reply_to");
    ReadText(v, "forwarded_from");
    ReadText(v, "created_at");
    ReadText(v, "updated_at");
    ReadReactions(v, "reactions");
    ReadAttachments(rules, v, "media");
    ReadFlag(v, "deleted");
    ReadFlag(v, "pinned");
    ReadFlag(v, "encrypted");
    ReadChoice(v, "security_mode", MESSAGE_MODES);
    ReadVotes(rules.index, Read(v, "poll_votes"));
  }

  lemma {:induction false} ReadReactions(v: Value, name: string)
    ensures TellsRecords(GivesReaction, v, name, Reactions(Read(v, name)))
  {
    hide TellsRecords, GivesReaction, ReactionOf;
    forall x, r ensures ReactionOf(x) == Some(r) <==> GivesReaction(x, r) {
      ReactionIff(x, r);
    }
    ReadRecords(ReactionOf, GivesReaction, v, name);
  }

  lemma {:induction false} ReadAttachments(rules: Rules, v: Value, name: string)
    ensures TellsRecords((x, w) => rules.attachment(x) == Some(w), v, name, Attachments(rules, Read(v, name)))
  {
    hide TellsRecords;
    ReadRecords(rules.attachment, (x, w) => rules.attachment(x) == Some(w), v, name);
  }

  /** A friend record needs an id, a sender and one of the five states. */
  lemma {:induction false} FriendSays(v: Value)
    ensures FriendOf(v).Some? <==>
      && v.Obj? && v.plain && Filled(v, "id") && Filled(v, "from_peer_id")
      && exists status :: Reads(v, "status", status)
           && status in {"pending", "accepted", "declined", "cancelled", "blocked"}
    ensures FriendOf(v).Some? ==>
      var f := FriendOf(v).value;
      && Reads(v, "id", f.id) && Reads(v, "from_peer_id", f.fromPeerId) && Reads(v, "status", f.status)
      && Tells(v, "to_peer_id", f.toPeerId) && Tells(v, "to_peer_addr", f.toPeerAddr)
      && Choice(v, "delivery_status", {"pending", "sent", "queued", "failed"}, f.deliveryStatus)
      && Tells(v, "created_at", f.createdAt) && Tells(v, "expires_at", f.expiresAt)
  {
    hide TextOf, OptText, Filled, Reads, Tells, Choice, OneOf;
    ReadText(v, "id");
    ReadText(v, "from_peer_id");
    ReadText(v, "status");
    OnlyText(v, "status");
    ReadText(v, "to_peer_id");
    ReadText(v, "to_peer_addr");
    ReadChoice(v, "delivery_status", FRIEND_DELIVERIES);
    ReadText(v, "created_at");
    ReadText(v, "expires_at");
  }

  lemma {:induction false} OnlyText(v: Value, name: string)
    ensures forall t :: Reads(v, name, t) ==> t == TextOf(Read(v, name)) && t != ""
  {
    hide TextIs, TextOf;
    forall t | Reads(v, name, t) ensures t == TextOf(Read(v, name)) && t != "" {
      TextIff(v.own[name], t);
    }
  }

  // ----- manifests

  /** A manifest tells what it has; one that has nothing is none. */
  ghost predicate TellsManifest(v: Value, name: string, o: Option<Manifest>) {
    var x := if v.Obj? && name in v.own && v.own[name].Obj? && v.own[name].plain then v.own[name] else Undefined;
    var nothing := Manifest(None, None, None, None, None, None, None, None, None, None);
    var m := if o.Some? then o.value else nothing;
    && o != Some(nothing)
    && Tells(x, "name", m.name) && Tells(x, "description", m.description)
    && TellsList(x, "owner_addresses", m.ownerAddresses) && TellsList(x, "bootstrap_addrs", m.bootstrapAddrs)
    && TellsList(x, "relay_addrs", m.relayAddrs) && TellsList(x, "capabilities", m.capabilities)
    && Choice(x, "security_mode", {"tree", "crowd"}, m.securityMode)
    && Tells(x, "history_coverage", m.historyCoverage)
    && Amount(x, "history_retention_messages", m.historyRetention)
    && Amount(x, "join_history_messages", m.joinHistory)
  }

  lemma {:induction false} ReadManifest(v: Value, name: string)
    ensures TellsManifest(v, name, ManifestOf(Read(v, name)))
  {
    hide OptText, StringArray, Tells, TellsList, Choice, Amount, OneOf, OptNumber;
    var x := if IsPlain(Read(v, name)) then Read(v, name) else Undefined;
    ReadText(x, "name");
    ReadText(x, "description");
    ReadList(x, "owner_addresses");
    ReadList(x, "bootstrap_addrs");
    ReadList(x, "relay_addrs");
    ReadList(x, "capabilities");
    ReadChoice(x, "security_mode", SERVER_MODES);
    ReadText(x, "history_coverage");
    ReadAmount(x, "history_retention_messages");
    ReadAmount(x, "join_history_messages");
    NothingSaid(SERVER_MODES);
  }

  lemma {:induction false} NothingSaid(allowed: set<string>)
    ensures OptText(Undefined) == None && StringArray(Undefined) == None && OneOf(Undefined, allowed) == None
    ensures OptNumber(Undefined) == None
  {
  }
}
