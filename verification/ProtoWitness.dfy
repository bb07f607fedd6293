/** A voice session with a participant keyed `__proto__`: normalised once it shows the others, normalised twice it
    is empty. */
module ProtoWitness {
  import opened JsText
  import opened JsValues
  import opened Outcomes
  import opened RecordLaws
  import opened Snapshot
  import opened SnapshotAgain
  import opened SnapshotLaws
  import opened SnapshotRecords
  import opened SnapshotValues

  const EMPTY := Obj(true, map[], [])
  const PEOPLE := Obj(true, map[PROTO := EMPTY, "a" := EMPTY], [PROTO, "a"])
  const CALL := Obj(true, map["channel_id" := Str("c"), "participants" := PEOPLE], ["channel_id", "participants"])
  const SOURCE := Obj(true, map["voice_sessions" := Arr([CALL])], ["voice_sessions"])

  const ALICE := Participant("a", None, None, None, None, None, None, None)
  const SESSION := Session("c", Table(false, map["a" := ALICE]), None, None, None, None)
  const EMPTIED := SESSION.(participants := Table(true, map[]))
  const FIRST := Snapshot(
    None, None, None, None, None, [], [], [], [], [], [], [], [SESSION], None, [], [], None, map[])

  const TOLD_ALICE := Obj(true, map["peer_id" := Str("a")], ["peer_id"])
  const TOLD_PEOPLE := Obj(false, map["a" := TOLD_ALICE], ["a"])
  const TOLD_CALL := Obj(true, map["channel_id" := Str("c"), "participants" := TOLD_PEOPLE],
    ["channel_id", "participants"])
  const TOLD := SnapshotRecord(FIRST, Parts(
    Undefined, Arr([]), Arr([]), Arr([]), Arr([]), Arr([]), Arr([]), Arr([]), Arr([TOLD_CALL]), Undefined,
    Arr([]), Arr([]),
    Undefined, EMPTY))

  lemma {:induction false} WordsAreTrimmed()
    ensures Trim(PROTO) == PROTO && Trim("a") == "a" && Trim("c") == "c"
  {
    assert TrimStart(PROTO) == PROTO && TrimEnd(PROTO) == PROTO;
    assert TrimStart("a") == "a" && TrimEnd("a") == "a";
    assert TrimStart("c") == "c" && TrimEnd("c") == "c";
  }

  lemma {:induction false} PeopleEntries()
    ensures Entries(PEOPLE) == [(PROTO, EMPTY), ("a", EMPTY)]
  {
    var keys: seq<string> := [PROTO, "a"];
    assert keys[..1] == [PROTO] && keys[..1][..0] == [];
    assert EntriesOf(keys[..1], PEOPLE.own) == [(PROTO, EMPTY)];
  }

  lemma {:induction false} EmptyParticipant(key: string)
    requires Trim(key) == key && key != ""
    ensures KeyedParticipant((key, EMPTY)) == Some((key, Participant(key, None, None, None, None, None, None, None)))
  {
    hide Trim;
    forall name ensures Field(EMPTY, name) == Undefined {
    }
  }

  const GHOSTLY := Participant(PROTO, None, None, None, None, None, None, None)

  lemma {:induction false} PeopleAccepted()
    ensures Accepted(KeyedParticipant, Entries(PEOPLE)) == [(PROTO, GHOSTLY), ("a", ALICE)]
  {
    hide KeyedParticipant, EntriesOf, Trim, Accepted;
    WordsAreTrimmed();
    PeopleEntries();
    EmptyParticipant(PROTO);
    EmptyParticipant("a");
    AcceptedKept(KeyedParticipant, [(PROTO, EMPTY), ("a", EMPTY)], [(PROTO, GHOSTLY), ("a", ALICE)]);
  }

  lemma {:induction false} PeopleCollected()
    ensures Collect(true, [(PROTO, GHOSTLY), ("a", ALICE)]) == SESSION.participants
  {
    hide Collect;
    CollectNothing<Participant>(true);
    CollectSnoc(true, [], PROTO, GHOSTLY);
    CollectSnoc(true, [(PROTO, GHOSTLY)], "a", ALICE);
    assert [] + [(PROTO, GHOSTLY)] == [(PROTO, GHOSTLY)];
    assert [(PROTO, GHOSTLY)] + [("a", ALICE)] == [(PROTO, GHOSTLY), ("a", ALICE)];
    assert PROTO != "a";
  }

  lemma {:induction false} PeopleOnce()
    ensures Participants(PEOPLE) == SESSION.participants
  {
    hide Collect, Accepted, EntriesOf;
    PeopleAccepted();
    PeopleCollected();
  }

  lemma {:induction false} CallReads()
    ensures Read(CALL, "channel_id") == Str("c") && Read(CALL, "participants") == PEOPLE && IsPlain(CALL)
    ensures Read(CALL, "security_mode") == Undefined && Read(CALL, "connection_state") == Undefined
    ensures Read(CALL, "self_muted") == Undefined && Read(CALL, "turn_unavailable") == Undefined
  {
  }

  lemma {:induction false} CallOnce()
    ensures SessionOf(CALL) == Some(SESSION)
  {
    hide Participants, Trim, Read;
    WordsAreTrimmed();
    PeopleOnce();
    CallReads();
    var session := SessionOf(CALL).value;
    assert session.channelId == SESSION.channelId && session.participants == SESSION.participants;
    assert session.securityMode == None && session.connectionState == None;
    assert session.selfMuted == None && session.turnUnavailable == None;
  }

  lemma {:induction false} OneSession(call: Value, session: Session)
    requires SessionOf(call) == Some(session)
    ensures ArrayOf(SessionOf, SessionKey, Arr([call])) == [session]
  {
    hide SessionOf;
    assert [call][..0] == [] && [call][..1] == [call];
    NothingKept(SessionOf, SessionKey, session.channelId);
    RecordArraySnoc(SessionOf, SessionKey, [call], 0);
  }

  lemma {:induction false} NothingThere(rules: Rules)
    ensures OptText(Undefined) == None && OneOf(Undefined, TRANSPORT_STATES) == None
      && IdentityOf(rules, Undefined) == None
    ensures OrEmpty(StringArray(Undefined)) == [] && PresenceMap(Undefined) == None && StringMap(Undefined) == None
    ensures Unread(Undefined) == map[]
  {
  }

  lemma {:induction false} SourceReads(name: string)
    requires name != "voice_sessions"
    ensures Read(SOURCE, name) == Undefined
  {
  }

  lemma {:induction false} SourceOnce(rules: Rules)
    ensures SnapshotOf(rules, SOURCE) == Some(FIRST)
  {
    assert Read(SOURCE, "voice_sessions") == Arr([CALL]) && !Falsy(SOURCE);
    CallOnce();
    OneSession(CALL, SESSION);
    NothingThere(rules);
    hide ArrayOf, SessionOf, CALL, OptText, OneOf, IdentityOf, StringArray, PresenceMap, StringMap, NumberMap,
      SOURCE, Read;
    SourceReads("role");
    SourceReads("peer_id");
    SourceReads("control_endpoint");
    SourceReads("transport_state");
    SourceReads("identity");
    SourceReads("known_peers");
    SourceReads("servers");
    SourceReads("joined_server_ids");
    SourceReads("dms");
    SourceReads("messages");
    SourceReads("friends");
    SourceReads("friend_requests");
    SourceReads("presence");
    SourceReads("relay_addrs");
    SourceReads("telemetry");
    SourceReads("settings");
    SourceReads("unread");
    NoArray(PeerReader(rules), PeerKey);
    NoArray(ServerReader(rules), ServerKey);
    NoArray(DmOf, DmKey);
    NoArray(MessageReader(rules), MessageKey);
    NoArray(FriendOf, FriendKey);
  }

  lemma {:induction false} NoArray<T>(norm: Value -> Option<T>, key: T -> string)
    ensures ArrayOf(norm, key, Undefined) == []
  {
  }

  lemma {:induction false} ToldCall()
    ensures StandsForSession(TOLD_CALL, SESSION)
  {
    assert SameKeys(TOLD_PEOPLE, SESSION.participants.own);
  }

  lemma {:induction false} ToldStands(name: nat -> string)
    ensures StandsForSnapshot(name, TOLD, FIRST)
  {
    ToldCall();
    var p := Parts(
      Undefined, Arr([]), Arr([]), Arr([]), Arr([]), Arr([]), Arr([]), Arr([]), Arr([TOLD_CALL]), Undefined,
      Arr([]), Arr([]),
      Undefined, EMPTY);
    assert StandsForNumbers(EMPTY, map[]) && TOLD.Obj?;
    assert StandsForSessions(Arr([TOLD_CALL]), [SESSION]);
    NothingStands(name);
    hide Read, SnapshotRecord, StandsForIdentity, StandsForPeers, StandsForServers, StandsForDms, StandsForMessages,
      StandsForFriends, StandsForSessions, StandsForPresence, StandsForSettings, StandsForNumbers, AreTexts,
      TOLD_CALL, SESSION;
    SnapshotRecordHead(FIRST, p);
    SnapshotRecordBody(FIRST, p);
    SnapshotRecordTail(FIRST, p);
  }

  lemma {:induction false} NothingStands(name: nat -> string)
    ensures StandsForIdentity(Undefined, None) && StandsForPeers(Arr([]), []) && StandsForServers(Arr([]), [])
    ensures StandsForDms(Arr([]), []) && StandsForMessages(name, Arr([]), []) && StandsForFriends(Arr([]), [])
    ensures StandsForPresence(Undefined, None) && StandsForSettings(Undefined, None) && AreTexts(Arr([]), [])
  {
  }

  lemma {:induction false} CallTwice()
    ensures SessionOf(TOLD_CALL) == Some(EMPTIED)
  {
    hide SessionOf, Participants, SESSION_MODES, CONNECTION_STATES;
    WordsAreTrimmed();
    CallOnce();
    SessionNormal(CALL);
    ToldCall();
    SessionAgainIff(SESSION, TOLD_CALL);
  }

  /** Normalising the value gives a session in which "a" takes part; normalising a value that stands for the result
      gives the same session with nobody in it. */
  lemma {:induction false} SecondNormalisationEmptiesCall(rules: Rules, name: nat -> string)
    ensures SnapshotOf(rules, SOURCE) == Some(FIRST) && StandsForSnapshot(name, TOLD, FIRST)
    ensures SnapshotOf(rules, TOLD).Some? && SnapshotOf(rules, TOLD).value.sessions == [EMPTIED]
    ensures SnapshotOf(rules, TOLD) != SnapshotOf(rules, SOURCE)
  {
    SourceOnce(rules);
    ToldStands(name);
    CallTwice();
    OneSession(TOLD_CALL, EMPTIED);
    ToldSessions();
    assert EMPTIED != SESSION;
    hide ArrayOf, SessionOf, TOLD_CALL, OptText, OneOf, IdentityOf, StringArray, PresenceMap, StringMap, NumberMap,
      Read, TOLD;
  }

  lemma {:induction false} ToldSessions()
    ensures !Falsy(TOLD) && Read(TOLD, "voice_sessions") == Arr([TOLD_CALL])
  {
  }
}
