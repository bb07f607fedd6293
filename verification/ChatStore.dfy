/** The local conversation store between two merges: it drops blank messages and forgets deletion stamps
    (`normalizeStoredMessages` of the protocol client), so a merge is not always stable across it. */
module ChatStore {
  import opened Sequences
  import opened Anchoring
  import opened Outcomes
  import opened LiveView
  import opened LiveHistory
  import opened Merge
  import opened MergeLaws

  /** The fields a stored message keeps. */
  function StoreRecord(m: Message): Message {
    m.(extra := "", deletedAt := None, deletedBy := None)
  }

  predicate Storable(m: Message) {
    m.id != "" && m.content != ""
  }

  function StoreFrom(ms: seq<Message>, seen: set<string>): seq<Message> {
    if ms == [] then []
    else if !Storable(ms[0]) || ms[0].id in seen then StoreFrom(ms[1..], seen)
    else [StoreRecord(ms[0])] + StoreFrom(ms[1..], seen + {ms[0].id})
  }

  /** What is read back after writing `ms`. */
  function Stored(ms: seq<Message>): seq<Message> {
    StoreFrom(ms, {})
  }

  method NormalizeStoredMessages(ms: seq<Message>) returns (normalized: seq<Message>)
    ensures normalized == Stored(ms)
  {
    normalized := [];
    var seen: set<string> := {};
    var i := 0;
    while i < |ms|
      invariant 0 <= i <= |ms|
      invariant Stored(ms) == normalized + StoreFrom(ms[i..], seen)
    {
      assert ms[i..][1..] == ms[i + 1..] && ms[i..][0] == ms[i];
      if Storable(ms[i]) && ms[i].id !in seen {
        seen := seen + {ms[i].id};
        normalized := normalized + [StoreRecord(ms[i])];
      }
      i := i + 1;
    }
  }

  /** What the store always hands out. */
  ghost predicate StoredForm(ps: seq<Message>) {
    Distinct(Ids(ps)) && forall m :: m in ps ==> Storable(m) && StoreRecord(m) == m
  }

  lemma {:induction false} StoreFromShape(ms: seq<Message>, seen: set<string>)
    ensures var r := StoreFrom(ms, seen);
      && Distinct(Ids(r))
      && (forall m :: m in r ==> Storable(m) && StoreRecord(m) == m)
      && (forall x :: x in Ids(r) ==> x in Ids(ms) && x !in seen)
  {
    if ms != [] {
      if !Storable(ms[0]) || ms[0].id in seen {
        StoreFromShape(ms[1..], seen);
      } else {
        StoreFromShape(ms[1..], seen + {ms[0].id});
        DistinctCons(ms[0].id, Ids(StoreFrom(ms[1..], seen + {ms[0].id})));
      }
    }
  }

  lemma {:induction false} StoredIsStoredForm(ms: seq<Message>)
    ensures StoredForm(Stored(ms))
  {
    StoreFromShape(ms, {});
  }

  /** The store is stable on what it handed out. */
  lemma {:induction false} StoreFromStable(ps: seq<Message>, seen: set<string>)
    requires StoredForm(ps) && forall x :: x in Ids(ps) ==> x !in seen
    ensures StoreFrom(ps, seen) == ps
    decreases |ps|
  {
    if |ps| != 0 {
      DistinctTail(Ids(ps));
      StoreFromStable(ps[1..], seen + {ps[0].id});
    }
  }

  // ----- whatever is written

  /** What the store keeps of a message. */
  predicate Keeps(r: Message, m: Message) {
    r == Message(m.id, m.content, m.stored, "", None, None)
  }

  /** These are the first messages of each id, nonblank and with an id, among those from a position on. */
  ghost predicate KeptAt(ms: seq<Message>, from: nat, seen: set<string>, r: seq<Message>, at: seq<nat>) {
    && Rising(at) && |at| == |r|
    && (forall i: nat :: i in at <==>
        && from <= i < |ms| && ms[i].id != "" && ms[i].content != "" && ms[i].id !in seen
        && forall j :: from <= j < i && ms[j].content != "" ==> ms[j].id != ms[i].id)
    && (forall k :: 0 <= k < |at| ==> at[k] < |ms| && Keeps(r[k], ms[at[k]]))
  }

  lemma {:induction false} StoreSkips(ms: seq<Message>, from: nat, seen: set<string>, r: seq<Message>, at: seq<nat>)
    requires from < |ms| && (!Storable(ms[from]) || ms[from].id in seen) && KeptAt(ms, from + 1, seen, r, at)
    ensures KeptAt(ms, from, seen, r, at)
  {
    hide Rising;
  }

  lemma {:induction false} StoreTakes(ms: seq<Message>, from: nat, seen: set<string>, r: seq<Message>, at: seq<nat>)
    requires from < |ms| && Storable(ms[from]) && ms[from].id !in seen
    requires KeptAt(ms, from + 1, seen + {ms[from].id}, r, at)
    ensures KeptAt(ms, from, seen, [StoreRecord(ms[from])] + r, [from] + at)
  {
    hide Rising;
    RisingCons(from, at);
    assert forall k :: 0 < k < |[from] + at| ==> ([from] + at)[k] == at[k - 1];
  }

  lemma {:induction false} StoreFromStep(ms: seq<Message>, from: nat, seen: set<string>)
    requires from <= |ms|
    ensures from == |ms| ==> KeptAt(ms, from, seen, StoreFrom(ms[from..], seen), [])
    ensures from < |ms| && (!Storable(ms[from]) || ms[from].id in seen) ==>
      StoreFrom(ms[from..], seen) == StoreFrom(ms[from + 1..], seen)
    ensures from < |ms| && Storable(ms[from]) && ms[from].id !in seen ==>
      StoreFrom(ms[from..], seen) == [StoreRecord(ms[from])] + StoreFrom(ms[from + 1..], seen + {ms[from].id})
  {
    hide Storable, StoreRecord;
    if from < |ms| {
      assert ms[from..][1..] == ms[from + 1..];
    }
  }

  lemma {:induction false} StoreFromAt(ms: seq<Message>, from: nat, seen: set<string>) returns (at: seq<nat>)
    requires from <= |ms|
    ensures KeptAt(ms, from, seen, StoreFrom(ms[from..], seen), at)
    decreases |ms| - from
  {
    hide KeptAt, Storable, StoreRecord, StoreFrom;
    StoreFromStep(ms, from, seen);
    if from == |ms| {
      at := [];
    } else {
      if !Storable(ms[from]) || ms[from].id in seen {
        at := StoreFromAt(ms, from + 1, seen);
        StoreSkips(ms, from, seen, StoreFrom(ms[from + 1..], seen), at);
      } else {
        at := StoreFromAt(ms, from + 1, seen + {ms[from].id});
        StoreTakes(ms, from, seen, StoreFrom(ms[from + 1..], seen + {ms[from].id}), at);
        at := [from] + at;
      }
    }
  }

  /** Whatever is written, what is read back is, for each id but the empty one, its first message with text, without
      stamp, actor and dropped fields, in the written order. */
  lemma {:induction false} StoredSays(ms: seq<Message>) returns (at: seq<nat>)
    ensures KeptAt(ms, 0, {}, Stored(ms), at)
  {
    hide KeptAt, StoreFrom;
    at := StoreFromAt(ms, 0, {});
    assert ms[0..] == ms;
  }

  // ----- what is kept of a list without repeated ids

  /** A list without its blank messages. */
  function Nonblank(ms: seq<Message>): seq<Message> {
    if ms == [] then [] else if Storable(ms[0]) then [ms[0]] + Nonblank(ms[1..]) else Nonblank(ms[1..])
  }

  lemma {:induction false} StoreFromDistinct(ms: seq<Message>, seen: set<string>)
    requires Distinct(Ids(ms)) && forall x :: x in Ids(ms) ==> x !in seen
    ensures |StoreFrom(ms, seen)| == |Nonblank(ms)|
    ensures forall i :: 0 <= i < |Nonblank(ms)| ==> StoreFrom(ms, seen)[i] == StoreRecord(Nonblank(ms)[i])
    decreases |ms|
  {
    hide Distinct, Storable, StoreRecord;
    if |ms| != 0 {
      DistinctTail(Ids(ms));
      StoreFromDistinct(ms[1..], if Storable(ms[0]) then seen + {ms[0].id} else seen);
    }
  }

  lemma {:induction false} NonblankMembers(ms: seq<Message>)
    ensures forall m :: m in Nonblank(ms) <==> m in ms && Storable(m)
    ensures forall x :: x in Ids(Nonblank(ms)) ==> x in Ids(ms)
  {
    hide Storable;
    if ms != [] {
      NonblankMembers(ms[1..]);
    }
  }

  lemma {:induction false} NonblankDistinct(ms: seq<Message>)
    requires Distinct(Ids(ms))
    ensures Distinct(Ids(Nonblank(ms)))
  {
    hide Distinct, Storable;
    if ms != [] {
      DistinctTail(Ids(ms));
      NonblankDistinct(ms[1..]);
      NonblankMembers(ms[1..]);
      if Storable(ms[0]) {
        DistinctCons(ms[0].id, Ids(Nonblank(ms[1..])));
      }
    }
  }

  lemma {:induction false} StoreDistinct(ms: seq<Message>, seen: set<string>)
    requires Distinct(Ids(ms)) && forall x :: x in Ids(ms) ==> x !in seen
    ensures |StoreFrom(ms, seen)| == |Nonblank(ms)|
    ensures forall i :: 0 <= i < |Nonblank(ms)| ==> StoreFrom(ms, seen)[i] == StoreRecord(Nonblank(ms)[i])
    ensures Distinct(Ids(Nonblank(ms)))
    ensures forall m :: m in Nonblank(ms) <==> m in ms && Storable(m)
    ensures forall x :: x in Ids(Nonblank(ms)) ==> x in Ids(ms)
  {
    hide Distinct, Ids, StoreFrom, Nonblank, Storable, StoreRecord;
    StoreFromDistinct(ms, seen);
    NonblankMembers(ms);
    NonblankDistinct(ms);
  }

  // ----- order across the store

  /** No persisted-only message stands directly before a blank live one. */
  ghost predicate OrderSurvives(view: seq<Message>, live: set<string>) {
    forall i :: 0 <= i < |view| - 1 && view[i].id !in live && view[i + 1].id in live ==> view[i + 1].content != ""
  }

  lemma {:induction false} OrderSurvivesTail(view: seq<Message>, live: set<string>)
    requires view != [] && OrderSurvives(view, live)
    ensures OrderSurvives(view[1..], live)
  {
    forall i | 0 <= i < |view[1..]| - 1 && view[1..][i].id !in live && view[1..][i + 1].id in live
      ensures view[1..][i + 1].content != ""
    {
      assert view[i + 1].id !in live && view[i + 1 + 1].id in live;
    }
  }

  /** Dropping blank live messages leaves every block as it was. */
  lemma {:induction false} NonblankBlocks(view: seq<Message>, live: set<string>, x: string)
    requires OrderSurvives(view, live) && "" !in live
    requires forall m :: m in view && m.id !in live ==> Storable(m)
    ensures Block(SlotsOf(Nonblank(view), live), x) == Block(SlotsOf(view, live), x)
    ensures (view != [] && view[0].id in live && view[0].content == "")
      || FirstSurvivor(SlotsOf(Nonblank(view), live)) == FirstSurvivor(SlotsOf(view, live))
  {
    if view != [] {
      OrderSurvivesTail(view, live);
      NonblankBlocks(view[1..], live, x);
      assert SlotsOf(view, live)[1..] == SlotsOf(view[1..], live);
      if Storable(view[0]) {
        assert SlotsOf(Nonblank(view), live)[1..] == SlotsOf(Nonblank(view[1..]), live);
        if view[0].id !in live && |view| > 1 {
          assert view[0 + 1] == view[1..][0];
        }
      } else {
        assert view[0] in view;
      }
    }
  }

  /** Slot lists that show the same ids at the same positions. */
  ghost predicate SameShape(a: seq<Slot>, b: seq<Slot>) {
    |a| == |b| && forall i :: 0 <= i < |a| ==>
      match (a[i], b[i]) {
        case (Survivor(x), Survivor(y)) => x == y
        case (Entry(m), Entry(n)) => m.id == n.id
        case (Skip, Skip) => true
        case _ => false
      }
  }

  lemma {:induction false} SameShapeBlocks(a: seq<Slot>, b: seq<Slot>, x: string)
    requires SameShape(a, b)
    ensures Ids(Block(a, x)) == Ids(Block(b, x)) && FirstSurvivor(a) == FirstSurvivor(b)
  {
    if a != [] {
      SameShapeBlocks(a[1..], b[1..], x);
    }
  }

  lemma {:induction false} SameShapeEmit(ms: seq<Message>, ns: seq<Message>, a: seq<Slot>, b: seq<Slot>)
    requires Ids(ms) == Ids(ns) && SameShape(a, b)
    ensures Ids(Emit(ms, a)) == Ids(Emit(ns, b))
  {
    if ms == [] {
      SameShapeBlocks(a, b, "");
    } else {
      assert ms[0].id == ns[0].id;
      assert Ids(ms[1..]) == Ids(ms)[1..] && Ids(ns[1..]) == Ids(ns)[1..];
      SameShapeEmit(ms[1..], ns[1..], a, b);
      SameShapeBlocks(a, b, ms[0].id);
      EmitIds(ms, a);
      EmitIds(ns, b);
    }
  }

  /** The shape of what comes back from the store is that of the nonblank part of the written list. */
  lemma {:induction false} StoredSlots(view: seq<Message>, live: set<string>, deleted: set<string>, later: string)
    requires Distinct(Ids(view))
    ensures SameShape(PersistedSlots(Stored(view), live, deleted, later), SlotsOf(Nonblank(view), live))
  {
    hide PersistedSlots, SlotsOf, StoreFrom, Nonblank, Survivors, Keys, Shared, Ids;
    StoreDistinct(view, {});
    StoredIsStoredForm(view);
    PersistedKeys(Stored(view), live, deleted, later);
  }

  /** Persist, read back, merge again: the ids come back in the same order if blank live messages have no
      persisted-only message directly before them ... */
  lemma {:induction false} StoreKeepsOrder(ms: seq<Message>, ps: seq<Message>, deleted: set<string>, now: string,
      later: string)
    requires Clean(ms) && StoredForm(ps)
    requires OrderSurvives(Merged(ms, ps, deleted, now), IdSet(ms))
    ensures Ids(Merged(ms, Stored(Merged(ms, ps, deleted, now)), deleted, later)) == Ids(Merged(ms, ps, deleted, now))
  {
    var live := IdSet(ms);
    IdSetIds(ms);
    FirstOfClean(ms, {});
    StoreRoundIds(ms, ps, deleted, now, later);
    assert Emit(AnnotateAll(ms, ps, deleted, now), SlotsOf(Nonblank(Merged(ms, ps, deleted, now)), live))
        == Emit(AnnotateAll(ms, ps, deleted, now), SlotsOf(Merged(ms, ps, deleted, now), live)) by {
      DropBlanks(ms, ps, deleted, now, AnnotateAll(ms, ps, deleted, now));
    }
    AnnotateAllIds(ms, ps, deleted, now);
    PersistedShape(ps, live, deleted, now);
    EmitFixpoint(AnnotateAll(ms, ps, deleted, now), PersistedSlots(ps, live, deleted, now), live);
  }

  lemma {:induction false} StoreRoundIds(ms: seq<Message>, ps: seq<Message>, deleted: set<string>, now: string,
      later: string)
    requires Clean(ms)
    ensures Ids(Merged(ms, Stored(Merged(ms, ps, deleted, now)), deleted, later))
         == Ids(Emit(AnnotateAll(ms, ps, deleted, now), SlotsOf(Nonblank(Merged(ms, ps, deleted, now)), IdSet(ms))))
  {
    var live := IdSet(ms);
    var r := Merged(ms, ps, deleted, now);
    FirstOfClean(ms, {});
    MergeContents(ms, ps, deleted, now);
    AnnotateAllIds(ms, ps, deleted, now);
    AnnotateAllIds(ms, Stored(r), deleted, later);
    StoredSlots(r, live, deleted, later);
    SameShapeEmit(AnnotateAll(ms, Stored(r), deleted, later), AnnotateAll(ms, ps, deleted, now),
                  PersistedSlots(Stored(r), live, deleted, later), SlotsOf(Nonblank(r), live));
  }

  lemma {:induction false} DropBlanks(ms: seq<Message>, ps: seq<Message>, deleted: set<string>, now: string,
      all: seq<Message>)
    requires Clean(ms) && StoredForm(ps)
    requires OrderSurvives(Merged(ms, ps, deleted, now), IdSet(ms))
    ensures Emit(all, SlotsOf(Nonblank(Merged(ms, ps, deleted, now)), IdSet(ms))) ==
      Emit(all, SlotsOf(Merged(ms, ps, deleted, now), IdSet(ms)))
  {
    var live := IdSet(ms);
    var r := Merged(ms, ps, deleted, now);
    IdSetIds(ms);
    MergeContents(ms, ps, deleted, now);
    forall m | m in r && m.id !in live ensures Storable(m) {
      LastCopyMember(ps, m.id);
    }
    forall x ensures Block(SlotsOf(Nonblank(r), live), x) == Block(SlotsOf(r, live), x) {
      NonblankBlocks(r, live, x);
    }
    EmitSameBlocks(all, SlotsOf(Nonblank(r), live), SlotsOf(r, live));
  }

  /** A live message the persisted list does not mention follows a live message, or starts the list. */
  lemma {:induction false} NoBlockWithoutCopy(ms: seq<Message>, qs: seq<Message>, deleted: set<string>, later: string,
      i: nat)
    requires Clean(ms)
    requires i + 1 < |Merged(ms, qs, deleted, later)|
    requires Merged(ms, qs, deleted, later)[i + 1].id in Ids(ms) && Merged(ms, qs, deleted, later)[i + 1].id !in Ids(qs)
    ensures Merged(ms, qs, deleted, later)[i].id in Ids(ms)
  {
    var slots := PersistedSlots(qs, IdSet(ms), deleted, later);
    FirstOfClean(ms, {});
    MergeContents(ms, qs, deleted, later);
    AnnotateAllIds(ms, qs, deleted, later);
    SurvivorsPersisted(qs, IdSet(ms), deleted, later);
    BlockEmpty(slots, Merged(ms, qs, deleted, later)[i + 1].id);
    EmitWithoutBlock(AnnotateAll(ms, qs, deleted, later), slots, i);
  }

  lemma {:induction false} SurvivorsPersisted(qs: seq<Message>, live: set<string>, deleted: set<string>, now: string)
    ensures forall x :: x in Survivors(PersistedSlots(qs, live, deleted, now)) ==> x in Ids(qs)
  {
    if qs != [] {
      SurvivorsPersisted(qs[1..], live, deleted, now);
      assert PersistedSlots(qs, live, deleted, now)[1..] == PersistedSlots(qs[1..], live, deleted, now);
    }
  }

  lemma {:induction false} BlankNotStored(r: seq<Message>, i: nat)
    requires Distinct(Ids(r)) && i < |r| && !Storable(r[i])
    ensures r[i].id !in Ids(Stored(r))
  {
    StoreDistinct(r, {});
    forall j | 0 <= j < |Nonblank(r)| ensures Ids(Stored(r))[j] != r[i].id {
      SameIdSame(r, Nonblank(r)[j], r[i]);
    }
  }

  // ----- records across the store

  /** Every locally deleted message the merge shows has its own stamp in the live list. */
  ghost predicate StampsSurvive(ms: seq<Message>, ps: seq<Message>, deleted: set<string>) {
    && (forall p :: p in ps && p.id in deleted ==> p.id in Ids(ms))
    && (forall m :: m in ms && m.id in deleted ==> m.deletedAt.Some?)
  }

  lemma {:induction false} StoredCopy(r: seq<Message>, m: Message)
    requires Distinct(Ids(r)) && m in r && Storable(m)
    ensures LastCopy(Stored(r), m.id) == Some(StoreRecord(m))
  {
    StoreDistinct(r, {});
    var j :| 0 <= j < |Nonblank(r)| && Nonblank(r)[j] == m;
    assert Stored(r)[j] in Stored(r);
    StoredIsStoredForm(r);
    LastCopyMember(Stored(r), m.id);
  }

  /** A stored copy carries no stamp and no actor, so it adds nothing to a live message. */
  lemma {:induction false} StoredCopyAddsNothing(m: Message, ps: seq<Message>, deleted: set<string>, now: string)
    requires StoredForm(ps)
    ensures Annotate(m, LastCopy(ps, m.id), deleted, now) == Annotate(m, None, deleted, now)
  {
    hide LastCopy;
    LastCopyMember(ps, m.id);
  }

  /** A merge with a stored list, record by record: stored copies have no stamp or actor to contribute. */
  lemma {:induction false} MergeWithStore(ms: seq<Message>, ps: seq<Message>, deleted: set<string>, now: string,
      m: Message)
    requires Clean(ms) && StoredForm(ps)
    ensures m in ms ==> Annotate(m, None, deleted, now) in Merged(ms, ps, deleted, now)
    ensures m in ps && m.id !in Ids(ms) ==> LocalEntry(m, deleted, now) in Merged(ms, ps, deleted, now)
  {
    StoredCopyAddsNothing(m, ps, deleted, now);
    assert Distinct(Ids(ps));
    hide Merged, LastCopy, StoredForm, Clean, Annotate, LocalEntry;
    var r := Merged(ms, ps, deleted, now);
    MergeContents(ms, ps, deleted, now);
    LastCopyMember(ps, m.id);
    if m in ms {
      assert Annotate(m, LastCopy(ps, m.id), deleted, now) in r;
    } else if m in ps && m.id !in Ids(ms) {
      IdsMember(ps, m.id);
      IdsMember(r, m.id);
      var n :| n in r && n.id == m.id;
      assert IsLocalCopy(n, ps, deleted, now);
    }
  }

  lemma {:induction false} CopySurvives(ms: seq<Message>, ps: seq<Message>, deleted: set<string>, now: string,
      p: Message)
    requires Clean(ms) && StoredForm(ps) && p in ps && p.id !in Ids(ms)
    ensures p in Stored(Merged(ms, ps, deleted, now))
  {
    MergeWithStore(ms, ps, deleted, now, p);
    MergeContents(ms, ps, deleted, now);
    StoredCopy(Merged(ms, ps, deleted, now), LocalEntry(p, deleted, now));
    LastCopyMember(Stored(Merged(ms, ps, deleted, now)), p.id);
  }

  /** If the records come back unchanged at a different clock, every stamp came from the live list. */
  lemma {:induction false} RecordsNecessary(ms: seq<Message>, ps: seq<Message>, deleted: set<string>, now: string,
      later: string)
    requires Clean(ms) && StoredForm(ps) && now != later
    requires Merged(ms, Stored(Merged(ms, ps, deleted, now)), deleted, later) == Merged(ms, ps, deleted, now)
    ensures StampsSurvive(ms, ps, deleted)
  {
    var r := Merged(ms, ps, deleted, now);
    StoredIsStoredForm(r);
    MergeContents(ms, ps, deleted, now);
    forall p | p in ps && p.id in deleted ensures p.id in Ids(ms) {
      if p.id !in Ids(ms) {
        CopySurvives(ms, ps, deleted, now, p);
        MergeWithStore(ms, ps, deleted, now, p);
        MergeWithStore(ms, Stored(r), deleted, later, p);
        SameIdSame(r, LocalEntry(p, deleted, now), LocalEntry(p, deleted, later));
      }
    }
    forall m | m in ms && m.id in deleted ensures m.deletedAt.Some? {
      MergeWithStore(ms, ps, deleted, now, m);
      MergeWithStore(ms, Stored(r), deleted, later, m);
      SameIdSame(r, Annotate(m, None, deleted, now), Annotate(m, None, deleted, later));
    }
  }

  lemma {:induction false} RecordHere(ms: seq<Message>, ps: seq<Message>, deleted: set<string>, now: string, n: Message)
    requires Clean(ms) && n in Merged(ms, ps, deleted, now)
    ensures n.id in Ids(ms) ==> exists l :: l in ms && n == Annotate(l, LastCopy(ps, l.id), deleted, now)
    ensures n.id !in Ids(ms) ==> IsLocalCopy(n, ps, deleted, now)
  {
    hide Merged, Annotate, IsLocalCopy, LastCopy;
    MergeContents(ms, ps, deleted, now);
  }

  /** What stands at one id of a merge with a stored list. */
  lemma {:induction false} RecordAt(ms: seq<Message>, ps: seq<Message>, deleted: set<string>, now: string, n: Message)
    returns (m: Message)
    requires Clean(ms) && StoredForm(ps) && n in Merged(ms, ps, deleted, now)
    ensures m.id == n.id
    ensures if n.id in Ids(ms) then m in ms && n == Annotate(m, None, deleted, now)
            else m in ps && n == LocalEntry(m, deleted, now)
  {
    hide Merged, LastCopy, Clean;
    RecordHere(ms, ps, deleted, now, n);
    LastCopyMember(ps, n.id);
    if n.id in Ids(ms) {
      m :| m in ms && n == Annotate(m, LastCopy(ps, m.id), deleted, now);
    } else {
      assert IsLocalCopy(n, ps, deleted, now);
      m := LastCopy(ps, n.id).value;
    }
  }

  lemma {:induction false} RecordsSufficient(ms: seq<Message>, ps: seq<Message>, deleted: set<string>, now: string,
      later: string, n: Message, n': Message)
    requires Clean(ms) && StoredForm(ps) && StampsSurvive(ms, ps, deleted)
    requires n in Merged(ms, ps, deleted, now)
    requires n' in Merged(ms, Stored(Merged(ms, ps, deleted, now)), deleted, later) && n'.id == n.id
    ensures n' == n
  {
    var r := Merged(ms, ps, deleted, now);
    StoredIsStoredForm(r);
    var m := RecordAt(ms, ps, deleted, now, n);
    var m' := RecordAt(ms, Stored(r), deleted, later, n');
    if n.id in Ids(ms) {
      SameIdSame(ms, m, m');
    } else {
      CopySurvives(ms, ps, deleted, now, m);
      SameIdSame(Stored(r), m, m');
    }
  }

  /** ... and only then. */
  lemma {:induction false} StoreViewIff(ms: seq<Message>, ps: seq<Message>, deleted: set<string>, now: string,
      later: string)
    requires Clean(ms) && StoredForm(ps)
    ensures Ids(Merged(ms, Stored(Merged(ms, ps, deleted, now)), deleted, later)) == Ids(Merged(ms, ps, deleted, now))
       <==> OrderSurvives(Merged(ms, ps, deleted, now), IdSet(ms))
  {
    hide Merged, OrderSurvives, Ids, Clean, StoredForm;
    var r := Merged(ms, ps, deleted, now);
    if OrderSurvives(r, IdSet(ms)) {
      StoreKeepsOrder(ms, ps, deleted, now, later);
    }
    if Ids(Merged(ms, Stored(r), deleted, later)) == Ids(r) {
      OrderNecessary(ms, ps, deleted, now, later);
    }
  }

  lemma {:induction false} OrderNecessary(ms: seq<Message>, ps: seq<Message>, deleted: set<string>, now: string,
      later: string)
    requires Clean(ms) && StoredForm(ps)
    requires Ids(Merged(ms, Stored(Merged(ms, ps, deleted, now)), deleted, later)) == Ids(Merged(ms, ps, deleted, now))
    ensures OrderSurvives(Merged(ms, ps, deleted, now), IdSet(ms))
  {
    hide Merged, Ids, Clean, StoredForm;
    var r := Merged(ms, ps, deleted, now);
    IdSetIds(ms);
    forall i | 0 <= i < |r| - 1 && r[i].id !in IdSet(ms) && r[i + 1].id in IdSet(ms) ensures r[i + 1].content != "" {
      if r[i + 1].content == "" {
        BlankMoves(ms, ps, deleted, now, later, i);
        assert false;
      }
    }
  }

  /** A persisted-only message directly before a blank live one is found elsewhere after the trip. */
  lemma {:induction false} BlankMoves(ms: seq<Message>, ps: seq<Message>, deleted: set<string>, now: string,
      later: string, i: nat)
    requires Clean(ms) && StoredForm(ps)
    requires i + 1 < |Merged(ms, ps, deleted, now)|
    requires Merged(ms, ps, deleted, now)[i].id !in Ids(ms) && Merged(ms, ps, deleted, now)[i + 1].id in Ids(ms)
    requires Merged(ms, ps, deleted, now)[i + 1].content == ""
    ensures Ids(Merged(ms, Stored(Merged(ms, ps, deleted, now)), deleted, later)) != Ids(Merged(ms, ps, deleted, now))
  {
    hide Merged, Ids, Clean, StoredForm, Stored;
    var r := Merged(ms, ps, deleted, now);
    var again := Merged(ms, Stored(r), deleted, later);
    MergeContents(ms, ps, deleted, now);
    BlankNotStored(r, i + 1);
    if Ids(again) == Ids(r) {
      assert |again| == |Ids(again)| == |r|;
      assert Ids(again)[i] == again[i].id == r[i].id && Ids(again)[i + 1] == again[i + 1].id == r[i + 1].id;
      NoBlockWithoutCopy(ms, Stored(r), deleted, later, i);
    }
  }

  // ----- the same condition on the two lists

  /** Every persisted-only message has no live successor in the persisted list, or one that is not blank. */
  ghost predicate HistoryAnchored(ms: seq<Message>, ps: seq<Message>) {
    forall i :: 0 <= i < |ps| && ps[i].id !in Ids(ms) ==> NotBlank(ms, LiveSuccessor(ps, i, IdSet(ms)))
  }

  ghost predicate NotBlank(ms: seq<Message>, x: string) {
    forall m :: m in ms && m.id == x ==> m.content != ""
  }

  lemma {:induction false} ShownContent(ms: seq<Message>, ps: seq<Message>, deleted: set<string>, now: string,
      n: Message)
    requires Clean(ms) && n in Merged(ms, ps, deleted, now) && n.id in Ids(ms)
    ensures n.content != "" <==> NotBlank(ms, n.id)
  {
    hide Merged, LastCopy, Clean;
    RecordHere(ms, ps, deleted, now, n);
    var l :| l in ms && n == Annotate(l, LastCopy(ps, l.id), deleted, now);
    forall m | m in ms && m.id == n.id ensures m == l {
      OneOfEach(ms, m, l);
    }
  }

  lemma {:induction false} OneOfEach(ms: seq<Message>, m: Message, l: Message)
    requires Clean(ms) && m in ms && l in ms
    ensures m.id == l.id ==> m == l
  {
    SameIdSame(ms, m, l);
  }

  /** The persisted message behind a persisted-only one that is shown. */
  lemma {:induction false} LocalSource(ms: seq<Message>, ps: seq<Message>, deleted: set<string>, now: string,
      n: Message)
    returns (i: nat)
    requires Clean(ms) && StoredForm(ps) && n in Merged(ms, ps, deleted, now) && n.id !in Ids(ms)
    ensures i < |ps| && ps[i].id == n.id && n == LocalEntry(ps[i], deleted, now)
  {
    hide Merged, Clean;
    var m := RecordAt(ms, ps, deleted, now, n);
    i :| 0 <= i < |ps| && ps[i] == m;
  }

  /** In a split around a block, a message of the block that a message outside the block follows is the block's last. */
  lemma {:induction false} LeavesBlock(r: seq<Message>, pre: seq<Message>, block: seq<Message>, post: seq<Message>,
      i: nat)
    requires r == pre + block + post && Distinct(Ids(r)) && i + 1 < |r|
    requires r[i] in block && r[i + 1] !in block
    ensures post != [] && r[i + 1] == post[0]
  {
    var k :| 0 <= k < |block| && block[k] == r[i];
    assert r[|pre| + k] == r[i];
    SameIdIndex(r, |pre| + k, i);
    OutsideBlock(pre, block, post, i + 1);
  }

  lemma {:induction false} OutsideBlock(pre: seq<Message>, block: seq<Message>, post: seq<Message>, i: nat)
    requires |pre| <= i < |pre| + |block| + |post|
    ensures (pre + block + post)[i] !in block ==> |pre| + |block| <= i
  {
    if i < |pre| + |block| {
      assert (pre + block + post)[i] == block[i - |pre|];
    }
  }

  lemma {:induction false} AnchoredShown(ms: seq<Message>, ps: seq<Message>, deleted: set<string>, now: string, i: nat)
    requires Clean(ms) && StoredForm(ps) && HistoryAnchored(ms, ps)
    requires i + 1 < |Merged(ms, ps, deleted, now)|
    requires Merged(ms, ps, deleted, now)[i].id !in Ids(ms) && Merged(ms, ps, deleted, now)[i + 1].id in Ids(ms)
    ensures Merged(ms, ps, deleted, now)[i + 1].content != ""
  {
    hide Merged, Clean, LiveSuccessor, NotBlank;
    var r := Merged(ms, ps, deleted, now);
    var j := LocalSource(ms, ps, deleted, now, r[i]);
    assert Distinct(Ids(ps));
    hide StoredForm;
    var pre, block, post := MergePosition(ms, ps, deleted, now, j);
    MergeIds(ms, ps, deleted, now);
    LeavesBlock(r, pre, block, post, i);
    ShownContent(ms, ps, deleted, now, r[i + 1]);
  }

  lemma {:induction false} ShownAnchored(ms: seq<Message>, ps: seq<Message>, deleted: set<string>, now: string, i: nat)
    requires Clean(ms) && StoredForm(ps) && OrderSurvives(Merged(ms, ps, deleted, now), IdSet(ms))
    requires i < |ps| && ps[i].id !in Ids(ms)
    ensures NotBlank(ms, LiveSuccessor(ps, i, IdSet(ms)))
  {
    hide Merged, Clean, NotBlank, StoredForm, LiveSuccessor;
    var x := LiveSuccessor(ps, i, IdSet(ms));
    var r := Merged(ms, ps, deleted, now);
    IdSetIds(ms);
    if x == "" {
      NoneUnnamed(ms);
    } else {
      assert Distinct(Ids(ps)) by {
        StoredDistinct(ps);
      }
      var pre, block, post := MergePosition(ms, ps, deleted, now, i);
      SuccessorLive(ps, i, IdSet(ms));
      var last := |pre| + |block| - 1;
      assert block != [] && r[last] == block[|block| - 1] && r[last + 1] == post[0];
      assert r[last] in block;
      ShownContent(ms, ps, deleted, now, r[last + 1]);
    }
  }

  lemma {:induction false} StoredDistinct(ps: seq<Message>)
    requires StoredForm(ps)
    ensures Distinct(Ids(ps))
  {
  }

  lemma {:induction false} NoneUnnamed(ms: seq<Message>)
    requires Clean(ms)
    ensures NotBlank(ms, "")
  {
    forall m | m in ms ensures m.id != "" {
      IdsMember(ms, m.id);
    }
  }

  lemma {:induction false} SuccessorLive(ps: seq<Message>, i: nat, live: set<string>)
    requires i < |ps|
    ensures LiveSuccessor(ps, i, live) != "" ==> LiveSuccessor(ps, i, live) in live
    decreases |ps| - i
  {
    if i + 1 < |ps| {
      SuccessorLive(ps, i + 1, live);
    }
  }

  lemma {:induction false} AnchoredIff(ms: seq<Message>, ps: seq<Message>, deleted: set<string>, now: string)
    requires Clean(ms) && StoredForm(ps)
    ensures OrderSurvives(Merged(ms, ps, deleted, now), IdSet(ms)) <==> HistoryAnchored(ms, ps)
  {
    hide Merged, Clean, StoredForm, LiveSuccessor, NotBlank;
    var r := Merged(ms, ps, deleted, now);
    IdSetIds(ms);
    if HistoryAnchored(ms, ps) {
      forall i | 0 <= i < |r| - 1 && r[i].id !in IdSet(ms) && r[i + 1].id in IdSet(ms) ensures r[i + 1].content != "" {
        AnchoredShown(ms, ps, deleted, now, i);
      }
    }
    if OrderSurvives(r, IdSet(ms)) {
      forall i | 0 <= i < |ps| && ps[i].id !in Ids(ms) ensures NotBlank(ms, LiveSuccessor(ps, i, IdSet(ms))) {
        ShownAnchored(ms, ps, deleted, now, i);
      }
    }
  }

  /** Persisting a merge, reading it back and merging again keeps the order exactly when every persisted-only
      message has no live successor or one that is not blank. */
  lemma {:induction false} StoreOrderIff(
      ms: seq<Message>, ps: seq<Message>, deleted: set<string>, now: string, later: string)
    requires Clean(ms) && StoredForm(ps)
    ensures Ids(Merged(ms, Stored(Merged(ms, ps, deleted, now)), deleted, later)) == Ids(Merged(ms, ps, deleted, now))
       <==> HistoryAnchored(ms, ps)
  {
    hide Merged, Clean, StoredForm, OrderSurvives, HistoryAnchored;
    StoreViewIff(ms, ps, deleted, now, later);
    AnchoredIff(ms, ps, deleted, now);
  }

  /** Persisting a merge, reading it back and merging the same live list at a later clock gives the same list if and
      only if every persisted-only message has no live successor or one that is not blank, and every locally deleted
      message shown carries a stamp of its own in the live list. */
  lemma {:induction false} StoreRoundTripIff(ms: seq<Message>, ps: seq<Message>, deleted: set<string>, now: string,
      later: string)
    requires Clean(ms) && StoredForm(ps) && now != later
    ensures Merged(ms, Stored(Merged(ms, ps, deleted, now)), deleted, later) == Merged(ms, ps, deleted, now)
       <==> HistoryAnchored(ms, ps) && StampsSurvive(ms, ps, deleted)
  {
    var r := Merged(ms, ps, deleted, now);
    var again := Merged(ms, Stored(r), deleted, later);
    StoreOrderIff(ms, ps, deleted, now, later);
    if again == r {
      RecordsNecessary(ms, ps, deleted, now, later);
    }
    if HistoryAnchored(ms, ps) && StampsSurvive(ms, ps, deleted) {
      assert |again| == |Ids(again)| == |r|;
      forall i | 0 <= i < |r| ensures again[i] == r[i] {
        assert Ids(again)[i] == Ids(r)[i];
        RecordsSufficient(ms, ps, deleted, now, later, r[i], again[i]);
      }
    }
  }

  /** A locally deleted, persisted-only message gets a new deletion time at every refresh. */
  lemma {:induction false} DeletionStampsDrift()
    ensures var p := Message("p", "hi", "", "", None, None);
      && Merged([], [p], {"p"}, "1") == [p.(deletedAt := Some("1"))]
      && Merged([], Stored(Merged([], [p], {"p"}, "1")), {"p"}, "2") == [p.(deletedAt := Some("2"))]
  {
    var p := Message("p", "hi", "", "", None, None);
    LoneEntry(p, {"p"}, "1");
    LoneEntry(p, {"p"}, "2");
    LoneStored(p.(deletedAt := Some("1")));
  }

  /** A single persisted message and no live one. */
  lemma {:induction false} LoneEntry(p: Message, deleted: set<string>, now: string)
    ensures Merged([], [p], deleted, now) == [LocalEntry(p, deleted, now)]
  {
    var slots := PersistedSlots([p], {}, deleted, now);
    assert [p][1..] == [];
    assert slots == [Entry(LocalEntry(p, deleted, now))];
    assert slots[1..] == [];
    assert FirstSurvivor(slots[1..]) == "" && Block(slots[1..], "") == [];
    assert IdSet([]) == {};
    assert FirstOf([], {}) == [] && AnnotateAll([], [p], deleted, now) == [];
    assert Emit([], slots) == Block(slots, "");
  }

  lemma {:induction false} LoneStored(m: Message)
    requires Storable(m)
    ensures Stored([m]) == [StoreRecord(m)]
  {
    assert [m][1..] == [];
    assert {} + {m.id} == {m.id};
    assert StoreFrom([m][1..], {m.id}) == [];
    assert StoreFrom([m], {}) == [StoreRecord(m)] + StoreFrom([m][1..], {} + {m.id});
  }

  lemma {:induction false} EmitAfterEntry(p: Message, t: Message)
    requires t.id != ""
    ensures Emit([t], [Entry(p), Survivor(t.id)]) == [p, t]
  {
    var s: seq<Slot> := [Entry(p), Survivor(t.id)];
    assert s[1..] == [Survivor(t.id)] && s[1..][1..] == [];
    assert FirstSurvivor(s[1..]) == t.id;
    assert Block([], t.id) == [] && Block([], "") == [];
    assert Block(s[1..], t.id) == Block(s[1..][1..], t.id) && Block(s[1..], "") == Block(s[1..][1..], "");
    assert Block(s, t.id) == [p] && Block(s, "") == [];
    EmitLone(t, s);
  }

  lemma {:induction false} EmitBeforeEntry(p: Message, t: Message)
    requires t.id != ""
    ensures Emit([t], [Entry(p)]) == [t, p]
  {
    var s: seq<Slot> := [Entry(p)];
    assert s[1..] == [] && FirstSurvivor(s[1..]) == "" && Block(s[1..], "") == [] && Block(s[1..], t.id) == [];
    assert Block(s, t.id) == [] && Block(s, "") == [p];
    EmitLone(t, s);
  }

  lemma {:induction false} EmitLone(t: Message, s: seq<Slot>)
    ensures Emit([t], s) == Before(s, t.id) + [t] + Block(s, "")
  {
    hide Block, Before;
    assert [t][1..] == [];
  }

  lemma {:induction false} MergeLone(t: Message, ps: seq<Message>, now: string)
    requires Annotate(t, LastCopy(ps, t.id), {}, now) == t
    ensures Merged([t], ps, {}, now) == Emit([t], PersistedSlots(ps, {t.id}, {}, now))
  {
    hide Emit, LastCopy, Annotate, PersistedSlots;
    assert IdSet([t]) == {t.id};
    assert [t][1..] == [];
    assert FirstOf([t], {}) == [t];
    assert AnnotateAll([t], ps, {}, now) == [t];
  }

  lemma {:induction false} LoneSlot(p: Message, live: set<string>, now: string)
    ensures PersistedSlots([p], live, {}, now) == [if p.id in live then Survivor(p.id) else Entry(p)]
  {
    assert [p][1..] == [] && IdSet([]) == {};
  }

  lemma {:induction false} PairOfSlots(p: Message, q: Message, now: string)
    requires p.id != q.id
    ensures PersistedSlots([p, q], {q.id}, {}, now) == [Entry(p), Survivor(q.id)]
  {
    assert [p, q][1..] == [q] && IdSet([q]) == {q.id};
    LoneSlot(q, {q.id}, now);
  }

  lemma {:induction false} LoneCopy(p: Message, id: string)
    ensures LastCopy([p], id) == if p.id == id then Some(p) else None
  {
    assert [p][1..] == [];
  }

  lemma {:induction false} StoredPair(p: Message, t: Message)
    requires Storable(p) && StoreRecord(p) == p && !Storable(t)
    ensures Stored([p, t]) == [p]
  {
    assert [p, t][1..] == [t] && [t][1..] == [];
    assert StoreFrom([t], {} + {p.id}) == [];
  }

  /** A remote tombstone is blank, so after one trip through the store the history in front of it slips behind it. */
  lemma {:induction false} HistorySlipsPastTombstone(p: Message, t: Message, content: string, now: string)
    requires Storable(p) && StoreRecord(p) == p
    requires t.id != "" && t.id != p.id && t.content == "" && t.deletedAt.Some?
    ensures Merged([t], [p, t.(content := content)], {}, now) == [p, t]
    ensures Merged([t], Stored([p, t]), {}, now) == [t, p]
  {
    hide Emit, PersistedSlots, StoreFrom, LastCopy, Merged;
    var q := t.(content := content);
    LoneCopy(q, t.id);
    LoneCopy(p, t.id);
    PairCopy(p, q);
    MergeLone(t, [p, q], now);
    PairOfSlots(p, q, now);
    EmitAfterEntry(p, t);
    StoredPair(p, t);
    MergeLone(t, [p], now);
    LoneSlot(p, {t.id}, now);
    EmitBeforeEntry(p, t);
  }

  lemma {:induction false} PairCopy(p: Message, q: Message)
    ensures LastCopy([p, q], q.id) == Some(q)
  {
    assert [p, q][1..] == [q];
    LoneCopy(q, q.id);
  }
}
