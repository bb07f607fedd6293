/** What merging promises: a common supersequence with every record accounted for, and when merging again
    changes nothing. */
module MergeLaws {
  import opened Sequences
  import opened Anchoring
  import opened Outcomes
  import opened LiveView
  import opened LiveHistory
  import opened Merge

  lemma {:induction false} FirstOfClean(ms: seq<Message>, emitted: set<string>)
    requires Distinct(Ids(ms)) && forall x :: x in Ids(ms) ==> x !in emitted
    ensures FirstOf(ms, emitted) == ms
    decreases |ms|
  {
    if |ms| != 0 {
      DistinctTail(Ids(ms));
      FirstOfClean(ms[1..], emitted + {ms[0].id});
    }
  }

  lemma {:induction false} AnnotateAllIds(ms: seq<Message>, ps: seq<Message>, deleted: set<string>, now: string)
    ensures Ids(AnnotateAll(ms, ps, deleted, now)) == Ids(ms)
  {
    if ms != [] {
      AnnotateAllIds(ms[1..], ps, deleted, now);
    }
  }

  lemma {:induction false} LastCopyMember(ps: seq<Message>, id: string)
    ensures LastCopy(ps, id).Some? <==> id in Ids(ps)
    ensures LastCopy(ps, id).Some? ==> LastCopy(ps, id).value in ps && LastCopy(ps, id).value.id == id
    ensures Distinct(Ids(ps)) ==> forall m :: m in ps && m.id == id ==> LastCopy(ps, id) == Some(m)
  {
    if ps != [] {
      LastCopyMember(ps[1..], id);
      if Distinct(Ids(ps)) {
        DistinctTail(Ids(ps));
        forall m | m in ps && m.id == id ensures LastCopy(ps, id) == Some(m) {
          if m in ps[1..] {
            IdsMember(ps[1..], id);
          }
        }
      }
    }
  }

  lemma {:induction false} PersistedShape(ps: seq<Message>, live: set<string>, deleted: set<string>, now: string)
    ensures var s := PersistedSlots(ps, live, deleted, now);
      && (forall x :: x in Survivors(s) ==> x in live)
      && (forall m :: m in Entries(s) ==> m.id !in live)
      && Distinct(Ids(Entries(s)))
      && (forall x :: x in Ids(Entries(s)) <==> x in Ids(ps) && x !in live)
  {
    if ps != [] {
      PersistedShape(ps[1..], live, deleted, now);
      var s := PersistedSlots(ps, live, deleted, now);
      assert s[1..] == PersistedSlots(ps[1..], live, deleted, now);
      IdSetIds(ps[1..]);
      if s[0].Entry? {
        DistinctCons(ps[0].id, Ids(Entries(s[1..])));
        assert Ids(Entries(s)) == [ps[0].id] + Ids(Entries(s[1..]));
      }
    }
  }

  predicate IsLocalCopy(m: Message, ps: seq<Message>, deleted: set<string>, now: string) {
    LastCopy(ps, m.id).Some? && m == LocalEntry(LastCopy(ps, m.id).value, deleted, now)
  }

  lemma {:induction false} PersistedEntries(ps: seq<Message>, live: set<string>, deleted: set<string>, now: string)
    ensures forall m :: m in Entries(PersistedSlots(ps, live, deleted, now)) ==> IsLocalCopy(m, ps, deleted, now)
  {
    if ps != [] {
      PersistedEntries(ps[1..], live, deleted, now);
      var s := PersistedSlots(ps, live, deleted, now);
      assert s[1..] == PersistedSlots(ps[1..], live, deleted, now);
      LastCopyMember(ps[1..], ps[0].id);
      IdSetIds(ps[1..]);
    }
  }

  lemma {:induction false} PersistedKeys(ps: seq<Message>, live: set<string>, deleted: set<string>, now: string)
    requires Distinct(Ids(ps))
    ensures Keys(PersistedSlots(ps, live, deleted, now)) == Ids(ps)
    ensures Survivors(PersistedSlots(ps, live, deleted, now)) == Shared(Ids(ps), live)
    ensures forall i :: 0 <= i < |ps| ==>
      PersistedSlots(ps, live, deleted, now)[i] ==
        (if ps[i].id in live then Survivor(ps[i].id) else Entry(LocalEntry(ps[i], deleted, now)))
  {
    if ps != [] {
      DistinctTail(Ids(ps));
      PersistedKeys(ps[1..], live, deleted, now);
      IdSetIds(ps[1..]);
      var s := PersistedSlots(ps, live, deleted, now);
      assert s[1..] == PersistedSlots(ps[1..], live, deleted, now);
    }
  }

  // ----- contents of a merge

  lemma {:induction false} MergeParts(ms: seq<Message>, ps: seq<Message>, deleted: set<string>, now: string)
    requires Clean(ms)
    ensures var all, slots := AnnotateAll(ms, ps, deleted, now), PersistedSlots(ps, IdSet(ms), deleted, now);
      && Merged(ms, ps, deleted, now) == Emit(all, slots)
      && Ids(all) == Ids(ms)
      && (forall x :: x in IdSet(ms) <==> x in Ids(ms))
  {
    hide Emit, LastCopy, Annotate, PersistedSlots;
    FirstOfClean(ms, {});
    AnnotateAllIds(ms, ps, deleted, now);
    IdSetIds(ms);
  }

  lemma {:induction false} MergeIds(ms: seq<Message>, ps: seq<Message>, deleted: set<string>, now: string)
    requires Clean(ms)
    ensures Distinct(Ids(Merged(ms, ps, deleted, now)))
    ensures forall x :: x in Ids(Merged(ms, ps, deleted, now)) <==> x in Ids(ms) || x in Ids(ps)
  {
    hide Emit, LastCopy, Annotate, PersistedSlots, AnnotateAll, Merged;
    MergeParts(ms, ps, deleted, now);
    PersistedShape(ps, IdSet(ms), deleted, now);
    EmitIdSet(AnnotateAll(ms, ps, deleted, now), PersistedSlots(ps, IdSet(ms), deleted, now));
  }

  lemma {:induction false} MergeMembers(ms: seq<Message>, ps: seq<Message>, deleted: set<string>, now: string,
      m: Message)
    requires Clean(ms)
    ensures m in Merged(ms, ps, deleted, now) <==>
      m in AnnotateAll(ms, ps, deleted, now) || m in Entries(PersistedSlots(ps, IdSet(ms), deleted, now))
    ensures m in Entries(PersistedSlots(ps, IdSet(ms), deleted, now)) ==> m.id !in Ids(ms)
  {
    hide Emit, LastCopy, Annotate, PersistedSlots, AnnotateAll, Merged;
    MergeParts(ms, ps, deleted, now);
    PersistedShape(ps, IdSet(ms), deleted, now);
    EmitIdSet(AnnotateAll(ms, ps, deleted, now), PersistedSlots(ps, IdSet(ms), deleted, now));
  }

  lemma {:induction false} MergeLive(ms: seq<Message>, ps: seq<Message>, deleted: set<string>, now: string)
    requires Clean(ms)
    ensures forall m :: m in ms ==> Annotate(m, LastCopy(ps, m.id), deleted, now) in Merged(ms, ps, deleted, now)
    ensures forall m :: m in Merged(ms, ps, deleted, now) && m.id in Ids(ms) ==>
      exists l :: l in ms && m == Annotate(l, LastCopy(ps, l.id), deleted, now)
  {
    hide LastCopy, Annotate, PersistedSlots, Merged, Clean, Entries;
    var all := AnnotateAll(ms, ps, deleted, now);
    forall m | m in ms ensures Annotate(m, LastCopy(ps, m.id), deleted, now) in Merged(ms, ps, deleted, now) {
      var i :| 0 <= i < |ms| && ms[i] == m;
      assert all[i] in all;
      MergeMembers(ms, ps, deleted, now, all[i]);
    }
    forall m | m in Merged(ms, ps, deleted, now) && m.id in Ids(ms)
      ensures exists l :: l in ms && m == Annotate(l, LastCopy(ps, l.id), deleted, now)
    {
      MergeMembers(ms, ps, deleted, now, m);
      var i :| 0 <= i < |all| && all[i] == m;
      assert ms[i] in ms;
    }
  }

  lemma {:induction false} MergeLocal(ms: seq<Message>, ps: seq<Message>, deleted: set<string>, now: string)
    requires Clean(ms)
    ensures forall m :: m in Merged(ms, ps, deleted, now) && m.id !in Ids(ms) ==> IsLocalCopy(m, ps, deleted, now)
  {
    hide LastCopy, Annotate, PersistedSlots, AnnotateAll, Merged, IsLocalCopy, Clean, Entries;
    var all := AnnotateAll(ms, ps, deleted, now);
    PersistedEntries(ps, IdSet(ms), deleted, now);
    forall m | m in Merged(ms, ps, deleted, now) && m.id !in Ids(ms) ensures IsLocalCopy(m, ps, deleted, now) {
      MergeMembers(ms, ps, deleted, now, m);
      AnnotateAllIds(ms, ps, deleted, now);
      if m in all {
        IdsMember(all, m.id);
      }
    }
  }

  /** Whatever the persisted list is, the merge of a clean live list shows every id of either list once:
      live ids with their annotated live record, the others with their last persisted copy. */
  lemma {:induction false} MergeContents(ms: seq<Message>, ps: seq<Message>, deleted: set<string>, now: string)
    requires Clean(ms)
    ensures var r := Merged(ms, ps, deleted, now);
      && Distinct(Ids(r))
      && (forall x :: x in Ids(r) <==> x in Ids(ms) || x in Ids(ps))
      && (forall m :: m in ms ==> Annotate(m, LastCopy(ps, m.id), deleted, now) in r)
      && (forall m :: m in r && m.id in Ids(ms) ==>
        exists l :: l in ms && m == Annotate(l, LastCopy(ps, l.id), deleted, now))
      && (forall m :: m in r && m.id !in Ids(ms) ==> IsLocalCopy(m, ps, deleted, now))
  {
    hide Merged, LastCopy, Annotate, IsLocalCopy;
    MergeIds(ms, ps, deleted, now);
    MergeLive(ms, ps, deleted, now);
    MergeLocal(ms, ps, deleted, now);
  }

  /** Merging two lists without repeated ids gives a common supersequence: the live order is always kept, the
      persisted order exactly when the two lists agree on the ids they share. */
  lemma {:induction false} MergeIsCommonSupersequence(ms: seq<Message>, ps: seq<Message>, deleted: set<string>,
      now: string)
    requires Clean(ms) && Distinct(Ids(ps))
    ensures Subseq(Ids(ms), Ids(Merged(ms, ps, deleted, now)))
    ensures Subseq(Ids(ps), Ids(Merged(ms, ps, deleted, now))) <==> AgreesWith(ms, Ids(ps))
  {
    var live := IdSet(ms);
    var slots := PersistedSlots(ps, live, deleted, now);
    var all := AnnotateAll(ms, ps, deleted, now);
    FirstOfClean(ms, {});
    AnnotateAllIds(ms, ps, deleted, now);
    IdSetIds(ms);
    PersistedShape(ps, live, deleted, now);
    PersistedKeys(ps, live, deleted, now);
    EmitKeepsNew(all, slots);
    EmitKeepsOldIff(all, slots);
  }

  /** The first live id after position `i` of the persisted list, "" if there is none. */
  function LiveSuccessor(ps: seq<Message>, i: nat, live: set<string>): string
    requires i < |ps|
    decreases |ps| - i
  {
    if i + 1 == |ps| then ""
    else if ps[i + 1].id in live then ps[i + 1].id
    else LiveSuccessor(ps, i + 1, live)
  }

  lemma {:induction false} SuccessorIsFirstSurvivor(ps: seq<Message>, i: nat, live: set<string>, deleted: set<string>,
      now: string)
    requires i < |ps| && Distinct(Ids(ps))
    ensures FirstSurvivor(PersistedSlots(ps, live, deleted, now)[i + 1..]) == LiveSuccessor(ps, i, live)
    decreases |ps| - i
  {
    PersistedKeys(ps, live, deleted, now);
    var s := PersistedSlots(ps, live, deleted, now);
    if i + 1 < |ps| {
      SuccessorIsFirstSurvivor(ps, i + 1, live, deleted, now);
      assert s[i + 1..][1..] == s[i + 2..];
    }
  }

  /** Where a persisted-only message lands: inside a run of persisted-only messages that stands directly before its
      first live successor and starts right after the preceding live message, or ends the list if it has none. */
  lemma {:induction false} MergePosition(ms: seq<Message>, ps: seq<Message>, deleted: set<string>, now: string, i: nat)
    returns (pre: seq<Message>, block: seq<Message>, post: seq<Message>)
    requires Clean(ms) && Distinct(Ids(ps))
    requires i < |ps| && ps[i].id !in Ids(ms)
    ensures Merged(ms, ps, deleted, now) == pre + block + post
    ensures LocalEntry(ps[i], deleted, now) in block
    ensures forall m :: m in block ==> m.id !in Ids(ms)
    ensures pre == [] || pre[|pre| - 1].id in Ids(ms)
    ensures LiveSuccessor(ps, i, IdSet(ms)) == "" ==> post == []
    ensures LiveSuccessor(ps, i, IdSet(ms)) != "" ==> post != [] && post[0].id == LiveSuccessor(ps, i, IdSet(ms))
  {
    var live := IdSet(ms);
    var slots := PersistedSlots(ps, live, deleted, now);
    var all := AnnotateAll(ms, ps, deleted, now);
    FirstOfClean(ms, {});
    AnnotateAllIds(ms, ps, deleted, now);
    IdSetIds(ms);
    PersistedShape(ps, live, deleted, now);
    PersistedKeys(ps, live, deleted, now);
    SuccessorIsFirstSurvivor(ps, i, live, deleted, now);
    pre, block, post := EntrySplit(all, slots, i, LiveSuccessor(ps, i, live));
    if pre != [] {
      IdsMember(all, pre[|pre| - 1].id);
    }
  }

  // ----- merging again

  /** Existing stamps and actors win: annotating with the annotated copy changes nothing, whatever the clock. */
  lemma {:induction false} AnnotateTwice(m: Message, local: Option<Message>, deleted: set<string>, now: string,
      later: string)
    ensures Annotate(m, Some(Annotate(m, local, deleted, now)), deleted, later) == Annotate(m, local, deleted, now)
  {
  }

  lemma {:induction false} PersistedSlotsOf(view: seq<Message>, live: set<string>, deleted: set<string>, now: string)
    requires Distinct(Ids(view))
    requires forall m :: m in view && m.id !in live ==> LocalEntry(m, deleted, now) == m
    ensures PersistedSlots(view, live, deleted, now) == SlotsOf(view, live)
  {
    PersistedKeys(view, live, deleted, now);
    forall i | 0 <= i < |view| ensures PersistedSlots(view, live, deleted, now)[i] == SlotsOf(view, live)[i] {
      assert view[i] in view;
    }
  }

  lemma {:induction false} MergeTwiceRecords(ms: seq<Message>, ps: seq<Message>, deleted: set<string>, now: string,
      later: string)
    requires Clean(ms)
    ensures AnnotateAll(ms, Merged(ms, ps, deleted, now), deleted, later) == AnnotateAll(ms, ps, deleted, now)
  {
    var r := Merged(ms, ps, deleted, now);
    MergeContents(ms, ps, deleted, now);
    forall i | 0 <= i < |ms|
      ensures AnnotateAll(ms, r, deleted, later)[i] == AnnotateAll(ms, ps, deleted, now)[i]
    {
      var m := ms[i];
      var a := Annotate(m, LastCopy(ps, m.id), deleted, now);
      assert m in ms && a in r;
      LastCopyMember(r, m.id);
      AnnotateTwice(m, LastCopy(ps, m.id), deleted, now, later);
    }
  }

  /** Fixpoint: merging the same live list with the previous merge result gives back that exact result, records
      included and at any later clock, however the first persisted list looked. */
  lemma {:induction false} MergeFixpoint(ms: seq<Message>, ps: seq<Message>, deleted: set<string>, now: string,
      later: string)
    requires Clean(ms) && now != ""
    ensures Merged(ms, Merged(ms, ps, deleted, now), deleted, later) == Merged(ms, ps, deleted, now)
  {
    hide Emit, LastCopy, Annotate, PersistedSlots, SlotsOf, FirstOf, AnnotateAll;
    var live := IdSet(ms);
    FirstOfClean(ms, {});
    IdSetIds(ms);
    assert PersistedSlots(Merged(ms, ps, deleted, now), live, deleted, later) ==
      SlotsOf(Merged(ms, ps, deleted, now), live) by {
      MergeContents(ms, ps, deleted, now);
      PersistedSlotsOf(Merged(ms, ps, deleted, now), live, deleted, later);
    }
    MergeTwiceRecords(ms, ps, deleted, now, later);
    AnnotateAllIds(ms, ps, deleted, now);
    PersistedShape(ps, live, deleted, now);
    EmitFixpoint(AnnotateAll(ms, ps, deleted, now), PersistedSlots(ps, live, deleted, now), live);
  }
}
