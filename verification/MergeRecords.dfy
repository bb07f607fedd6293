/** What a merged conversation shows of each message, field by field. */
module MergeRecords {
  import opened Sequences
  import opened Anchoring
  import opened Outcomes
  import opened LiveHistory
  import opened LiveView
  import opened Merge
  import opened MergeLaws

  /** `stored` is the last persisted copy of the id, or nothing if there is none. */
  ghost predicate LastStored(ps: seq<Message>, id: string, stored: Option<Message>) {
    if stored.None? then forall i :: 0 <= i < |ps| ==> ps[i].id != id
    else exists i: nat :: LastAt(ps, i, stored.value) && stored.value.id == id
  }

  ghost predicate LastAt(ps: seq<Message>, i: nat, m: Message) {
    i < |ps| && ps[i] == m && forall j :: i < j < |ps| ==> ps[j].id != m.id
  }

  ghost predicate Absent(s: Option<string>) {
    s == None || s == Some("")
  }

  lemma {:induction false} LastCopyIsLast(ps: seq<Message>, id: string)
    ensures LastStored(ps, id, LastCopy(ps, id))
  {
    if ps != [] {
      var rest := ps[1..];
      LastCopyIsLast(rest, id);
      if LastCopy(rest, id).Some? {
        var i: nat :| LastAt(rest, i, LastCopy(rest, id).value) && LastCopy(rest, id).value.id == id;
        assert forall j :: i + 1 < j < |ps| ==> ps[j] == rest[j - 1];
        assert LastAt(ps, i + 1, LastCopy(rest, id).value);
      } else {
        assert forall j :: 0 < j < |ps| ==> ps[j] == rest[j - 1];
        assert ps[0].id == id ==> LastAt(ps, 0, ps[0]);
      }
    }
  }

  lemma {:induction false} OneLastStored(ps: seq<Message>, id: string, a: Option<Message>, b: Option<Message>)
    requires LastStored(ps, id, a) && LastStored(ps, id, b)
    ensures a == b
  {
    if a.Some? {
      var i: nat :| LastAt(ps, i, a.value);
      if b.Some? {
        var j: nat :| LastAt(ps, j, b.value);
      }
    }
  }

  /** A live message that is not deleted is shown as it is. Of a deleted one everything but the stamp and the actor is
      shown as it is; the stored stamp goes before its own, and the current time is the last resort; the stored actor
      counts when it names none itself. */
  lemma {:induction false} LiveRecord(ms: seq<Message>, ps: seq<Message>, deleted: set<string>, now: string,
      m: Message, stored: Option<Message>) returns (n: Message)
    requires Clean(ms) && m in ms && LastStored(ps, m.id, stored)
    ensures n in Merged(ms, ps, deleted, now) && n.id == m.id
    ensures forall o :: o in Merged(ms, ps, deleted, now) && o.id == m.id ==> o == n
    ensures m.id !in deleted && Absent(m.deletedAt) ==> n == m
    ensures n.content == m.content && n.stored == m.stored && n.extra == m.extra
    ensures m.id in deleted || !Absent(m.deletedAt) ==>
      n.deletedAt == if stored.Some? && stored.value.deletedAt != None then stored.value.deletedAt
                     else if m.deletedAt != None then m.deletedAt else Some(now)
    ensures m.id in deleted || !Absent(m.deletedAt) ==>
      n.deletedBy == if stored.Some? && !Absent(stored.value.deletedBy) && Absent(m.deletedBy)
                     then stored.value.deletedBy else m.deletedBy
  {
    hide Merged, LastCopy, LastStored, Clean, IsLocalCopy, Ids;
    var r := Merged(ms, ps, deleted, now);
    MergeContents(ms, ps, deleted, now);
    LastCopyIsLast(ps, m.id);
    OneLastStored(ps, m.id, stored, LastCopy(ps, m.id));
    n := Annotate(m, stored, deleted, now);
    forall o | o in r && o.id == m.id ensures o == n {
      SameIdSame(r, o, n);
    }
  }

  /** A message that is only persisted is shown as its last copy; at most a stamp is added, when it was deleted locally
      and the copy has none. */
  lemma {:induction false} StoredRecord(ms: seq<Message>, ps: seq<Message>, deleted: set<string>, now: string,
      p: Message) returns (n: Message)
    requires Clean(ms) && LastStored(ps, p.id, Some(p)) && p.id !in Ids(ms)
    ensures n in Merged(ms, ps, deleted, now) && n.id == p.id
    ensures forall o :: o in Merged(ms, ps, deleted, now) && o.id == p.id ==> o == n
    ensures n.content == p.content && n.stored == p.stored && n.extra == p.extra && n.deletedBy == p.deletedBy
    ensures n.deletedAt == if p.id in deleted && Absent(p.deletedAt) then Some(now) else p.deletedAt
  {
    hide Merged, LastCopy, Clean, Ids;
    var r := Merged(ms, ps, deleted, now);
    MergeContents(ms, ps, deleted, now);
    StoredIsPersisted(ps, p);
    LastCopyIsLast(ps, p.id);
    OneLastStored(ps, p.id, Some(p), LastCopy(ps, p.id));
    IdsMember(r, p.id);
    n :| n in r && n.id == p.id;
    assert IsLocalCopy(n, ps, deleted, now);
    forall o | o in r && o.id == p.id ensures o == n {
      SameIdSame(r, o, n);
    }
  }

  lemma {:induction false} StoredIsPersisted(ps: seq<Message>, p: Message)
    requires LastStored(ps, p.id, Some(p))
    ensures p.id in Ids(ps)
  {
    var i: nat :| LastAt(ps, i, p);
    assert Ids(ps)[i] == p.id;
  }

  /** Nothing else is shown. */
  lemma {:induction false} NothingElse(ms: seq<Message>, ps: seq<Message>, deleted: set<string>, now: string,
      n: Message)
    requires Clean(ms) && n in Merged(ms, ps, deleted, now)
    ensures (exists m :: m in ms && m.id == n.id) || exists p :: p in ps && p.id == n.id
  {
    hide Merged, Clean, IsLocalCopy;
    MergeContents(ms, ps, deleted, now);
    IdsMember(Merged(ms, ps, deleted, now), n.id);
    IdsMember(ms, n.id);
    IdsMember(ps, n.id);
  }

  // ----- repeated live ids

  /** The messages at these positions: the first one of each id that is not in `taken`. */
  ghost predicate FirstsAt(ms: seq<Message>, from: nat, taken: set<string>, first: seq<Message>, at: seq<nat>) {
    && Rising(at) && |at| == |first|
    && (forall i: nat :: i in at <==>
        from <= i < |ms| && ms[i].id !in taken && forall j :: from <= j < i ==> ms[j].id != ms[i].id)
    && (forall k :: 0 <= k < |at| ==> at[k] < |ms| && first[k] == ms[at[k]])
  }

  lemma {:induction false} FirstTaken(ms: seq<Message>, from: nat, taken: set<string>, first: seq<Message>,
      at: seq<nat>)
    requires from < |ms| && ms[from].id in taken && FirstsAt(ms, from + 1, taken, first, at)
    ensures FirstsAt(ms, from, taken, first, at)
  {
    hide Rising;
  }

  lemma {:induction false} FirstNew(ms: seq<Message>, from: nat, taken: set<string>, first: seq<Message>, at: seq<nat>)
    requires from < |ms| && ms[from].id !in taken && FirstsAt(ms, from + 1, taken + {ms[from].id}, first, at)
    ensures FirstsAt(ms, from, taken, [ms[from]] + first, [from] + at)
  {
    hide Rising;
    RisingCons(from, at);
    assert forall k :: 0 < k < |[from] + at| ==> ([from] + at)[k] == at[k - 1];
  }

  lemma {:induction false} FirstOfStep(ms: seq<Message>, from: nat, taken: set<string>)
    requires from <= |ms|
    ensures from == |ms| ==> FirstsAt(ms, from, taken, FirstOf(ms[from..], taken), [])
    ensures from < |ms| && ms[from].id in taken ==> FirstOf(ms[from..], taken) == FirstOf(ms[from + 1..], taken)
    ensures from < |ms| && ms[from].id !in taken ==>
      FirstOf(ms[from..], taken) == [ms[from]] + FirstOf(ms[from + 1..], taken + {ms[from].id})
  {
    if from < |ms| {
      assert ms[from..][1..] == ms[from + 1..];
    }
  }

  lemma {:induction false} FirstOfAt(ms: seq<Message>, from: nat, taken: set<string>) returns (at: seq<nat>)
    requires from <= |ms|
    ensures FirstsAt(ms, from, taken, FirstOf(ms[from..], taken), at)
    decreases |ms| - from
  {
    hide FirstsAt, FirstOf;
    FirstOfStep(ms, from, taken);
    if from == |ms| {
      at := [];
    } else {
      if ms[from].id in taken {
        at := FirstOfAt(ms, from + 1, taken);
        FirstTaken(ms, from, taken, FirstOf(ms[from + 1..], taken), at);
      } else {
        at := FirstOfAt(ms, from + 1, taken + {ms[from].id});
        FirstNew(ms, from, taken, FirstOf(ms[from + 1..], taken + {ms[from].id}), at);
        at := [from] + at;
      }
    }
  }

  /** Of live messages with the same id only the first one counts. */
  lemma {:induction false} RepeatsCountOnce(ms: seq<Message>, ps: seq<Message>, deleted: set<string>, now: string)
      returns (first: seq<Message>, at: seq<nat>)
    ensures FirstsAt(ms, 0, {}, first, at) && Distinct(Ids(first))
    ensures Merged(ms, ps, deleted, now) == Merged(first, ps, deleted, now)
  {
    hide FirstOf, Emit, AnnotateAll, PersistedSlots;
    first := FirstOf(ms, {});
    at := FirstOfAt(ms, 0, {});
    assert ms[0..] == ms;
    FirstsDistinct(ms, first, at);
    FirstOfClean(first, {});
    FirstsIds(ms, first, at);
  }

  lemma {:induction false} FirstsDistinct(ms: seq<Message>, first: seq<Message>, at: seq<nat>)
    requires FirstsAt(ms, 0, {}, first, at)
    ensures Distinct(Ids(first))
  {
    forall i, j | 0 <= i < j < |first| ensures first[i].id != first[j].id {
      assert at[j] in at;
    }
  }

  lemma {:induction false} FirstsIds(ms: seq<Message>, first: seq<Message>, at: seq<nat>)
    requires FirstsAt(ms, 0, {}, first, at)
    ensures IdSet(first) == IdSet(ms)
  {
    forall i: nat | i < |ms| ensures ms[i].id in IdSet(first) {
      var f := FirstWithId(ms, i);
      assert f in at;
    }
  }

  lemma {:induction false} FirstWithId(ms: seq<Message>, i: nat) returns (f: nat)
    requires i < |ms|
    ensures f < |ms| && ms[f].id == ms[i].id && forall j :: 0 <= j < f ==> ms[j].id != ms[i].id
  {
    f := 0;
    while ms[f].id != ms[i].id
      invariant f <= i && forall j :: 0 <= j < f ==> ms[j].id != ms[i].id
      decreases i - f
    {
      f := f + 1;
    }
  }
}
