/** Merging the live view with the locally persisted copy of a conversation (`mergePersistedMessages`). */
module Merge {
  import opened Anchoring
  import opened Outcomes
  import opened LiveView

  /** Gives an undated deletion a date. */
  function Stamp(m: Message, now: string): Message {
    if Truthy(m.deletedAt) then m else m.(deletedAt := Some(now))
  }

  function LocalEntry(m: Message, deleted: set<string>, now: string): Message {
    if m.id in deleted then Stamp(m, now) else m
  }

  /** The persisted order as slots: of a repeated id the last copy counts. */
  function PersistedSlots(ps: seq<Message>, live: set<string>, deleted: set<string>, now: string): (r: seq<Slot>)
    ensures |r| == |ps|
  {
    if ps == [] then []
    else
      var rest := PersistedSlots(ps[1..], live, deleted, now);
      if ps[0].id in live then [Survivor(ps[0].id)] + rest
      else if ps[0].id in IdSet(ps[1..]) then [Skip] + rest
      else [Entry(LocalEntry(ps[0], deleted, now))] + rest
  }

  /** The last persisted copy of an id. */
  function LastCopy(ps: seq<Message>, id: string): Option<Message> {
    if ps == [] then None
    else if LastCopy(ps[1..], id).Some? then LastCopy(ps[1..], id)
    else if ps[0].id == id then Some(ps[0]) else None
  }

  /** A live message with the local deletion stamp and actor, when it is deleted. */
  function Annotate(m: Message, local: Option<Message>, deleted: set<string>, now: string): Message {
    if m.id in deleted || Truthy(m.deletedAt) then
      m.(deletedAt :=
           if local.Some? && local.value.deletedAt.Some? then local.value.deletedAt
           else if m.deletedAt.Some? then m.deletedAt
           else Some(now),
         deletedBy :=
           if local.Some? && Truthy(local.value.deletedBy) && !Truthy(m.deletedBy) then local.value.deletedBy
           else m.deletedBy)
    else m
  }

  function AnnotateAll(ms: seq<Message>, ps: seq<Message>, deleted: set<string>, now: string): (r: seq<Message>)
    ensures |r| == |ms|
    ensures forall i :: 0 <= i < |ms| ==> r[i] == Annotate(ms[i], LastCopy(ps, ms[i].id), deleted, now)
  {
    if ms == [] then []
    else [Annotate(ms[0], LastCopy(ps, ms[0].id), deleted, now)] + AnnotateAll(ms[1..], ps, deleted, now)
  }

  /** Only the first message of each id, starting with the ids in `emitted` already taken. */
  function FirstOf(ms: seq<Message>, emitted: set<string>): seq<Message> {
    if ms == [] then []
    else if ms[0].id in emitted then FirstOf(ms[1..], emitted)
    else [ms[0]] + FirstOf(ms[1..], emitted + {ms[0].id})
  }

  function Merged(ms: seq<Message>, ps: seq<Message>, deleted: set<string>, now: string): seq<Message> {
    Emit(AnnotateAll(FirstOf(ms, {}), ps, deleted, now), PersistedSlots(ps, IdSet(ms), deleted, now))
  }

  // ----- the loops meet their specification

  lemma {:induction false} LastCopySnoc(ps: seq<Message>, i: nat, id: string)
    requires i < |ps|
    ensures LastCopy(ps[..i + 1], id) == if ps[i].id == id then Some(ps[i]) else LastCopy(ps[..i], id)
  {
    if i == 0 {
      assert ps[..1] == [ps[0]];
    } else {
      LastCopySnoc(ps[1..], i - 1, id);
      assert ps[..i + 1][1..] == ps[1..][..i] && ps[..i][1..] == ps[1..][..i - 1];
    }
  }

  method IndexLastCopies(ps: seq<Message>) returns (byId: map<string, Message>)
    ensures forall id :: LastCopy(ps, id) == if id in byId then Some(byId[id]) else None
  {
    byId := map[];
    var i := 0;
    while i < |ps|
      invariant 0 <= i <= |ps|
      invariant forall id :: LastCopy(ps[..i], id) == if id in byId then Some(byId[id]) else None
    {
      forall id ensures LastCopy(ps[..i + 1], id) == if ps[i].id == id then Some(ps[i]) else LastCopy(ps[..i], id) {
        LastCopySnoc(ps, i, id);
      }
      byId := byId[ps[i].id := ps[i]];
      i := i + 1;
    }
    assert ps[..i] == ps;
  }

  /** The backward walk over the persisted order. */
  method WalkPersisted(ps: seq<Message>, live: set<string>, deleted: set<string>, now: string)
    returns (before: map<string, seq<Message>>, tail: seq<Message>)
    ensures var w := WalkBack(PersistedSlots(ps, live, deleted, now)); before == w.before && tail == w.tail
  {
    var next := "";
    before, tail := map[], [];
    var queued: set<string> := {};
    var i := |ps|;
    while i > 0
      invariant 0 <= i <= |ps|
      invariant queued == IdSet(ps[i..]) - live
      invariant WalkBack(PersistedSlots(ps[i..], live, deleted, now)) == Walk(next, before, tail)
    {
      i := i - 1;
      var persisted := ps[i];
      assert ps[i..][1..] == ps[i + 1..] && ps[i..][0] == persisted;
      assert IdSet(ps[i..]) == {persisted.id} + IdSet(ps[i + 1..]);
      if persisted.id in live {
        next := persisted.id;
      } else if persisted.id !in queued {
        queued := queued + {persisted.id};
        var entry := if persisted.id in deleted then Stamp(persisted, now) else persisted;
        if next != "" {
          before := before[next := [entry] + Lookup(before, next)];
        } else {
          tail := [entry] + tail;
        }
      }
    }
    assert ps[0..] == ps;
  }

  lemma {:induction false} MergeStep(ms: seq<Message>, ps: seq<Message>, deleted: set<string>, now: string,
                                     slots: seq<Slot>, emitted: set<string>, view: seq<Message>)
    requires ms != [] && ms[0].id !in emitted
    ensures view + Emit(AnnotateAll(FirstOf(ms, emitted), ps, deleted, now), slots)
         == view + Lookup(WalkBack(slots).before, ms[0].id) + [Annotate(ms[0], LastCopy(ps, ms[0].id), deleted, now)]
            + Emit(AnnotateAll(FirstOf(ms[1..], emitted + {ms[0].id}), ps, deleted, now), slots)
  {
    var fs := FirstOf(ms, emitted);
    assert fs[1..] == FirstOf(ms[1..], emitted + {ms[0].id});
    var all := AnnotateAll(fs, ps, deleted, now);
    assert all[1..] == AnnotateAll(fs[1..], ps, deleted, now);
    EmitHead(all, slots, view);
  }

  method MergePersistedMessages(ms: seq<Message>, ps: seq<Message>, deleted: set<string>, now: string)
    returns (merged: seq<Message>)
    ensures merged == Merged(ms, ps, deleted, now)
  {
    var persistedById := IndexLastCopies(ps);
    var live := IdSet(ms);
    var before, tail := WalkPersisted(ps, live, deleted, now);
    ghost var slots := PersistedSlots(ps, live, deleted, now);
    merged := [];
    var emitted: set<string> := {};
    var i := 0;
    while i < |ms|
      invariant 0 <= i <= |ms|
      invariant Merged(ms, ps, deleted, now) ==
        merged + Emit(AnnotateAll(FirstOf(ms[i..], emitted), ps, deleted, now), slots)
    {
      var incoming := ms[i];
      assert ms[i..][1..] == ms[i + 1..] && ms[i..][0] == incoming;
      if incoming.id !in emitted {
        MergeStep(ms[i..], ps, deleted, now, slots, emitted, merged);
        emitted := emitted + {incoming.id};
        merged := merged + Lookup(before, incoming.id);
        var local := if incoming.id in persistedById then Some(persistedById[incoming.id]) else None;
        assert local == LastCopy(ps, incoming.id);
        merged := merged + [Annotate(incoming, local, deleted, now)];
      }
      i := i + 1;
    }
    WalkBackBlocks(slots);
    merged := merged + tail;
  }
}
