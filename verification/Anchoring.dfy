/** The message record and the backward-anchoring trick that both list reconcilers share. */
module Anchoring {
  import opened Outcomes
  import opened Sequences

  /** A chat message as far as reconciliation looks at it. `stored` stands for the remaining fields the
      local store keeps, `extra` for the fields it drops; both are only ever copied. */
  datatype Message = Message(
    id: string, content: string, stored: string, extra: string,
    deletedAt: Option<string>, deletedBy: Option<string>)

  /** JavaScript truthiness of an optional string. */
  predicate Truthy(s: Option<string>) {
    s.Some? && s.value != ""
  }

  function Ids(ms: seq<Message>): (r: seq<string>)
    ensures |r| == |ms|
    ensures forall i :: 0 <= i < |ms| ==> r[i] == ms[i].id
  {
    if ms == [] then [] else [ms[0].id] + Ids(ms[1..])
  }

  lemma {:induction false} IdsConcat(a: seq<Message>, b: seq<Message>)
    ensures Ids(a + b) == Ids(a) + Ids(b)
  {
  }

  /** One position of an older order, seen from a new list: a message the new list still has, a message
      only the old order has, or nothing to show. */
  datatype Slot = Survivor(id: string) | Entry(m: Message) | Skip

  /** The loop state of a backward walk: the next surviving id ("" for none), the groups to insert before
      each survivor, and the group that goes to the end. */
  datatype Walk = Walk(next: string, before: map<string, seq<Message>>, tail: seq<Message>)

  function Lookup(before: map<string, seq<Message>>, id: string): seq<Message> {
    if id in before then before[id] else []
  }

  function WalkStep(w: Walk, s: Slot): Walk {
    match s
    case Survivor(id) => w.(next := id)
    case Skip => w
    case Entry(m) =>
      if w.next != "" then w.(before := w.before[w.next := [m] + Lookup(w.before, w.next)])
      else w.(tail := [m] + w.tail)
  }

  function WalkBack(slots: seq<Slot>): Walk {
    if slots == [] then Walk("", map[], []) else WalkStep(WalkBack(slots[1..]), slots[0])
  }

  /** The first surviving id of a list of slots, "" if none. */
  function FirstSurvivor(slots: seq<Slot>): string {
    if slots == [] then ""
    else if slots[0].Survivor? then slots[0].id
    else FirstSurvivor(slots[1..])
  }

  /** Declaratively: the entries whose first surviving successor is `x`, in their order. */
  function Block(slots: seq<Slot>, x: string): seq<Message> {
    if slots == [] then []
    else if slots[0].Entry? && FirstSurvivor(slots[1..]) == x then [slots[0].m] + Block(slots[1..], x)
    else Block(slots[1..], x)
  }

  /** The walk computes exactly the blocks. */
  lemma {:induction false} WalkBackBlocks(slots: seq<Slot>)
    ensures WalkBack(slots).next == FirstSurvivor(slots)
    ensures forall x :: x != "" ==> Lookup(WalkBack(slots).before, x) == Block(slots, x)
    ensures "" !in WalkBack(slots).before
    ensures WalkBack(slots).tail == Block(slots, "")
  {
    if slots != [] {
      WalkBackBlocks(slots[1..]);
    }
  }

  function Before(slots: seq<Slot>, x: string): seq<Message> {
    if x == "" then [] else Block(slots, x)
  }

  /** The reconciled list: every new message preceded by its block, then the block without a successor. */
  function Emit(ms: seq<Message>, slots: seq<Slot>): seq<Message> {
    if ms == [] then Block(slots, "") else Before(slots, ms[0].id) + [ms[0]] + Emit(ms[1..], slots)
  }

  /** One round of an emitting loop. */
  lemma {:induction false} EmitHead(ms: seq<Message>, slots: seq<Slot>, view: seq<Message>)
    requires ms != []
    ensures view + Emit(ms, slots) == view + Lookup(WalkBack(slots).before, ms[0].id) + [ms[0]] + Emit(ms[1..], slots)
  {
    WalkBackBlocks(slots);
    assert Emit(ms, slots) == Before(slots, ms[0].id) + [ms[0]] + Emit(ms[1..], slots);
  }

  function Entries(slots: seq<Slot>): seq<Message> {
    if slots == [] then []
    else if slots[0].Entry? then [slots[0].m] + Entries(slots[1..])
    else Entries(slots[1..])
  }

  function Survivors(slots: seq<Slot>): seq<string> {
    if slots == [] then []
    else if slots[0].Survivor? then [slots[0].id] + Survivors(slots[1..])
    else Survivors(slots[1..])
  }

  /** The ids an old order would still show: survivors and entries. */
  function Keys(slots: seq<Slot>): seq<string> {
    if slots == [] then []
    else match slots[0] {
      case Survivor(id) => [id] + Keys(slots[1..])
      case Entry(m) => [m.id] + Keys(slots[1..])
      case Skip => Keys(slots[1..])
    }
  }

  /** What a reconciler guarantees before it anchors: the survivors are ids of the new list, the entries are not,
      ids are unrepeated, and those of the new list are nonempty. */
  ghost predicate WellAnchored(ms: seq<Message>, slots: seq<Slot>) {
    && Distinct(Ids(ms)) && Distinct(Keys(slots))
    && "" !in Ids(ms)
    && (forall x :: x in Survivors(slots) ==> x in Ids(ms))
    && (forall m :: m in Entries(slots) ==> m.id !in Ids(ms))
  }

  // ----- nothing is lost, nothing is duplicated

  lemma {:induction false} FirstSurvivorMember(slots: seq<Slot>)
    ensures FirstSurvivor(slots) == (if Survivors(slots) == [] then "" else Survivors(slots)[0])
  {
    if slots != [] {
      FirstSurvivorMember(slots[1..]);
    }
  }

  lemma {:induction false} EmitAddsEntry(ms: seq<Message>, slots: seq<Slot>)
    requires Distinct(Ids(ms)) && "" !in Ids(ms)
    requires slots != [] && slots[0].Entry?
    requires FirstSurvivor(slots[1..]) == "" || FirstSurvivor(slots[1..]) in Ids(ms)
    ensures multiset(Emit(ms, slots)) == multiset(Emit(ms, slots[1..])) + multiset{slots[0].m}
  {
    var rest := slots[1..];
    if ms != [] {
      DistinctTail(Ids(ms));
      assert Ids(ms) == [ms[0].id] + Ids(ms[1..]);
      if ms[0].id == FirstSurvivor(rest) {
        EmitSameElsewhere(ms[1..], slots);
      } else {
        EmitAddsEntry(ms[1..], slots);
      }
      OneMore(slots[0].m, ms[0], Before(rest, ms[0].id), Before(slots, ms[0].id), Emit(ms[1..], rest),
        Emit(ms[1..], slots));
    }
  }

  lemma {:induction false} OneMore<T>(e: T, m: T, b: seq<T>, b': seq<T>, t: seq<T>, t': seq<T>)
    requires (b' == [e] + b && t' == t) || (b' == b && multiset(t') == multiset(t) + multiset{e})
    ensures multiset(b' + [m] + t') == multiset(b + [m] + t) + multiset{e}
  {
    assert multiset(b' + [m] + t') == multiset(b') + multiset{m} + multiset(t');
    assert multiset(b + [m] + t) == multiset(b) + multiset{m} + multiset(t);
  }

  /** An entry changes nothing among messages other than the survivor it is anchored to. */
  lemma {:induction false} EmitSameElsewhere(ms: seq<Message>, slots: seq<Slot>)
    requires slots != [] && slots[0].Entry?
    requires FirstSurvivor(slots[1..]) != "" && FirstSurvivor(slots[1..]) !in Ids(ms)
    ensures Emit(ms, slots) == Emit(ms, slots[1..])
  {
    if ms != [] {
      assert Ids(ms) == [ms[0].id] + Ids(ms[1..]);
      EmitSameElsewhere(ms[1..], slots);
    }
  }

  /** Two slot lists with the same blocks emit the same list. */
  lemma {:induction false} EmitSameBlocks(ms: seq<Message>, a: seq<Slot>, b: seq<Slot>)
    requires Block(a, "") == Block(b, "")
    requires forall x :: x in Ids(ms) && x != "" ==> Block(a, x) == Block(b, x)
    ensures Emit(ms, a) == Emit(ms, b)
  {
    if ms != [] {
      assert Ids(ms) == [ms[0].id] + Ids(ms[1..]);
      EmitSameBlocks(ms[1..], a, b);
    }
  }

  lemma {:induction false} EmitNoEntries(ms: seq<Message>)
    ensures Emit(ms, []) == ms
  {
    if ms != [] {
      EmitNoEntries(ms[1..]);
      assert ms == [ms[0]] + ms[1..];
    }
  }

  lemma {:induction false} EmitDropsHead(ms: seq<Message>, slots: seq<Slot>)
    requires slots != [] && !slots[0].Entry?
    ensures Emit(ms, slots) == Emit(ms, slots[1..])
  {
    EmitSameBlocks(ms, slots, slots[1..]);
  }

  lemma {:induction false} EntriesCount(slots: seq<Slot>)
    requires slots != [] && slots[0].Entry?
    ensures multiset(Entries(slots)) == multiset(Entries(slots[1..])) + multiset{slots[0].m}
  {
    assert Entries(slots) == [slots[0].m] + Entries(slots[1..]);
  }

  /** Conservation: the reconciled list holds each new message and each entry exactly as often as they came. */
  lemma {:induction false} EmitConserves(ms: seq<Message>, slots: seq<Slot>)
    requires Distinct(Ids(ms)) && "" !in Ids(ms)
    requires forall x :: x in Survivors(slots) ==> x in Ids(ms)
    ensures multiset(Emit(ms, slots)) == multiset(ms) + multiset(Entries(slots))
  {
    hide Emit, Ids, Distinct;
    if slots == [] {
      EmitNoEntries(ms);
    } else {
      EmitConserves(ms, slots[1..]);
      if slots[0].Entry? {
        FirstSurvivorMember(slots[1..]);
        EmitAddsEntry(ms, slots);
        EntriesCount(slots);
      } else {
        EmitDropsHead(ms, slots);
      }
    }
  }

  lemma {:induction false} IdsMember(ms: seq<Message>, x: string)
    ensures x in Ids(ms) <==> exists m :: m in ms && m.id == x
  {
    if x in Ids(ms) {
      var i :| 0 <= i < |ms| && Ids(ms)[i] == x;
      assert ms[i] in ms;
    }
  }

  /** Reordering keeps ids unrepeated. */
  lemma {:induction false} DistinctIdsTransfer(a: seq<Message>, b: seq<Message>)
    requires multiset(a) == multiset(b) && Distinct(Ids(b))
    ensures Distinct(Ids(a))
  {
    assert Distinct(b) by {
      forall i, j | 0 <= i < j < |b| ensures b[i] != b[j] {
        assert Ids(b)[i] != Ids(b)[j];
      }
    }
    DistinctMultiset(a);
    DistinctMultiset(b);
    forall i, j | 0 <= i < j < |a| ensures Ids(a)[i] != Ids(a)[j] {
      assert a[i] in multiset(b) && a[j] in multiset(b);
      var p :| 0 <= p < |b| && b[p] == a[i];
      var q :| 0 <= q < |b| && b[q] == a[j];
      assert p != q;
      assert Ids(b)[p] != Ids(b)[q];
    }
  }

  /** The ids of the reconciled list are those of the new list and those of the entries, each once. */
  lemma {:induction false} EmitIdSet(ms: seq<Message>, slots: seq<Slot>)
    requires Distinct(Ids(ms)) && "" !in Ids(ms) && Distinct(Ids(Entries(slots)))
    requires forall x :: x in Survivors(slots) ==> x in Ids(ms)
    requires forall m :: m in Entries(slots) ==> m.id !in Ids(ms)
    ensures Distinct(Ids(Emit(ms, slots)))
    ensures forall x :: x in Ids(Emit(ms, slots)) <==> x in Ids(ms) || x in Ids(Entries(slots))
    ensures forall m :: m in Emit(ms, slots) <==> m in ms || m in Entries(slots)
  {
    var view, es := Emit(ms, slots), Entries(slots);
    EmitConserves(ms, slots);
    assert multiset(view) == multiset(ms + es);
    forall m ensures m in view <==> m in ms || m in es {
      assert m in view <==> m in multiset(view);
      assert m in ms + es <==> m in multiset(ms + es);
    }
    forall x ensures x in Ids(view) <==> x in Ids(ms) || x in Ids(es) {
      IdsMember(view, x);
      IdsMember(ms, x);
      IdsMember(es, x);
    }
    IdsConcat(ms, es);
    forall x | x in Ids(ms) ensures x !in Ids(es) {
      IdsMember(es, x);
    }
    DistinctConcat(Ids(ms), Ids(es));
    DistinctIdsTransfer(view, ms + es);
  }

  lemma {:induction false} EntriesDistinct(slots: seq<Slot>)
    requires Distinct(Keys(slots))
    ensures Distinct(Ids(Entries(slots))) && Distinct(Survivors(slots))
    ensures forall x :: x in Keys(slots) <==> x in Survivors(slots) || x in Ids(Entries(slots))
  {
    if slots != [] {
      if !slots[0].Skip? {
        DistinctTail(Keys(slots));
      }
      EntriesDistinct(slots[1..]);
      if slots[0].Entry? {
        DistinctCons(slots[0].m.id, Ids(Entries(slots[1..])));
        assert Ids(Entries(slots)) == [slots[0].m.id] + Ids(Entries(slots[1..]));
      } else if slots[0].Survivor? {
        DistinctCons(slots[0].id, Survivors(slots[1..]));
      }
    }
  }

  // ----- order

  /** Entries before the first survivor, and the slots after it. */
  function HeadEntries(slots: seq<Slot>): seq<Message> {
    if slots == [] || slots[0].Survivor? then []
    else if slots[0].Entry? then [slots[0].m] + HeadEntries(slots[1..])
    else HeadEntries(slots[1..])
  }

  function AfterFirst(slots: seq<Slot>): (r: seq<Slot>)
    ensures |r| <= |slots|
  {
    if slots == [] then [] else if slots[0].Survivor? then slots[1..] else AfterFirst(slots[1..])
  }

  lemma {:induction false} BlockEmpty(slots: seq<Slot>, x: string)
    requires x != "" && x !in Survivors(slots)
    ensures Block(slots, x) == []
  {
    if slots != [] {
      BlockEmpty(slots[1..], x);
      FirstSurvivorMember(slots[1..]);
    }
  }

  lemma {:induction false} NoSurvivors(slots: seq<Slot>)
    requires Survivors(slots) == []
    ensures Block(slots, "") == Entries(slots)
    ensures Keys(slots) == Ids(Entries(slots))
  {
    if slots != [] {
      NoSurvivors(slots[1..]);
      FirstSurvivorMember(slots[1..]);
    }
  }

  lemma {:induction false} LaterSurvivors(slots: seq<Slot>)
    requires Survivors(slots) != []
    ensures slots != [] && (!slots[0].Survivor? ==> Survivors(slots[1..]) != [])
  {
  }

  lemma {:induction false} SplitSurvivors(slots: seq<Slot>)
    requires Survivors(slots) != []
    ensures Survivors(slots) == [FirstSurvivor(slots)] + Survivors(AfterFirst(slots))
    ensures Entries(slots) == HeadEntries(slots) + Entries(AfterFirst(slots))
  {
    LaterSurvivors(slots);
    if !slots[0].Survivor? {
      SplitSurvivors(slots[1..]);
      if slots[0].Entry? {
        ConcatAssociates([slots[0].m], HeadEntries(slots[1..]), Entries(AfterFirst(slots[1..])));
      }
    }
  }

  lemma {:induction false} SplitKeys(slots: seq<Slot>)
    requires Survivors(slots) != []
    ensures Keys(slots) == (Ids(HeadEntries(slots)) + [FirstSurvivor(slots)]) + Keys(AfterFirst(slots))
  {
    hide Survivors;
    LaterSurvivors(slots);
    if slots[0].Survivor? {
      assert Ids(HeadEntries(slots)) == [];
    } else {
      SplitKeys(slots[1..]);
      if slots[0].Entry? {
        var id, head, after := slots[0].m.id, Ids(HeadEntries(slots[1..])), Keys(AfterFirst(slots[1..]));
        assert Ids(HeadEntries(slots)) == [id] + head;
        assert Keys(slots) == [id] + Keys(slots[1..]);
        ConcatAssociates([id], head, [FirstSurvivor(slots[1..])]);
        ConcatAssociates([id], head + [FirstSurvivor(slots[1..])], after);
      }
    }
  }

  lemma {:induction false} SplitBlock(slots: seq<Slot>, x: string)
    requires Survivors(slots) != []
    ensures Block(slots, x) ==
      (if x == FirstSurvivor(slots) then HeadEntries(slots) else []) + Block(AfterFirst(slots), x)
  {
    hide Survivors;
    LaterSurvivors(slots);
    if !slots[0].Survivor? {
      SplitBlock(slots[1..], x);
      if slots[0].Entry? && x == FirstSurvivor(slots) {
        ConcatAssociates([slots[0].m], HeadEntries(slots[1..]), Block(AfterFirst(slots[1..]), x));
      }
    }
  }

  lemma {:induction false} EmitIds(ms: seq<Message>, slots: seq<Slot>)
    requires ms != []
    ensures Ids(Emit(ms, slots)) == Ids(Before(slots, ms[0].id)) + [ms[0].id] + Ids(Emit(ms[1..], slots))
  {
    hide Ids, Before, Block;
    assert Ids([ms[0]]) == [ms[0].id];
    IdsConcat(Before(slots, ms[0].id) + [ms[0]], Emit(ms[1..], slots));
    IdsConcat(Before(slots, ms[0].id), [ms[0]]);
  }

  /** The new list's own order is always kept. */
  lemma {:induction false} EmitKeepsNew(ms: seq<Message>, slots: seq<Slot>)
    ensures Subseq(Ids(ms), Ids(Emit(ms, slots)))
  {
    if ms != [] {
      EmitKeepsNew(ms[1..], slots);
      EmitIds(ms, slots);
      var b, t := Ids(Before(slots, ms[0].id)), Ids(Emit(ms[1..], slots));
      SubseqConcat([], b, [ms[0].id], [ms[0].id]);
      SubseqConcat([] + [ms[0].id], b + [ms[0].id], Ids(ms[1..]), t);
      assert Ids(ms) == [] + [ms[0].id] + Ids(ms[1..]);
    }
  }

  /** The two lists agree on the ids they share: the survivors, in old order, are also in new order. */
  ghost predicate Agree(ms: seq<Message>, slots: seq<Slot>) {
    Subseq(Survivors(slots), Ids(ms))
  }

  lemma {:induction false} WellAnchoredTail(ms: seq<Message>, slots: seq<Slot>)
    requires ms != [] && WellAnchored(ms, slots)
    ensures Distinct(Ids(ms[1..])) && ms[0].id !in Ids(ms[1..]) && Ids(ms) == [ms[0].id] + Ids(ms[1..])
  {
    DistinctTail(Ids(ms));
  }

  /** The first new message is shared and comes first among the shared ids: its block is the head of the slots. */
  lemma {:induction false} PeelShared(ms: seq<Message>, slots: seq<Slot>)
    requires ms != [] && WellAnchored(ms, slots) && Agree(ms, slots)
    requires Survivors(slots) != [] && FirstSurvivor(slots) == ms[0].id
    ensures WellAnchored(ms[1..], AfterFirst(slots)) && Agree(ms[1..], AfterFirst(slots))
    ensures FirstSurvivor(slots) !in Survivors(AfterFirst(slots))
  {
    var y, rest := ms[0].id, AfterFirst(slots);
    WellAnchoredTail(ms, slots);
    EntriesDistinct(slots);
    SplitSurvivors(slots);
    DistinctTail(Survivors(slots));
    SubseqSame(Survivors(slots), y, Ids(ms[1..]));
    assert Survivors(slots)[1..] == Survivors(rest);
    SubseqMembers(Survivors(rest), Ids(ms[1..]));
    assert Distinct(Keys(rest)) by {
      SplitKeys(slots);
      DistinctParts(Ids(HeadEntries(slots)) + [y], Keys(rest));
    }
    assert forall m :: m in Entries(rest) ==> m in Entries(slots);
  }

  lemma {:induction false} PeelSharedEmit(ms: seq<Message>, slots: seq<Slot>)
    requires ms != [] && ms[0].id != "" && ms[0].id !in Ids(ms[1..])
    requires Survivors(slots) != [] && FirstSurvivor(slots) == ms[0].id
    requires FirstSurvivor(slots) !in Survivors(AfterFirst(slots))
    ensures Emit(ms, slots) == HeadEntries(slots) + [ms[0]] + Emit(ms[1..], AfterFirst(slots))
  {
    hide Block, HeadEntries, AfterFirst, FirstSurvivor, Survivors, Ids;
    var y, rest := ms[0].id, AfterFirst(slots);
    BlockEmpty(rest, y);
    SplitBlock(slots, y);
    forall x | x == "" || x in Ids(ms[1..]) ensures Block(slots, x) == Block(rest, x) {
      SplitBlock(slots, x);
    }
    EmitSameBlocks(ms[1..], slots, rest);
  }

  /** The first new message is not the next shared one, so it is not shared at all. */
  lemma {:induction false} PeelFresh(ms: seq<Message>, slots: seq<Slot>)
    requires ms != [] && WellAnchored(ms, slots) && Agree(ms, slots)
    requires Survivors(slots) == [] || FirstSurvivor(slots) != ms[0].id
    ensures WellAnchored(ms[1..], slots) && Agree(ms[1..], slots)
    ensures Emit(ms, slots) == [ms[0]] + Emit(ms[1..], slots)
  {
    WellAnchoredTail(ms, slots);
    FirstSurvivorMember(slots);
    SubseqSkip(Survivors(slots), ms[0].id, Ids(ms[1..]));
    SubseqMembers(Survivors(slots), Ids(ms[1..]));
    BlockEmpty(slots, ms[0].id);
  }

  /** Agreement is enough to keep the whole old order ... */
  lemma {:induction false} EmitKeepsOld(ms: seq<Message>, slots: seq<Slot>)
    requires WellAnchored(ms, slots) && Agree(ms, slots)
    ensures Subseq(Keys(slots), Ids(Emit(ms, slots)))
    decreases |ms|
  {
    FirstSurvivorMember(slots);
    if ms == [] {
      NoSurvivors(slots);
      SubseqRefl(Keys(slots));
    } else if Survivors(slots) != [] && FirstSurvivor(slots) == ms[0].id {
      var head, rest := HeadEntries(slots), AfterFirst(slots);
      PeelShared(ms, slots);
      WellAnchoredTail(ms, slots);
      PeelSharedEmit(ms, slots);
      EmitKeepsOld(ms[1..], rest);
      SplitKeys(slots);
      assert Ids([ms[0]]) == [ms[0].id];
      IdsConcat(head + [ms[0]], Emit(ms[1..], rest));
      IdsConcat(head, [ms[0]]);
      SubseqRefl(Ids(head + [ms[0]]));
      SubseqConcat(Ids(head + [ms[0]]), Ids(head + [ms[0]]), Keys(rest), Ids(Emit(ms[1..], rest)));
    } else {
      PeelFresh(ms, slots);
      EmitKeepsOld(ms[1..], slots);
      IdsConcat([ms[0]], Emit(ms[1..], slots));
      SubseqConcat([], [ms[0].id], Keys(slots), Ids(Emit(ms[1..], slots)));
      assert [] + Keys(slots) == Keys(slots);
    }
  }

  lemma {:induction false} FilterKeys(slots: seq<Slot>, p: string -> bool)
    requires forall x :: x in Survivors(slots) ==> p(x)
    requires forall m :: m in Entries(slots) ==> !p(m.id)
    ensures Filter(Keys(slots), p) == Survivors(slots)
  {
    if slots != [] {
      FilterKeys(slots[1..], p);
    }
  }

  /** Leaving the entries out of the reconciled list gives the new list back. */
  lemma {:induction false} FilterEmit(ms: seq<Message>, slots: seq<Slot>, p: string -> bool)
    requires forall x :: x in Ids(ms) ==> p(x)
    requires forall m :: m in Entries(slots) ==> !p(m.id)
    ensures Filter(Ids(Emit(ms, slots)), p) == Ids(ms)
  {
    if ms == [] {
      BlockMembers(slots, "");
      FilterNone(Ids(Block(slots, "")), p) by {
        forall x | x in Ids(Block(slots, "")) ensures !p(x) {
          IdsMember(Block(slots, ""), x);
        }
      }
    } else {
      FilterEmit(ms[1..], slots, p);
      EmitIds(ms, slots);
      var b, t := Ids(Before(slots, ms[0].id)), Ids(Emit(ms[1..], slots));
      BlockMembers(slots, ms[0].id);
      FilterNone(b, p) by {
        forall x | x in b ensures !p(x) {
          IdsMember(Before(slots, ms[0].id), x);
        }
      }
      FilterConcat(b + [ms[0].id], t, p);
      FilterConcat(b, [ms[0].id], p);
      assert ms[0].id in Ids(ms);
      FilterAll([ms[0].id], p);
    }
  }

  lemma {:induction false} BlockMembers(slots: seq<Slot>, x: string)
    ensures forall m :: m in Block(slots, x) ==> m in Entries(slots)
  {
    if slots != [] {
      BlockMembers(slots[1..], x);
    }
  }

  /** ... and necessary: the old order survives exactly when the two lists agree. */
  lemma {:induction false} EmitKeepsOldIff(ms: seq<Message>, slots: seq<Slot>)
    requires WellAnchored(ms, slots)
    ensures Subseq(Keys(slots), Ids(Emit(ms, slots))) <==> Agree(ms, slots)
  {
    if Agree(ms, slots) {
      EmitKeepsOld(ms, slots);
    }
    if Subseq(Keys(slots), Ids(Emit(ms, slots))) {
      var p := (x: string) => x in Ids(ms);
      SubseqFilter(Keys(slots), Ids(Emit(ms, slots)), p);
      FilterKeys(slots, p);
      FilterEmit(ms, slots, p);
    }
  }

  // ----- position of an entry

  lemma {:induction false} Assoc<T>(a: seq<T>, b: seq<T>, c: seq<T>, d: seq<T>, e: seq<T>)
    ensures a + (b + c + d + e) == (a + b) + c + d + e
  {
  }

  /** Around a new message with a nonempty id: its block stands directly before it. */
  lemma {:induction false} EmitAround(ms: seq<Message>, slots: seq<Slot>, k: nat) returns (pre: seq<Message>)
    requires k < |ms|
    ensures Emit(ms, slots) == pre + Before(slots, ms[k].id) + [ms[k]] + Emit(ms[k + 1..], slots)
    ensures k == 0 ==> pre == []
    ensures k > 0 ==> pre != [] && pre[|pre| - 1] == ms[k - 1]
  {
    if k == 0 {
      pre := [];
      assert ms[k + 1..] == ms[1..];
      assert Emit(ms, slots) == [] + Before(slots, ms[0].id) + [ms[0]] + Emit(ms[1..], slots);
    } else {
      var p := EmitAround(ms[1..], slots, k - 1);
      assert ms[1..][k..] == ms[k + 1..];
      pre := Before(slots, ms[0].id) + [ms[0]] + p;
      Assoc(Before(slots, ms[0].id) + [ms[0]], p, Before(slots, ms[k].id), [ms[k]], Emit(ms[k + 1..], slots));
    }
  }

  /** A new message with an empty block follows a new message, or starts the list. */
  lemma {:induction false} EmitWithoutBlock(ms: seq<Message>, slots: seq<Slot>, i: nat)
    requires i + 1 < |Emit(ms, slots)| && Distinct(Ids(Emit(ms, slots)))
    requires Emit(ms, slots)[i + 1].id in Ids(ms) && Block(slots, Emit(ms, slots)[i + 1].id) == []
    ensures Emit(ms, slots)[i].id in Ids(ms)
  {
    var k := IdIndex(ms, Emit(ms, slots)[i + 1].id);
    var pre := EmitAround(ms, slots, k);
    Precedes(Emit(ms, slots), pre, ms[k], Emit(ms[k + 1..], slots), i);
    assert ms[k - 1] in ms;
    IdsMember(ms, ms[k - 1].id);
  }

  lemma {:induction false} Precedes(r: seq<Message>, pre: seq<Message>, x: Message, post: seq<Message>, i: nat)
    requires r == pre + [] + [x] + post && Distinct(Ids(r))
    requires i + 1 < |r| && r[i + 1].id == x.id
    ensures pre != [] && r[i] == pre[|pre| - 1]
  {
    assert r[|pre|] == x;
    SameIdIndex(r, |pre|, i + 1);
  }

  lemma {:induction false} IdIndex(ms: seq<Message>, x: string) returns (k: nat)
    requires x in Ids(ms)
    ensures k < |ms| && ms[k].id == x
  {
    k :| 0 <= k < |Ids(ms)| && Ids(ms)[k] == x;
  }

  lemma {:induction false} SameIdIndex(r: seq<Message>, i: nat, j: nat)
    requires Distinct(Ids(r)) && i < |r| && j < |r| && r[i].id == r[j].id
    ensures i == j
  {
    assert Ids(r)[i] == Ids(r)[j];
  }

  lemma {:induction false} SameIdSame(r: seq<Message>, m: Message, n: Message)
    requires Distinct(Ids(r)) && m in r && n in r
    ensures m.id == n.id ==> m == n
  {
    hide Ids, Distinct;
    var i: nat :| i < |r| && r[i] == m;
    var j: nat :| j < |r| && r[j] == n;
    if m.id == n.id {
      SameIdIndex(r, i, j);
    }
  }

  lemma {:induction false} EmitEnds(ms: seq<Message>, slots: seq<Slot>) returns (pre: seq<Message>)
    ensures Emit(ms, slots) == pre + Block(slots, "")
    ensures ms == [] ==> pre == []
    ensures ms != [] ==> pre != [] && pre[|pre| - 1] == ms[|ms| - 1]
  {
    hide Block, Before;
    if ms == [] {
      pre := [];
    } else {
      var p := EmitEnds(ms[1..], slots);
      var head := Before(slots, ms[0].id) + [ms[0]];
      pre := head + p;
      assert head + (p + Block(slots, "")) == pre + Block(slots, "");
    }
  }

  /** A position of an old order is anchored: with a surviving successor `x` it lands in the block directly
      before `x`, which reaches back to the previous new message; without one it lands in the tail. */
  lemma {:induction false} BlockHolds(slots: seq<Slot>, i: nat)
    requires i < |slots| && slots[i].Entry?
    ensures slots[i].m in Block(slots, FirstSurvivor(slots[i + 1..]))
  {
    if i == 0 {
      assert slots[0 + 1..] == slots[1..];
    } else {
      BlockHolds(slots[1..], i - 1);
      assert slots[1..][i - 1 + 1..] == slots[i + 1..];
      assert slots[1..][i - 1] == slots[i];
    }
  }

  lemma {:induction false} EntryPosition(ms: seq<Message>, slots: seq<Slot>, i: nat, x: string)
      returns (pre: seq<Message>, k: nat)
    requires forall y :: y in Survivors(slots) ==> y in Ids(ms)
    requires i < |slots| && slots[i].Entry? && x == FirstSurvivor(slots[i + 1..])
    ensures slots[i].m in Block(slots, x)
    ensures x == "" ==> k == |ms| && Emit(ms, slots) == pre + Block(slots, "")
    ensures x != "" ==> k < |ms| && ms[k].id == x
    ensures x != "" ==> Emit(ms, slots) == pre + Block(slots, x) + [ms[k]] + Emit(ms[k + 1..], slots)
    ensures k > 0 ==> pre != [] && pre[|pre| - 1] == ms[k - 1]
    ensures k == 0 ==> pre == []
  {
    BlockHolds(slots, i);
    if x == "" {
      pre := EmitEnds(ms, slots);
      k := |ms|;
    } else {
      k := SurvivorIndex(ms, slots, i + 1);
      pre := EmitAround(ms, slots, k);
    }
  }

  /** The same, as a split of the reconciled list. */
  lemma {:induction false} EntrySplit(ms: seq<Message>, slots: seq<Slot>, i: nat, x: string)
    returns (pre: seq<Message>, block: seq<Message>, post: seq<Message>)
    requires forall y :: y in Survivors(slots) ==> y in Ids(ms)
    requires i < |slots| && slots[i].Entry? && x == FirstSurvivor(slots[i + 1..])
    ensures Emit(ms, slots) == pre + block + post
    ensures slots[i].m in block
    ensures forall m :: m in block ==> m in Entries(slots)
    ensures pre == [] || pre[|pre| - 1] in ms
    ensures if x == "" then post == [] else post != [] && post[0].id == x
  {
    hide Emit, Block, Entries, Survivors, FirstSurvivor, Ids;
    var k: nat;
    pre, k := EntryPosition(ms, slots, i, x);
    block := Block(slots, x);
    BlockMembers(slots, x);
    if x == "" {
      post := [];
      assert pre + block + post == pre + block;
    } else {
      post := [ms[k]] + Emit(ms[k + 1..], slots);
      ConcatAssociates(pre + block, [ms[k]], Emit(ms[k + 1..], slots));
    }
  }

  lemma {:induction false} SurvivorIndex(ms: seq<Message>, slots: seq<Slot>, i: nat) returns (k: nat)
    requires forall y :: y in Survivors(slots) ==> y in Ids(ms)
    requires i <= |slots| && FirstSurvivor(slots[i..]) != ""
    ensures k < |ms| && ms[k].id == FirstSurvivor(slots[i..])
  {
    var x := FirstSurvivor(slots[i..]);
    FirstSurvivorMember(slots[i..]);
    SurvivorsOfSuffix(slots, i);
    assert x in Survivors(slots);
    k :| 0 <= k < |Ids(ms)| && Ids(ms)[k] == x;
  }

  lemma {:induction false} SurvivorsOfSuffix(slots: seq<Slot>, i: nat)
    requires i <= |slots|
    ensures forall x :: x in Survivors(slots[i..]) ==> x in Survivors(slots)
  {
    if i == 0 {
      assert slots[0..] == slots;
    } else {
      SurvivorsOfSuffix(slots[1..], i - 1);
      assert slots[1..][i - 1..] == slots[i..];
    }
  }

  // ----- reconciling a list with its own earlier result

  /** A reconciled list read back as an old order. */
  function SlotsOf(view: seq<Message>, live: set<string>): (r: seq<Slot>)
    ensures |r| == |view|
    ensures forall i :: 0 <= i < |view| ==> r[i] == if view[i].id in live then Survivor(view[i].id) else Entry(view[i])
  {
    if view == [] then []
    else [if view[0].id in live then Survivor(view[0].id) else Entry(view[0])] + SlotsOf(view[1..], live)
  }

  lemma {:induction false} SlotsOfEntries(b: seq<Message>, live: set<string>)
    requires forall m :: m in b ==> m.id !in live
    ensures Survivors(SlotsOf(b, live)) == [] && Entries(SlotsOf(b, live)) == b
  {
    if b != [] {
      SlotsOfEntries(b[1..], live);
    }
  }

  lemma {:induction false} SlotsOfCons(view: seq<Message>, live: set<string>)
    requires view != []
    ensures SlotsOf(view, live)[1..] == SlotsOf(view[1..], live)
    ensures SlotsOf(view, live)[0] == if view[0].id in live then Survivor(view[0].id) else Entry(view[0])
  {
  }

  /** Up to its first survivor a view is entries. */
  lemma {:induction false} SlotsOfBlock(view: seq<Message>, k: nat, live: set<string>)
    requires k < |view| && view[k].id in live
    requires forall i :: 0 <= i < k ==> view[i].id !in live
    ensures FirstSurvivor(SlotsOf(view, live)) == view[k].id
    ensures HeadEntries(SlotsOf(view, live)) == view[..k]
  {
    hide SlotsOf;
    SlotsOfCons(view, live);
    if k > 0 {
      SlotsOfBlock(view[1..], k - 1, live);
      assert view[..k] == [view[0]] + view[1..][..k - 1];
    }
  }

  lemma {:induction false} SlotsOfRest(view: seq<Message>, k: nat, live: set<string>)
    requires k < |view| && view[k].id in live
    requires forall i :: 0 <= i < k ==> view[i].id !in live
    ensures AfterFirst(SlotsOf(view, live)) == SlotsOf(view[k + 1..], live)
    ensures Survivors(SlotsOf(view, live)) == [view[k].id] + Survivors(SlotsOf(view[k + 1..], live))
  {
    hide SlotsOf;
    SlotsOfCons(view, live);
    if k > 0 {
      SlotsOfRest(view[1..], k - 1, live);
      assert view[1..][k..] == view[k + 1..];
    }
  }

  lemma {:induction false} EmitSlotsOf(ms: seq<Message>, slots: seq<Slot>, live: set<string>)
    requires ms != [] && ms[0].id in live
    requires forall m :: m in Entries(slots) ==> m.id !in live
    ensures var s := SlotsOf(Emit(ms, slots), live);
      && FirstSurvivor(s) == ms[0].id
      && HeadEntries(s) == Before(slots, ms[0].id)
      && AfterFirst(s) == SlotsOf(Emit(ms[1..], slots), live)
      && Survivors(s) == [ms[0].id] + Survivors(SlotsOf(Emit(ms[1..], slots), live))
  {
    var b, view := Before(slots, ms[0].id), Emit(ms, slots);
    BlockMembers(slots, ms[0].id);
    assert view[|b|] == ms[0] && view[..|b|] == b && view[|b| + 1..] == Emit(ms[1..], slots);
    forall i | 0 <= i < |b| ensures view[i].id !in live {
      assert view[i] == b[i] && b[i] in b;
    }
    SlotsOfBlock(view, |b|, live);
    SlotsOfRest(view, |b|, live);
  }

  lemma {:induction false} SurvivorsOfEmit(ms: seq<Message>, slots: seq<Slot>, live: set<string>)
    requires forall x :: x in Ids(ms) ==> x in live
    requires forall m :: m in Entries(slots) ==> m.id !in live
    ensures Survivors(SlotsOf(Emit(ms, slots), live)) == Ids(ms)
  {
    if ms == [] {
      BlockMembers(slots, "");
      SlotsOfEntries(Block(slots, ""), live);
    } else {
      assert ms[0].id in Ids(ms);
      SurvivorsOfEmit(ms[1..], slots, live);
      EmitSlotsOf(ms, slots, live);
    }
  }

  /** Fixpoint: reconciling the same new list with the earlier result changes nothing. */
  lemma {:induction false} EmitFixpoint(ms: seq<Message>, slots: seq<Slot>, live: set<string>)
    requires Distinct(Ids(ms)) && "" !in Ids(ms)
    requires forall x :: x in Ids(ms) ==> x in live
    requires forall m :: m in Entries(slots) ==> m.id !in live
    ensures Emit(ms, SlotsOf(Emit(ms, slots), live)) == Emit(ms, slots)
  {
    if ms == [] {
      BlockMembers(slots, "");
      SlotsOfEntries(Block(slots, ""), live);
      NoSurvivors(SlotsOf(Block(slots, ""), live));
    } else {
      DistinctTail(Ids(ms));
      assert ms[0].id in Ids(ms);
      EmitSlotsOf(ms, slots, live);
      SurvivorsOfEmit(ms[1..], slots, live);
      PeelSharedEmit(ms, SlotsOf(Emit(ms, slots), live));
      EmitFixpoint(ms[1..], slots, live);
    }
  }
}
