/** What a whole run of refreshes shows: every message follows its own life cycle, the order never changes,
    and tombstones are stamped once. */
module LiveHistory {
  import opened Sequences
  import opened JsText
  import opened Anchoring
  import opened Outcomes
  import opened LiveView

  datatype Refresh = Refresh(ms: seq<Message>, now: string)

  /** What `normalizeChatMessages` hands over: unrepeated, nonempty ids. */
  ghost predicate Clean(ms: seq<Message>) {
    Distinct(Ids(ms)) && "" !in Ids(ms)
  }

  ghost predicate CleanRun(h: seq<Refresh>) {
    forall i :: 0 <= i < |h| ==> Clean(h[i].ms)
  }

  /** The refs after a run of refreshes of one channel. */
  function Run(h: seq<Refresh>): Refs {
    if h == [] then NO_REFS else Next(Run(h[..|h| - 1]), h[|h| - 1].ms, h[|h| - 1].now)
  }

  /** The view the last refresh of a run shows. */
  function Shown(h: seq<Refresh>): seq<Message> {
    if h == [] then [] else View(Run(h[..|h| - 1]), h[|h| - 1].ms, h[|h| - 1].now)
  }

  // ----- one message's life, told without any of the refs

  datatype Fate =
    | Unseen
    | Live(m: Message)
    | Hidden(m: Message)           // lost in empty snapshots only: ambiguous, nothing is shown
    | Gone(m: Message, at: string) // lost while other messages stayed: deleted, first noticed at `at`

  function Find(ms: seq<Message>, id: string): Option<Message> {
    if ms == [] then None else if ms[0].id == id then Some(ms[0]) else Find(ms[1..], id)
  }

  function FateStep(f: Fate, e: Refresh, id: string): Fate {
    match Find(e.ms, id)
    case Some(m) => Live(m)
    case None =>
      if f.Unseen? || f.Gone? then f
      else if e.ms == [] then Hidden(f.m)
      else Gone(f.m, e.now)
  }

  function FateOf(h: seq<Refresh>, id: string): Fate {
    if h == [] then Unseen else FateStep(FateOf(h[..|h| - 1], id), h[|h| - 1], id)
  }

  /** What a fate shows on screen. */
  function Display(f: Fate): Option<Message> {
    match f
    case Live(m) => Some(m)
    case Gone(m, at) => Some(Tomb(m, at))
    case Unseen => None
    case Hidden(_) => None
  }

  lemma {:induction false} FindMember(ms: seq<Message>, id: string)
    ensures Find(ms, id).Some? <==> id in Ids(ms)
    ensures Find(ms, id).Some? ==> Find(ms, id).value in ms && Find(ms, id).value.id == id
    ensures Distinct(Ids(ms)) ==> forall m :: m in ms && m.id == id ==> Find(ms, id) == Some(m)
  {
    if ms != [] {
      FindMember(ms[1..], id);
      if Distinct(Ids(ms)) {
        DistinctTail(Ids(ms));
        forall m | m in ms && m.id == id ensures Find(ms, id) == Some(m) {
          if m in ms[1..] {
            IdsMember(ms[1..], id);
          }
        }
      }
    }
  }

  // ----- one refresh

  lemma {:induction false} RememberKeeps(seen: JsMap<Message>, ms: seq<Message>)
    requires Keyed(seen)
    ensures Keyed(Remember(seen, ms))
    decreases |ms|
  {
    if |ms| != 0 {
      seen.SetValid(ms[0].id, ms[0]);
      RememberKeeps(seen.Set(ms[0].id, ms[0]), ms[1..]);
    }
  }

  lemma {:induction false} RememberFinds(seen: JsMap<Message>, ms: seq<Message>, id: string)
    requires Distinct(Ids(ms))
    ensures id in Remember(seen, ms).vals <==> id in seen.vals || id in Ids(ms)
    ensures Find(ms, id).Some? ==> id in Remember(seen, ms).vals && Remember(seen, ms).vals[id] == Find(ms, id).value
    ensures Find(ms, id).None? && id in seen.vals ==>
      id in Remember(seen, ms).vals && Remember(seen, ms).vals[id] == seen.vals[id]
    decreases |ms|
  {
    if |ms| != 0 {
      DistinctTail(Ids(ms));
      RememberFinds(seen.Set(ms[0].id, ms[0]), ms[1..], id);
      FindMember(ms[1..], id);
    }
  }

  lemma {:induction false} NextTombsKeyed(r: Refs, ms: seq<Message>, now: string)
    requires Keyed(r.seen) && Keyed(r.tombs)
    ensures Keyed(NextTombs(r, ms, now))
  {
    var live := IdSet(ms);
    var healed := Heal(r.tombs, live);
    WithoutDistinct(r.tombs.keys, live);
    if ms != [] {
      WithoutDistinct(r.seen.keys, live + healed.vals.Keys);
      DistinctConcat(healed.keys, Without(r.seen.keys, live + healed.vals.Keys));
    }
  }

  lemma {:induction false} NextTombsAt(r: Refs, ms: seq<Message>, now: string, id: string)
    ensures id in NextTombs(r, ms, now).vals <==>
      id !in Ids(ms) && (id in r.tombs.vals || (ms != [] && id in r.seen.vals))
    ensures id in NextTombs(r, ms, now).vals ==>
      NextTombs(r, ms, now).vals[id] == if id in r.tombs.vals then r.tombs.vals[id] else Tomb(r.seen.vals[id], now)
  {
    IdSetIds(ms);
  }

  /** The ids of `order` that are live, in order. */
  function Shared(order: seq<string>, live: set<string>): seq<string> {
    if order == [] then []
    else if order[0] in live then [order[0]] + Shared(order[1..], live) else Shared(order[1..], live)
  }

  lemma {:induction false} OrderSlotsShape(order: seq<string>, live: set<string>, tombs: map<string, Message>)
    requires Distinct(order) && forall k :: k in tombs ==> tombs[k].id == k
    ensures var s := OrderSlots(order, live, tombs);
      && Distinct(Keys(s)) && Subseq(Keys(s), order)
      && Survivors(s) == Shared(order, live)
      && (forall x :: x in Survivors(s) <==> x in order && x in live)
      && (forall m :: m in Entries(s) <==> m.id in order && m.id !in live && m.id in tombs && m == tombs[m.id])
      && (forall x :: x in Keys(s) <==> x in order && (x in live || x in tombs))
  {
    if order != [] {
      DistinctTail(order);
      OrderSlotsShape(order[1..], live, tombs);
      var s := OrderSlots(order, live, tombs);
      assert s[1..] == OrderSlots(order[1..], live, tombs);
      if order[0] in live || order[0] in tombs {
        DistinctCons(order[0], Keys(s[1..]));
      }
    }
  }

  /** What the builder relies on between refreshes. */
  ghost predicate Sound(r: Refs) {
    && Keyed(r.seen) && Keyed(r.tombs)
    && Distinct(r.order) && "" !in r.order && "" !in r.tombs.vals && "" !in r.seen.vals
    && (forall x :: x in r.order ==> x in r.seen.vals)
    && (forall x :: x in r.tombs.vals ==> x in r.order)
  }

  function StepSlots(r: Refs, ms: seq<Message>, now: string): seq<Slot> {
    OrderSlots(r.order, IdSet(ms), NextTombs(r, ms, now).vals)
  }

  lemma {:induction false} StepWellAnchored(r: Refs, ms: seq<Message>, now: string)
    requires Sound(r) && Clean(ms)
    ensures WellAnchored(ms, StepSlots(r, ms, now))
    ensures Survivors(StepSlots(r, ms, now)) == Shared(r.order, IdSet(ms))
    ensures ms != [] ==> Keys(StepSlots(r, ms, now)) == r.order
  {
    var tombs := NextTombs(r, ms, now).vals;
    NextTombsKeyed(r, ms, now);
    OrderSlotsShape(r.order, IdSet(ms), tombs);
    IdSetIds(ms);
    if ms != [] {
      forall x | x in r.order ensures x in IdSet(ms) || x in tombs {
        NextTombsAt(r, ms, now, x);
      }
      NoSkips(r.order, IdSet(ms), tombs);
    }
  }

  lemma {:induction false} NoSkips(order: seq<string>, live: set<string>, tombs: map<string, Message>)
    requires forall x :: x in order ==> x in live || x in tombs
    requires forall k :: k in tombs ==> tombs[k].id == k
    ensures Keys(OrderSlots(order, live, tombs)) == order
  {
    if order != [] {
      NoSkips(order[1..], live, tombs);
    }
  }

  /** The unplaced tombstones are exactly those outside the previous order. */
  lemma {:induction false} UnplacedExactly(r: Refs, ms: seq<Message>, now: string)
    requires Sound(r) && Clean(ms)
    ensures forall x :: x in Unplaced(r, ms, now) <==> x in NextTombs(r, ms, now).vals && x !in r.order
    ensures Distinct(Unplaced(r, ms, now))
  {
    var tombs := NextTombs(r, ms, now);
    var slots := StepSlots(r, ms, now);
    NextTombsKeyed(r, ms, now);
    OrderSlotsShape(r.order, IdSet(ms), tombs.vals);
    StepWellAnchored(r, ms, now);
    EntriesDistinct(slots);
    EmitIdSet(ms, slots);
    IdSetIds(Entries(slots));
    IdSetIds(Emit(ms, slots));
    var drop := IdSet(Entries(slots)) + IdSet(Emit(ms, slots));
    WithoutDistinct(tombs.keys, drop);
    forall x | x in tombs.vals ensures x in drop <==> x in r.order {
      NextTombsAt(r, ms, now, x);
      if x in r.order {
        IdsMember(Entries(slots), x);
        assert tombs.vals[x] in Entries(slots);
      }
      if x in drop {
        IdsMember(Entries(slots), x);
      }
    }
  }

  /** The ids of a view are the live ids and the entombed ids, each once; its records are the live records
      and the stored tombstones. */
  lemma {:induction false} ViewContents(r: Refs, ms: seq<Message>, now: string)
    requires Sound(r) && Clean(ms)
    ensures Distinct(Ids(View(r, ms, now)))
    ensures forall x :: x in Ids(View(r, ms, now)) <==> x in Ids(ms) || x in NextTombs(r, ms, now).vals
    ensures forall m :: m in View(r, ms, now) ==>
      m in ms || (m.id in NextTombs(r, ms, now).vals && m == NextTombs(r, ms, now).vals[m.id])
  {
    var tombs := NextTombs(r, ms, now);
    var slots := StepSlots(r, ms, now);
    var base, rest := Emit(ms, slots), Pick(Unplaced(r, ms, now), tombs.vals);
    NextTombsKeyed(r, ms, now);
    OrderSlotsShape(r.order, IdSet(ms), tombs.vals);
    StepWellAnchored(r, ms, now);
    EntriesDistinct(slots);
    EmitIdSet(ms, slots);
    UnplacedExactly(r, ms, now);
    PickIds(Unplaced(r, ms, now), tombs.vals);
    PickKeys(Unplaced(r, ms, now), tombs.vals);
    IdsConcat(base, rest);
    IdSetIds(ms);
    forall x ensures x in Ids(Entries(slots)) <==> x in r.order && x in tombs.vals {
      NextTombsAt(r, ms, now, x);
      IdsMember(Entries(slots), x);
      if x in r.order && x in tombs.vals {
        assert tombs.vals[x] in Entries(slots);
      }
    }
    forall x | x in Unplaced(r, ms, now) ensures x !in Ids(ms) {
      NextTombsAt(r, ms, now, x);
    }
    DistinctConcat(Ids(base), Ids(rest));
  }

  lemma {:induction false} PickKeys(ks: seq<string>, vals: map<string, Message>)
    requires forall k :: k in ks ==> k in vals && vals[k].id == k
    ensures Ids(Pick(ks, vals)) == ks
  {
    if ks != [] {
      PickKeys(ks[1..], vals);
    }
  }

  // ----- the refs track every message's fate

  /** The refs and the view agree with the fate of one id. */
  ghost predicate TracksId(r: Refs, id: string, f: Fate) {
    match f
    case Unseen => id !in r.seen.vals && id !in r.tombs.vals && id !in r.order
    case Live(m) => id in r.seen.vals && r.seen.vals[id] == m && id !in r.tombs.vals && id in r.order && m.id == id
    case Hidden(m) => id in r.seen.vals && r.seen.vals[id] == m && id !in r.tombs.vals && id !in r.order && m.id == id
    case Gone(m, at) =>
      && id in r.seen.vals && r.seen.vals[id] == m
      && id in r.tombs.vals && r.tombs.vals[id] == Tomb(m, at)
      && id in r.order && m.id == id
  }

  ghost predicate Tracks(r: Refs, h: seq<Refresh>) {
    forall id: string {:trigger FateOf(h, id)} :: TracksId(r, id, FateOf(h, id))
  }

  lemma {:induction false} FateSnoc(h: seq<Refresh>, e: Refresh, id: string)
    ensures FateOf(h + [e], id) == FateStep(FateOf(h, id), e, id)
  {
    assert (h + [e])[..|h|] == h;
  }

  lemma {:induction false} ViewHas(r: Refs, ms: seq<Message>, now: string, id: string)
    requires Sound(r) && Clean(ms)
    ensures id in Ids(View(r, ms, now)) <==> id in Ids(ms) || id in NextTombs(r, ms, now).vals
  {
    hide View, NextTombs, Sound, Clean;
    ViewContents(r, ms, now);
  }

  lemma {:induction false} SeenAfter(seen: JsMap<Message>, ms: seq<Message>, id: string)
    requires Clean(ms)
    ensures id in Remember(seen, ms).vals <==> id in seen.vals || id in Ids(ms)
    ensures Find(ms, id).Some? <==> id in Ids(ms)
    ensures Find(ms, id).Some? ==> Remember(seen, ms).vals[id] == Find(ms, id).value && Find(ms, id).value.id == id
    ensures Find(ms, id).None? && id in seen.vals ==> Remember(seen, ms).vals[id] == seen.vals[id]
  {
    hide Remember, Find;
    RememberFinds(seen, ms, id);
    FindMember(ms, id);
  }

  lemma {:induction false} TracksStep(r: Refs, f: Fate, e: Refresh, id: string)
    requires Sound(r) && Clean(e.ms) && TracksId(r, id, f)
    ensures TracksId(Next(r, e.ms, e.now), id, FateStep(f, e, id))
  {
    hide View, NextTombs, Find, Remember, Sound, Clean;
    ViewHas(r, e.ms, e.now, id);
    NextTombsAt(r, e.ms, e.now, id);
    SeenAfter(r.seen, e.ms, id);
  }

  lemma {:induction false} SoundStep(r: Refs, ms: seq<Message>, now: string)
    requires Sound(r) && Clean(ms)
    ensures Sound(Next(r, ms, now))
  {
    ViewContents(r, ms, now);
    NextTombsKeyed(r, ms, now);
    RememberKeeps(r.seen, ms);
    var n := Next(r, ms, now);
    NextTombsAt(r, ms, now, "");
    RememberFinds(r.seen, ms, "");
    forall x | x in n.order ensures x in n.seen.vals {
      NextTombsAt(r, ms, now, x);
      RememberFinds(r.seen, ms, x);
    }
  }

  lemma {:induction false} RunTracks(h: seq<Refresh>)
    requires CleanRun(h)
    ensures Sound(Run(h)) && Tracks(Run(h), h)
  {
    if h != [] {
      var init, e := h[..|h| - 1], h[|h| - 1];
      RunTracks(init);
      SoundStep(Run(init), e.ms, e.now);
      forall id: string {:trigger FateOf(h, id)} ensures TracksId(Run(h), id, FateOf(h, id)) {
        TracksStep(Run(init), FateOf(init, id), e, id);
      }
    }
  }

  // ----- main results

  /** A view shows each message exactly as that message's own history says: live records as they came, deleted
      ones as the tombstone of their last live record stamped when the loss was first noticed, others not at all. */
  lemma {:induction false} ShownIsFates(h: seq<Refresh>, id: string)
    requires CleanRun(h)
    ensures Distinct(Ids(Shown(h)))
    ensures Find(Shown(h), id) == Display(FateOf(h, id))
  {
    RunTracks(h);
    FindMember(Shown(h), id);
    if h != [] {
      var init, e := h[..|h| - 1], h[|h| - 1];
      RunTracks(init);
      assert TracksId(Run(h), id, FateOf(h, id));
      assert TracksId(Run(init), id, FateOf(init, id));
      ViewContents(Run(init), e.ms, e.now);
      FindMember(e.ms, id);
      NextTombsAt(Run(init), e.ms, e.now, id);
    }
  }

  lemma {:induction false} FateSeen(h: seq<Refresh>, id: string)
    ensures FateOf(h, id).Unseen? <==> forall i :: 0 <= i < |h| ==> id !in Ids(h[i].ms)
  {
    if h != [] {
      var init := h[..|h| - 1];
      FateSeen(init, id);
      FindMember(h[|h| - 1].ms, id);
      assert forall i :: 0 <= i < |init| ==> init[i] == h[i];
    }
  }

  lemma {:induction false} HiddenOnlyAfterEmpty(h: seq<Refresh>, id: string)
    requires FateOf(h, id).Hidden?
    ensures h != [] && h[|h| - 1].ms == []
  {
    FindMember(h[|h| - 1].ms, id);
  }

  /** After a nonempty refresh nothing seen since the switch to this channel is missing, and nothing else is there. */
  lemma {:induction false} NothingEvaporates(h: seq<Refresh>, id: string)
    requires CleanRun(h) && h != [] && h[|h| - 1].ms != []
    ensures id in Ids(Shown(h)) <==> exists i :: 0 <= i < |h| && id in Ids(h[i].ms)
  {
    ShownIsFates(h, id);
    FindMember(Shown(h), id);
    FateSeen(h, id);
    if FateOf(h, id).Hidden? {
      HiddenOnlyAfterEmpty(h, id);
    }
  }

  lemma {:induction false} NothingIsClean()
    ensures Clean([])
  {
  }

  /** An empty refresh shows exactly the tombstones that already existed. */
  lemma {:induction false} EmptyRefreshShowsTombstones(h: seq<Refresh>, now: string, id: string)
    requires CleanRun(h)
    ensures Find(Shown(h + [Refresh([], now)]), id) ==
      (if FateOf(h, id).Gone? then Display(FateOf(h, id)) else None)
  {
    hide Shown, FateOf, Clean;
    var h' := h + [Refresh([], now)];
    NothingIsClean();
    ShownIsFates(h', id);
    FateSnoc(h, Refresh([], now), id);
  }

  /** While an id stays away, its fate is frozen once it is deleted. */
  lemma {:induction false} GoneStays(h: seq<Refresh>, ext: seq<Refresh>, id: string)
    requires FateOf(h, id).Gone?
    requires forall i :: 0 <= i < |ext| ==> id !in Ids(ext[i].ms)
    ensures FateOf(h + ext, id) == FateOf(h, id)
    decreases |ext|
  {
    if ext == [] {
      assert h + ext == h;
    } else {
      var init, e := ext[..|ext| - 1], ext[|ext| - 1];
      GoneStays(h, init, id);
      assert h + ext == (h + init) + [e];
      FateSnoc(h + init, e, id);
      FindMember(e.ms, id);
    }
  }

  /** A tombstone is stamped once: later clocks never change it while the id stays away; when the id is live
      again, the live record replaces it. */
  lemma {:induction false} TombstoneStampedOnce(h: seq<Refresh>, ext: seq<Refresh>, id: string, back: Refresh)
    requires CleanRun(h) && CleanRun(ext) && Clean(back.ms)
    requires FateOf(h, id).Gone?
    requires forall i :: 0 <= i < |ext| ==> id !in Ids(ext[i].ms)
    ensures Find(Shown(h + ext), id) == Some(Tomb(FateOf(h, id).m, FateOf(h, id).at))
    ensures id in Ids(back.ms) ==> Find(Shown(h + ext + [back]), id) == Find(back.ms, id)
  {
    hide Shown, FateOf, Clean, Find, Ids;
    assert CleanRun(h + ext) && CleanRun(h + ext + [back]);
    GoneStays(h, ext, id);
    ShownIsFates(h + ext, id);
    ShownIsFates(h + ext + [back], id);
    FateSnoc(h + ext, back, id);
    FindMember(back.ms, id);
  }

  /** When a deletion is first noticed, the tombstone carries that refresh's clock and the last live record. */
  lemma {:induction false} TombstoneAppears(h: seq<Refresh>, e: Refresh, id: string)
    requires CleanRun(h) && Clean(e.ms)
    requires FateOf(h, id).Live? && id !in Ids(e.ms) && e.ms != []
    ensures Find(Shown(h), id) == Some(FateOf(h, id).m)
    ensures Find(Shown(h + [e]), id) == Some(FateOf(h, id).m.(content := "", deletedAt := Some(e.now)))
  {
    hide Shown, FateOf, Clean, Find, Ids;
    assert CleanRun(h + [e]);
    ShownIsFates(h, id);
    ShownIsFates(h + [e], id);
    FateSnoc(h, e, id);
    FindMember(e.ms, id);
  }

  // ----- order

  /** The new snapshot and the previous view agree on the ids they share. */
  ghost predicate AgreesWith(ms: seq<Message>, order: seq<string>) {
    Subseq(Shared(order, IdSet(ms)), Ids(ms))
  }

  lemma {:induction false} RunOrder(h: seq<Refresh>)
    ensures Run(h).order == Ids(Shown(h))
  {
  }

  /** The incoming order is always kept; the previous order is kept exactly when the two agree. */
  lemma {:induction false} StepKeepsOrder(r: Refs, ms: seq<Message>, now: string)
    requires Sound(r) && Clean(ms) && ms != []
    ensures Subseq(Ids(ms), Ids(View(r, ms, now)))
    ensures Subseq(r.order, Ids(View(r, ms, now))) <==> AgreesWith(ms, r.order)
  {
    hide Emit, Pick, NextTombs, Sound, Subseq, Ids;
    var slots := StepSlots(r, ms, now);
    var base, rest := Emit(ms, slots), Pick(Unplaced(r, ms, now), NextTombs(r, ms, now).vals);
    StepWellAnchored(r, ms, now);
    IdsConcat(base, rest);
    EmitKeepsNew(ms, slots);
    SubseqConcat(Ids(ms), Ids(base), [], Ids(rest));
    EmitKeepsOldIff(ms, slots);
    assert Ids(ms) + [] == Ids(ms) && r.order + [] == r.order;
    if AgreesWith(ms, r.order) {
      SubseqConcat(r.order, Ids(base), [], Ids(rest));
    }
    if Subseq(r.order, Ids(base) + Ids(rest)) {
      StepOrderNecessary(r, ms, now);
    }
  }

  lemma {:induction false} StepOrderNecessary(r: Refs, ms: seq<Message>, now: string)
    requires Sound(r) && Clean(ms) && ms != []
    requires Subseq(r.order, Ids(View(r, ms, now)))
    ensures AgreesWith(ms, r.order)
  {
    var slots := StepSlots(r, ms, now);
    var rest := Pick(Unplaced(r, ms, now), NextTombs(r, ms, now).vals);
    StepWellAnchored(r, ms, now);
    UnplacedExactly(r, ms, now);
    NextTombsKeyed(r, ms, now);
    PickKeys(Unplaced(r, ms, now), NextTombs(r, ms, now).vals);
    IdsConcat(Emit(ms, slots), rest);
    forall x | x in Ids(rest) ensures x !in Ids(ms) {
      NextTombsAt(r, ms, now, x);
    }
    AgreeNecessary(ms, slots, Ids(rest));
  }

  lemma {:induction false} AgreeNecessary(ms: seq<Message>, slots: seq<Slot>, rest: seq<string>)
    requires WellAnchored(ms, slots)
    requires forall x :: x in rest ==> x !in Ids(ms)
    requires Subseq(Keys(slots), Ids(Emit(ms, slots)) + rest)
    ensures Agree(ms, slots)
  {
    var p := (x: string) => x in Ids(ms);
    SubseqFilter(Keys(slots), Ids(Emit(ms, slots)) + rest, p);
    FilterConcat(Ids(Emit(ms, slots)), rest, p);
    FilterNone(rest, p);
    FilterKeys(slots, p);
    FilterEmit(ms, slots, p);
    assert Ids(ms) + [] == Ids(ms);
  }

  /** Every refresh from position `from` on is nonempty and agrees with the view before it. */
  ghost predicate AgreeingFrom(h: seq<Refresh>, from: nat) {
    forall i :: from <= i < |h| ==> h[i].ms != [] && AgreesWith(h[i].ms, Ids(Shown(h[..i])))
  }

  lemma {:induction false} AgreesAt(h: seq<Refresh>, i: nat)
    requires AgreeingFrom(h, i) && i < |h|
    ensures h[i].ms != [] && AgreesWith(h[i].ms, Ids(Shown(h[..i]))) && AgreeingFrom(h, i + 1)
  {
    hide AgreesWith, Shown;
  }

  lemma {:induction false} OneMoreView(h: seq<Refresh>, i: nat)
    requires CleanRun(h) && i < |h| && h[i].ms != [] && AgreesWith(h[i].ms, Ids(Shown(h[..i])))
    ensures Subseq(Ids(Shown(h[..i])), Ids(Shown(h[..i + 1])))
  {
    hide Subseq, View, Next, AgreesWith, Sound, Tracks, Clean;
    RunTracks(h[..i]);
    RunOrder(h[..i]);
    StepKeepsOrder(Run(h[..i]), h[i].ms, h[i].now);
    assert h[..i + 1][..i] == h[..i] && h[..i + 1][i] == h[i];
  }

  /** Views never reorder: over any run of agreeing refreshes, every earlier view stays a subsequence of the last. */
  lemma {:induction false} ViewsNeverReorder(h: seq<Refresh>, i: nat)
    requires CleanRun(h) && i <= |h| && AgreeingFrom(h, i)
    ensures Subseq(Ids(Shown(h[..i])), Ids(Shown(h)))
    decreases |h| - i
  {
    if i == |h| {
      assert h[..i] == h;
      SubseqRefl(Ids(Shown(h)));
    } else {
      hide Subseq, Run, Shown, AgreesWith, Clean, AgreeingFrom;
      AgreesAt(h, i);
      OneMoreView(h, i);
      ViewsNeverReorder(h, i + 1);
      SubseqTrans(Ids(Shown(h[..i])), Ids(Shown(h[..i + 1])), Ids(Shown(h)));
    }
  }

  /** So no two messages ever swap places. */
  lemma {:induction false} NoTwoMessagesSwap(h: seq<Refresh>, i: nat, a: nat, b: nat) returns (a': nat, b': nat)
    requires CleanRun(h) && i <= |h| && AgreeingFrom(h, i)
    requires a < b < |Shown(h[..i])|
    ensures a' < b' < |Shown(h)|
    ensures Shown(h)[a'].id == Shown(h[..i])[a].id && Shown(h)[b'].id == Shown(h[..i])[b].id
    ensures Distinct(Ids(Shown(h)))
  {
    ViewsNeverReorder(h, i);
    ShownIsFates(h, "");
    a', b' := SubseqKeepsOrder(Ids(Shown(h[..i])), Ids(Shown(h)), a, b);
  }

  lemma {:induction false} TracksAt(h: seq<Refresh>, id: string)
    requires CleanRun(h)
    ensures Sound(Run(h)) && TracksId(Run(h), id, FateOf(h, id))
  {
    RunTracks(h);
  }

  /** Tombstones are appended outside the previous order only right after an empty refresh. */
  lemma {:induction false} UnplacedOnlyAfterEmpty(h: seq<Refresh>, ms: seq<Message>, now: string, id: string)
    requires CleanRun(h) && Clean(ms) && h != [] && h[|h| - 1].ms != []
    ensures id !in Unplaced(Run(h), ms, now)
  {
    TracksAt(h, id);
    UnplacedExactly(Run(h), ms, now);
    NextTombsAt(Run(h), ms, now, id);
    if FateOf(h, id).Hidden? {
      HiddenOnlyAfterEmpty(h, id);
    }
  }
}
