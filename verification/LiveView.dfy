/** Conversation reconciliation: turning a run of live snapshots into views in which vanished messages stay
    as anchored tombstones (`buildLiveView` and the refresh effect of ChatArea). */
module LiveView {
  import opened Sequences
  import opened JsText
  import opened Anchoring
  import opened Outcomes

  /** The three refs the view builder keeps between renders. */
  datatype Refs = Refs(seen: JsMap<Message>, tombs: JsMap<Message>, order: seq<string>)

  /** Both maps file every record under its own id. */
  ghost predicate Keyed(m: JsMap<Message>) {
    m.Valid() && forall k :: k in m.vals ==> m.vals[k].id == k
  }

  const NO_REFS := Refs(EmptyMap(), EmptyMap(), [])

  function IdSet(ms: seq<Message>): set<string> {
    set m | m in ms :: m.id
  }

  lemma {:induction false} IdSetIds(ms: seq<Message>)
    ensures forall x :: x in IdSet(ms) <==> x in Ids(ms)
  {
    forall x ensures x in IdSet(ms) <==> x in Ids(ms) {
      IdsMember(ms, x);
    }
  }

  /** What replaces a vanished message. */
  function Tomb(m: Message, now: string): Message {
    m.(content := "", deletedAt := Some(now))
  }

  /** Tombstones after healing: ids that are live again are forgotten. */
  function Heal(tombs: JsMap<Message>, live: set<string>): JsMap<Message> {
    JsMap(Without(tombs.keys, live), map k | k in tombs.vals && k !in live :: tombs.vals[k])
  }

  /** Tombstones after noticing which seen ids are not live and not yet entombed. */
  function Entomb(tombs: JsMap<Message>, seen: JsMap<Message>, live: set<string>, now: string): JsMap<Message> {
    JsMap(tombs.keys + Without(seen.keys, live + tombs.vals.Keys),
          tombs.vals + map k | k in seen.vals && k !in live && k !in tombs.vals :: Tomb(seen.vals[k], now))
  }

  function Remember(seen: JsMap<Message>, ms: seq<Message>): JsMap<Message>
    decreases |ms|
  {
    if |ms| == 0 then seen else Remember(seen.Set(ms[0].id, ms[0]), ms[1..])
  }

  function NextTombs(r: Refs, ms: seq<Message>, now: string): JsMap<Message> {
    var healed := Heal(r.tombs, IdSet(ms));
    if ms == [] then healed else Entomb(healed, r.seen, IdSet(ms), now)
  }

  function SlotFor(id: string, live: set<string>, tombs: map<string, Message>): Slot {
    if id in live then Survivor(id) else if id in tombs then Entry(tombs[id]) else Skip
  }

  function OrderSlots(order: seq<string>, live: set<string>, tombs: map<string, Message>): (r: seq<Slot>)
    ensures |r| == |order|
    ensures forall i :: 0 <= i < |order| ==> r[i] == SlotFor(order[i], live, tombs)
  {
    if order == [] then [] else [SlotFor(order[0], live, tombs)] + OrderSlots(order[1..], live, tombs)
  }

  function Pick(keys: seq<string>, vals: map<string, Message>): (r: seq<Message>)
    ensures (forall k :: k in keys ==> k in vals) ==>
      |r| == |keys| && forall i :: 0 <= i < |keys| ==> r[i] == vals[keys[i]]
  {
    if keys == [] then []
    else if keys[0] in vals then [vals[keys[0]]] + Pick(keys[1..], vals)
    else Pick(keys[1..], vals)
  }

  /** The anchored part of the view: live messages with tombstones re-anchored by the previous order. */
  function AnchoredView(r: Refs, ms: seq<Message>, now: string): seq<Message> {
    Emit(ms, OrderSlots(r.order, IdSet(ms), NextTombs(r, ms, now).vals))
  }

  /** Tombstones that the previous order does not place. */
  function Unplaced(r: Refs, ms: seq<Message>, now: string): seq<string> {
    var tombs := NextTombs(r, ms, now);
    var slots := OrderSlots(r.order, IdSet(ms), tombs.vals);
    Without(tombs.keys, IdSet(Entries(slots)) + IdSet(Emit(ms, slots)))
  }

  function View(r: Refs, ms: seq<Message>, now: string): seq<Message> {
    AnchoredView(r, ms, now) + Pick(Unplaced(r, ms, now), NextTombs(r, ms, now).vals)
  }

  function Next(r: Refs, ms: seq<Message>, now: string): Refs {
    Refs(Remember(r.seen, ms), NextTombs(r, ms, now), Ids(View(r, ms, now)))
  }

  // ----- the loops of the builder meet their specifications

  /** The healing loop over a snapshot of the keys. */
  function HealFrom(t: JsMap<Message>, ks: seq<string>, live: set<string>): JsMap<Message>
    decreases |ks|
  {
    if |ks| == 0 then t else HealFrom(if ks[0] in live then t.Delete(ks[0]) else t, ks[1..], live)
  }

  function KeySet(ks: seq<string>): set<string> {
    set k | k in ks
  }

  lemma {:induction false} HealFromAll(t: JsMap<Message>, ks: seq<string>, live: set<string>)
    ensures HealFrom(t, ks, live) == JsMap(Without(t.keys, live * KeySet(ks)), t.vals - (live * KeySet(ks)))
    decreases |ks|
  {
    if |ks| == 0 {
      WithoutNone(t.keys, live * KeySet(ks));
    } else {
      var d := live * KeySet(ks[1..]);
      if ks[0] in live {
        HealFromAll(t.Delete(ks[0]), ks[1..], live);
        WithoutTwice(t.keys, {ks[0]}, d);
        assert live * KeySet(ks) == {ks[0]} + d;
      } else {
        HealFromAll(t, ks[1..], live);
        assert live * KeySet(ks) == d;
      }
    }
  }

  lemma {:induction false} HealLoop(t: JsMap<Message>, live: set<string>)
    requires t.Valid()
    ensures HealFrom(t, t.keys, live) == Heal(t, live)
  {
    HealFromAll(t, t.keys, live);
    WithoutAgree(t.keys, live * KeySet(t.keys), live);
    assert t.vals - (live * KeySet(t.keys)) == Heal(t, live).vals;
  }

  /** The tombstones after `seen.keys[..i]` have been checked for disappearance. */
  ghost predicate Entombing(t: JsMap<Message>, start: JsMap<Message>, seen: JsMap<Message>, live: set<string>,
      now: string, i: nat)
    requires i <= |seen.keys| && seen.Valid()
  {
    && t.keys == start.keys + Without(seen.keys[..i], live + start.vals.Keys)
    && (forall k :: k in t.vals <==> k in start.vals || (k in seen.keys[..i] && k !in live))
    && (forall k :: k in t.vals ==> t.vals[k] == EntombedValue(start, seen, now, k, t.vals[k]))
  }

  function EntombedValue(start: JsMap<Message>, seen: JsMap<Message>, now: string, k: string, other: Message): Message {
    if k in start.vals then start.vals[k] else if k in seen.vals then Tomb(seen.vals[k], now) else other
  }

  lemma {:induction false} EntombStep(t: JsMap<Message>, start: JsMap<Message>, seen: JsMap<Message>, live: set<string>,
      now: string, i: nat)
    requires seen.Valid() && i < |seen.keys| && Entombing(t, start, seen, live, now, i)
    ensures var id := seen.keys[i];
      var next := if id !in live && id !in t.vals then t.Set(id, Tomb(seen.vals[id], now)) else t;
      Entombing(next, start, seen, live, now, i + 1)
  {
    hide Tomb, Distinct, Without;
    var ks := seen.keys;
    var id := ks[i];
    assert id !in ks[..i] by {
      NotEarlier(seen, i);
    }
    assert id in seen.vals;
    WithoutSnoc(ks, i, live + start.vals.Keys);
    EntombKeys(t.keys, start.keys, Without(ks[..i], live + start.vals.Keys), id);
    SnocMembers(ks, i);
  }

  lemma {:induction false} EntombStart(start: JsMap<Message>, seen: JsMap<Message>, live: set<string>, now: string)
    requires Keyed(seen)
    ensures seen.Valid() && Entombing(start, start, seen, live, now, 0)
  {
    assert start.keys + [] == start.keys;
  }

  lemma {:induction false} EntombDone(t: JsMap<Message>, start: JsMap<Message>, seen: JsMap<Message>, live: set<string>,
      now: string)
    requires seen.Valid() && Entombing(t, start, seen, live, now, |seen.keys|)
    ensures t == Entomb(start, seen, live, now)
  {
    hide Tomb, Without, Distinct;
    assert seen.keys[..|seen.keys|] == seen.keys;
    var done := Entomb(start, seen, live, now);
    assert t.vals.Keys == done.vals.Keys;
    assert t.vals == done.vals;
  }

  lemma {:induction false} KeyedAt(m: JsMap<Message>, i: nat)
    requires Keyed(m) && i < |m.keys|
    ensures m.Valid() && m.keys[i] in m.vals && m.vals[m.keys[i]].id == m.keys[i]
  {
    assert m.keys[i] in m.keys;
  }

  lemma {:induction false} KeyedSet(m: JsMap<Message>, id: string, r: Message)
    requires Keyed(m)
    ensures r.id == id ==> Keyed(m.Set(id, r))
  {
    m.SetValid(id, r);
  }

  lemma {:induction false} EntombKeys(keys: seq<string>, start: seq<string>, added: seq<string>, id: string)
    requires keys == start + added
    ensures keys + [id] == start + (added + [id]) && keys == start + (added + [])
  {
  }

  lemma {:induction false} NotEarlier(m: JsMap<Message>, i: nat)
    requires m.Valid() && i < |m.keys|
    ensures m.keys[i] !in m.keys[..i]
  {
    DistinctAt(m.keys, i);
  }

  lemma {:induction false} SnocMembers(ks: seq<string>, i: nat)
    requires i < |ks|
    ensures forall k :: k in ks[..i + 1] <==> k in ks[..i] || k == ks[i]
  {
    assert ks[..i + 1] == ks[..i] + [ks[i]];
  }

  function AnchoredIds(w: Walk): set<string> {
    (set k, m | k in w.before && m in w.before[k] :: m.id) + IdSet(w.tail)
  }

  lemma {:induction false} WalkBackAnchors(slots: seq<Slot>)
    ensures AnchoredIds(WalkBack(slots)) == IdSet(Entries(slots))
  {
    if slots != [] {
      WalkBackAnchors(slots[1..]);
      var w, w' := WalkBack(slots[1..]), WalkBack(slots);
      if slots[0].Entry? {
        var m := slots[0].m;
        assert IdSet(Entries(slots)) == {m.id} + IdSet(Entries(slots[1..]));
        if w.next == "" {
          assert w'.tail == [m] + w.tail;
          assert IdSet(w'.tail) == {m.id} + IdSet(w.tail);
        } else {
          BeforeGrows(w, w', m);
        }
      }
    }
  }

  lemma {:induction false} BeforeGrows(w: Walk, w': Walk, m: Message)
    requires w'.before == w.before[w.next := [m] + Lookup(w.before, w.next)] && w'.tail == w.tail
    ensures AnchoredIds(w') == {m.id} + AnchoredIds(w)
  {
    assert m in w'.before[w.next];
    forall x | x in AnchoredIds(w') ensures x in {m.id} + AnchoredIds(w) {
      if x !in IdSet(w.tail) {
        var k, n :| k in w'.before && n in w'.before[k] && n.id == x;
        assert k == w.next ==> n == m || n in Lookup(w.before, w.next);
      }
    }
    forall x | x in {m.id} + AnchoredIds(w) ensures x in AnchoredIds(w') {
      if x != m.id && x !in IdSet(w.tail) {
        var k, n :| k in w.before && n in w.before[k] && n.id == x;
        assert k == w.next ==> n in w'.before[k];
        assert k in w'.before && n in w'.before[k];
      }
    }
  }

  /** The conversation's mutable refs, updated in place by every refresh. */
  class ViewRefs {
    var liveSeen: JsMap<Message>
    var remoteTombstones: JsMap<Message>
    var liveOrder: seq<string>

    ghost predicate Valid()
      reads this
    {
      Keyed(liveSeen) && Keyed(remoteTombstones)
    }

    function Value(): Refs
      reads this
    {
      Refs(liveSeen, remoteTombstones, liveOrder)
    }

    constructor ()
      ensures Valid() && Value() == NO_REFS
    {
      liveSeen, remoteTombstones, liveOrder := EmptyMap(), EmptyMap(), [];
    }

    method Reset()
      modifies this
      ensures Valid() && Value() == NO_REFS
    {
      liveSeen, remoteTombstones, liveOrder := EmptyMap(), EmptyMap(), [];
    }

    method HealTombstones(live: set<string>)
      requires Valid()
      modifies this`remoteTombstones
      ensures Valid() && remoteTombstones == Heal(old(remoteTombstones), live)
    {
      var ks := remoteTombstones.keys;
      var i := 0;
      while i < |ks|
        invariant 0 <= i <= |ks| && Keyed(remoteTombstones)
        invariant HealFrom(remoteTombstones, ks[i..], live) == HealFrom(old(remoteTombstones), ks, live)
      {
        assert ks[i..][1..] == ks[i + 1..];
        remoteTombstones.DeleteValid(ks[i]);
        if ks[i] in live {
          remoteTombstones := remoteTombstones.Delete(ks[i]);
        }
        i := i + 1;
      }
      HealLoop(old(remoteTombstones), live);
    }

    method EntombVanished(live: set<string>, now: string)
      requires Valid()
      modifies this`remoteTombstones
      ensures Valid() && remoteTombstones == Entomb(old(remoteTombstones), liveSeen, live, now)
    {
      hide Entombing, Entomb, Keyed;
      var i := 0;
      EntombStart(remoteTombstones, liveSeen, live, now);
      while i < |liveSeen.keys|
        invariant 0 <= i <= |liveSeen.keys| && Keyed(remoteTombstones) && Keyed(liveSeen)
        invariant liveSeen.Valid() && Entombing(remoteTombstones, old(remoteTombstones), liveSeen, live, now, i)
      {
        var id := liveSeen.keys[i];
        KeyedAt(liveSeen, i);
        EntombStep(remoteTombstones, old(remoteTombstones), liveSeen, live, now, i);
        KeyedSet(remoteTombstones, id, Tomb(liveSeen.vals[id], now));
        if id !in live && id !in remoteTombstones.vals {
          remoteTombstones := remoteTombstones.Set(id, Tomb(liveSeen.vals[id], now));
        }
        i := i + 1;
      }
      EntombDone(remoteTombstones, old(remoteTombstones), liveSeen, live, now);
    }

    method RememberAll(ms: seq<Message>)
      requires Valid()
      modifies this`liveSeen
      ensures Valid() && liveSeen == Remember(old(liveSeen), ms)
    {
      hide Keyed;
      var i := 0;
      assert ms[0..] == ms;
      while i < |ms|
        invariant 0 <= i <= |ms| && Keyed(liveSeen)
        invariant Remember(liveSeen, ms[i..]) == Remember(old(liveSeen), ms)
      {
        assert ms[i..][1..] == ms[i + 1..];
        KeyedSet(liveSeen, ms[i].id, ms[i]);
        liveSeen := liveSeen.Set(ms[i].id, ms[i]);
        i := i + 1;
      }
    }

    /** The backward walk over the previous order. */
    method WalkOrder(live: set<string>) returns (before: map<string, seq<Message>>, tail: seq<Message>)
      ensures before == WalkBack(OrderSlots(liveOrder, live, remoteTombstones.vals)).before
      ensures tail == WalkBack(OrderSlots(liveOrder, live, remoteTombstones.vals)).tail
    {
      var next := "";
      before, tail := map[], [];
      ghost var slots := OrderSlots(liveOrder, live, remoteTombstones.vals);
      var i := |liveOrder|;
      while i > 0
        invariant 0 <= i <= |liveOrder|
        invariant WalkBack(slots[i..]) == Walk(next, before, tail)
      {
        i := i - 1;
        assert slots[i..][1..] == slots[i + 1..] && slots[i..][0] == slots[i];
        var id := liveOrder[i];
        if id in live {
          next := id;
        } else if id in remoteTombstones.vals {
          var tombstone := remoteTombstones.vals[id];
          if next != "" {
            before := before[next := [tombstone] + Lookup(before, next)];
          } else {
            tail := [tombstone] + tail;
          }
        }
      }
      assert slots[0..] == slots;
    }

    /** Appends the tombstones that no position of the previous order could place. */
    method AppendUnplaced(base: seq<Message>, anchored: set<string>) returns (view: seq<Message>)
      requires Valid()
      ensures view == base + Pick(Without(remoteTombstones.keys, anchored + IdSet(base)), remoteTombstones.vals)
    {
      hide Placing, Keyed;
      view := base;
      var keys := remoteTombstones.keys;
      ghost var placed := anchored + IdSet(base);
      PlacingStart(base, remoteTombstones, placed);
      var i := 0;
      while i < |keys|
        invariant 0 <= i <= |keys|
        invariant Placing(view, base, remoteTombstones, i, placed)
      {
        var id := keys[i];
        KeyedAt(remoteTombstones, i);
        PlacingStep(view, base, remoteTombstones, i, placed);
        if id !in anchored && id !in IdSet(view) {
          view := view + [remoteTombstones.vals[id]];
        }
        i := i + 1;
      }
      PlacingDone(view, base, remoteTombstones, placed);
    }

    method EmitLive(ms: seq<Message>, before: map<string, seq<Message>>, tail: seq<Message>, ghost slots: seq<Slot>)
      returns (view: seq<Message>)
      requires WalkBack(slots).before == before && WalkBack(slots).tail == tail
      ensures view == Emit(ms, slots)
    {
      view := [];
      var i := 0;
      while i < |ms|
        invariant 0 <= i <= |ms|
        invariant Emit(ms, slots) == view + Emit(ms[i..], slots)
      {
        EmitHead(ms[i..], slots, view);
        assert ms[i..][1..] == ms[i + 1..];
        view := view + Lookup(before, ms[i].id) + [ms[i]];
        i := i + 1;
      }
      WalkBackBlocks(slots);
      view := view + tail;
    }

    /** One refresh of the live view: heal, entomb, remember, re-anchor, append the rest. */
    method BuildLiveView(ms: seq<Message>, now: string) returns (view: seq<Message>)
      requires Valid()
      modifies this
      ensures Valid()
      ensures view == View(old(Value()), ms, now)
      ensures Value() == Next(old(Value()), ms, now)
    {
      var live := IdSet(ms);
      HealTombstones(live);
      if |ms| > 0 {
        EntombVanished(live, now);
      }
      assert remoteTombstones == NextTombs(old(Value()), ms, now);
      RememberAll(ms);
      ghost var slots := OrderSlots(liveOrder, live, remoteTombstones.vals);
      var before, tail := WalkOrder(live);
      var anchored := AnchoredIds(Walk("", before, tail));
      WalkBackAnchors(slots);
      view := EmitLive(ms, before, tail, slots);
      view := AppendUnplaced(view, anchored);
      liveOrder := Ids(view);
    }
  }

  lemma {:induction false} PickIds(ks: seq<string>, vals: map<string, Message>)
    requires forall k :: k in vals ==> vals[k].id == k
    ensures forall m :: m in Pick(ks, vals) ==> m.id in ks && m.id in vals && m == vals[m.id]
  {
    if ks != [] {
      PickIds(ks[1..], vals);
    }
  }

  lemma {:induction false} UnplacedStep(base: seq<Message>, keys: seq<string>, i: nat, placed: set<string>,
      vals: map<string, Message>)
    requires i < |keys| && keys[i] in vals && keys[i] !in keys[..i]
    requires forall k :: k in vals ==> vals[k].id == k
    ensures Without(keys[..i + 1], placed) == Without(keys[..i], placed) + (if keys[i] in placed then [] else [keys[i]])
    ensures Pick(Without(keys[..i], placed) + [keys[i]], vals) ==
      Pick(Without(keys[..i], placed), vals) + [vals[keys[i]]]
    ensures keys[i] in IdSet(base + Pick(Without(keys[..i], placed), vals)) <==> keys[i] in IdSet(base)
  {
    WithoutSnoc(keys, i, placed);
    PickSnoc(Without(keys[..i], placed), keys[i], vals);
    PickIds(Without(keys[..i], placed), vals);
  }

  /** The view after the first `i` tombstones have been looked at. */
  ghost predicate Placing(view: seq<Message>, base: seq<Message>, t: JsMap<Message>, i: nat, placed: set<string>)
    requires Keyed(t) && i <= |t.keys|
  {
    view == base + Pick(Without(t.keys[..i], placed), t.vals)
  }

  lemma {:induction false} PlacingStart(base: seq<Message>, t: JsMap<Message>, placed: set<string>)
    requires Keyed(t)
    ensures Placing(base, base, t, 0, placed)
  {
    assert base + [] == base;
  }

  lemma {:induction false} PlacingDone(view: seq<Message>, base: seq<Message>, t: JsMap<Message>, placed: set<string>)
    requires Keyed(t) && Placing(view, base, t, |t.keys|, placed)
    ensures (forall k :: k in Without(t.keys, placed) ==> k in t.vals)
      && view == base + Pick(Without(t.keys, placed), t.vals)
  {
    assert t.keys[..|t.keys|] == t.keys;
  }

  lemma {:induction false} PlacingStep(view: seq<Message>, base: seq<Message>, t: JsMap<Message>, i: nat,
      placed: set<string>)
    requires Keyed(t) && i < |t.keys| && Placing(view, base, t, i, placed)
    ensures t.keys[i] in t.vals
    ensures t.keys[i] in IdSet(view) <==> t.keys[i] in IdSet(base)
    ensures Placing(if t.keys[i] in placed then view else view + [t.vals[t.keys[i]]], base, t, i + 1, placed)
  {
    var done, id := Without(t.keys[..i], placed), t.keys[i];
    KeyedAt(t, i);
    DistinctAt(t.keys, i);
    UnplacedStep(base, t.keys, i, placed, t.vals);
    hide Without, Pick, IdSet, Keyed;
    assert done + [] == done;
    assert base + (Pick(done, t.vals) + [t.vals[id]]) == base + Pick(done, t.vals) + [t.vals[id]];
  }

  lemma {:induction false} PickSnoc(ks: seq<string>, id: string, vals: map<string, Message>)
    requires id in vals
    ensures Pick(ks + [id], vals) == Pick(ks, vals) + [vals[id]]
  {
    if ks == [] {
      assert [] + [id] == [id];
    } else {
      PickSnoc(ks[1..], id, vals);
      assert (ks + [id])[1..] == ks[1..] + [id];
    }
  }
}
