/** Which entry of an object, or item of a list, decides what a normalised table holds under a key: the first acceptable
    one where the loop looks for the key before assigning, the last one where it just assigns. */
module EntryLaws {
  import opened JsValues
  import opened Outcomes
  import opened Sequences
  import opened Snapshot
  import opened SnapshotRecords

  /** What a reader makes of the own entry at each position of the enumeration. */
  function EntriesAt<K, V>(read: ((string, Value)) -> Option<(K, V)>, v: Value): nat -> Option<(K, V)> {
    (i: nat) => if v.Obj? && i < |v.keys| && v.keys[i] in v.own then read((v.keys[i], v.own[v.keys[i]])) else None
  }

  function ItemsAt<K, V>(read: Value -> Option<(K, V)>, items: seq<Value>): nat -> Option<(K, V)> {
    (i: nat) => if i < |items| then read(items[i]) else None
  }

  predicate Under<K(==), V>(at: nat -> Option<(K, V)>, i: nat, k: K) {
    at(i).Some? && at(i).value.0 == k
  }

  ghost predicate SomeUnder<K, V>(at: nat -> Option<(K, V)>, k: K) {
    exists i: nat :: Under(at, i, k)
  }

  ghost predicate FirstUnder<K, V>(at: nat -> Option<(K, V)>, i: nat, k: K) {
    Under(at, i, k) && forall j: nat :: j < i ==> !Under(at, j, k)
  }

  ghost predicate LastUnder<K, V>(at: nat -> Option<(K, V)>, i: nat, k: K) {
    Under(at, i, k) && forall j: nat :: i < j ==> !Under(at, j, k)
  }

  lemma {:induction false} UnderFirst<K, V>(at: nat -> Option<(K, V)>, i: nat, k: K)
    ensures FirstUnder(at, i, k) || LastUnder(at, i, k) ==> Under(at, i, k)
  {
  }

  lemma {:induction false} FirstOfSome<K, V>(at: nat -> Option<(K, V)>, i: nat, k: K) returns (f: nat)
    requires Under(at, i, k)
    ensures f <= i && FirstUnder(at, f, k)
  {
    hide Under;
    f := 0;
    while !Under(at, f, k)
      invariant f <= i && forall j: nat :: j < f ==> !Under(at, j, k)
      decreases i - f
    {
      f := f + 1;
    }
  }

  // ----- what is accepted

  /** The accepted entries are those at these positions. */
  ghost predicate AcceptedAt<K, V>(at: nat -> Option<(K, V)>, n: nat, accepted: seq<(K, V)>, positions: seq<nat>) {
    && Rising(positions) && |positions| == |accepted|
    && (forall i: nat :: i in positions <==> i < n && at(i).Some?)
    && (forall k :: 0 <= k < |accepted| ==> at(positions[k]) == Some(accepted[k]))
  }

  lemma {:induction false} OneMore<K, V>(at: nat -> Option<(K, V)>, n: nat, accepted: seq<(K, V)>,
      positions: seq<nat>) returns (more: seq<nat>)
    requires AcceptedAt(at, n, accepted, positions)
    ensures AcceptedAt(at, n + 1, accepted + if at(n).Some? then [at(n).value] else [], more)
  {
    hide Rising;
    if at(n).Some? {
      RisingSnoc(positions, n);
      more := positions + [n];
    } else {
      more := positions;
      assert accepted + [] == accepted;
    }
  }

  lemma {:induction false} EntriesSnoc(keys: seq<string>, own: map<string, Value>, n: nat)
    requires n < |keys|
    ensures EntriesOf(keys[..n + 1], own) ==
      EntriesOf(keys[..n], own) + if keys[n] in own then [(keys[n], own[keys[n]])] else []
  {
    assert keys[..n + 1][..n] == keys[..n];
  }

  lemma {:induction false} AcceptedSnoc<V>(read: ((string, Value)) -> Option<(string, V)>, v: Value, n: nat)
    requires v.Obj? && n < |v.keys|
    ensures var one := EntriesAt(read, v)(n);
      Accepted(read, EntriesOf(v.keys[..n + 1], v.own)) ==
        Accepted(read, EntriesOf(v.keys[..n], v.own)) + if one.Some? then [one.value] else []
  {
    hide EntriesOf;
    EntriesSnoc(v.keys, v.own, n);
    var entries := EntriesOf(v.keys[..n], v.own);
    if v.keys[n] in v.own {
      var more := entries + [(v.keys[n], v.own[v.keys[n]])];
      assert more[..|more| - 1] == entries;
    } else {
      assert entries + [] == entries;
    }
  }

  lemma {:induction false} NothingAcceptedAt<V>(read: ((string, Value)) -> Option<(string, V)>, v: Value)
    requires v.Obj?
    ensures AcceptedAt(EntriesAt(read, v), 0, Accepted(read, EntriesOf(v.keys[..0], v.own)), [])
  {
  }

  lemma {:induction false} AcceptedUpTo<V>(read: ((string, Value)) -> Option<(string, V)>, v: Value, n: nat)
      returns (positions: seq<nat>)
    requires v.Obj? && n <= |v.keys|
    ensures AcceptedAt(EntriesAt(read, v), n, Accepted(read, EntriesOf(v.keys[..n], v.own)), positions)
  {
    hide Accepted, EntriesOf, EntriesAt, AcceptedAt;
    if n == 0 {
      NothingAcceptedAt(read, v);
      positions := [];
    } else {
      positions := AcceptedUpTo(read, v, n - 1);
      AcceptedSnoc(read, v, n - 1);
      positions := OneMore(EntriesAt(read, v), n - 1, Accepted(read, EntriesOf(v.keys[..n - 1], v.own)), positions);
    }
  }

  lemma {:induction false} EntriesAccepted<V>(read: ((string, Value)) -> Option<(string, V)>, v: Value)
      returns (positions: seq<nat>)
    requires v.Obj?
    ensures AcceptedAt(EntriesAt(read, v), |v.keys|, Accepted(read, Entries(v)), positions)
    ensures forall i: nat :: EntriesAt(read, v)(i).Some? ==> i < |v.keys|
  {
    hide Accepted, EntriesOf, AcceptedAt;
    assert v.keys[..|v.keys|] == v.keys;
    positions := AcceptedUpTo(read, v, |v.keys|);
  }

  lemma {:induction false} ItemsAccepted<K, V>(read: Value -> Option<(K, V)>, items: seq<Value>)
      returns (positions: seq<nat>)
    ensures AcceptedAt(ItemsAt(read, items), |items|, Records(read, items), positions)
    ensures forall i: nat :: ItemsAt(read, items)(i).Some? ==> i < |items|
  {
    hide Records;
    positions := RecordsOrder(read, items);
  }

  /** Something is accepted exactly when there is an acceptable entry. */
  lemma {:induction false} AcceptedSome<K(!new), V>(at: nat -> Option<(K, V)>, n: nat, accepted: seq<(K, V)>,
      positions: seq<nat>)
    requires AcceptedAt(at, n, accepted, positions) && forall i: nat :: at(i).Some? ==> i < n
    ensures accepted != [] <==> exists i: nat, k :: Under(at, i, k)
  {
    if accepted != [] {
      assert Under(at, positions[0], accepted[0].0);
    }
    if i: nat, k :| Under(at, i, k) {
      assert i in positions;
    }
  }

  lemma {:induction false} PlaceOf<V>(at: nat -> Option<(string, V)>, n: nat, accepted: seq<(string, V)>,
      positions: seq<nat>, i: nat, k: string) returns (a: nat)
    requires AcceptedAt(at, n, accepted, positions) && (forall j: nat :: at(j).Some? ==> j < n) && Under(at, i, k)
    ensures a < |positions| && positions[a] == i && accepted[a].0 == k
  {
    assert i in positions;
    a :| 0 <= a < |positions| && positions[a] == i;
  }

  /** No two accepted entries have the same key exactly when no two acceptable ones have. */
  lemma {:induction false} AcceptedDistinct<V>(at: nat -> Option<(string, V)>, n: nat, accepted: seq<(string, V)>,
      positions: seq<nat>)
    requires AcceptedAt(at, n, accepted, positions) && forall i: nat :: at(i).Some? ==> i < n
    ensures IdsDistinct(accepted) <==> forall i: nat, j: nat, k :: i < j && Under(at, i, k) ==> !Under(at, j, k)
  {
    if i: nat, j: nat, k :| i < j && Under(at, i, k) && Under(at, j, k) {
      var a := PlaceOf(at, n, accepted, positions, i, k);
      var b := PlaceOf(at, n, accepted, positions, j, k);
      assert a < b;
    }
    if !IdsDistinct(accepted) {
      var a, b :| 0 <= a < b < |accepted| && accepted[a].0 == accepted[b].0;
      assert Under(at, positions[a], accepted[a].0) && Under(at, positions[b], accepted[a].0);
    }
  }

  // ----- the first acceptable entry

  /** Looking before assigning: under each key but `__proto__` there is what the first acceptable entry for it gives,
      and the prototype is replaced exactly when an object is assigned to `__proto__`. */
  lemma {:induction false} CollectSays<V>(objects: bool, at: nat -> Option<(string, V)>, n: nat,
      accepted: seq<(string, V)>, positions: seq<nat>)
    requires AcceptedAt(at, n, accepted, positions) && forall i: nat :: at(i).Some? ==> i < n
    ensures var t := Collect(objects, accepted);
      && (t.plain <==> !objects || forall i: nat :: !Under(at, i, "__proto__"))
      && (forall k :: k in t.own <==> k != "__proto__" && exists i: nat :: Under(at, i, k))
      && (forall i: nat, k :: k in t.own && FirstUnder(at, i, k) ==> t.own[k] == at(i).value.1)
  {
    hide Collect, Rising;
    var t := Collect(objects, accepted);
    CollectHolds(objects, accepted);
    KeyAccepted(at, n, accepted, positions, PROTO);
    forall k ensures SomeUnder(at, k) <==> exists j :: 0 <= j < |accepted| && accepted[j].0 == k {
      KeyAccepted(at, n, accepted, positions, k);
    }
    forall k ensures k in t.own <==> k != "__proto__" && SomeUnder(at, k) {
      if j :| 0 <= j < |accepted| && accepted[j].0 == k && k != PROTO {
        CollectKeys(objects, accepted, j);
      }
      if k in t.own {
        var j := CollectFrom(objects, accepted, k);
      }
    }
    forall i: nat, k | k in t.own && FirstUnder(at, i, k) ensures t.own[k] == at(i).value.1 {
      var j := PlaceOf(at, n, accepted, positions, i, k);
      FirstAccepted(at, n, accepted, positions, i, j, k);
      CollectFirst(objects, accepted, j);
    }
  }

  lemma {:induction false} KeyAccepted<V>(at: nat -> Option<(string, V)>, n: nat, accepted: seq<(string, V)>,
      positions: seq<nat>, k: string)
    requires AcceptedAt(at, n, accepted, positions) && forall i: nat :: at(i).Some? ==> i < n
    ensures SomeUnder(at, k) <==> exists j :: 0 <= j < |accepted| && accepted[j].0 == k
  {
    if i: nat :| Under(at, i, k) {
      var j := PlaceOf(at, n, accepted, positions, i, k);
    }
    if j :| 0 <= j < |accepted| && accepted[j].0 == k {
      assert Under(at, positions[j], k);
    }
  }

  lemma {:induction false} FirstAccepted<V>(at: nat -> Option<(string, V)>, n: nat, accepted: seq<(string, V)>,
      positions: seq<nat>, i: nat, j: nat, k: string)
    requires AcceptedAt(at, n, accepted, positions) && FirstUnder(at, i, k)
    requires j < |positions| && positions[j] == i
    ensures accepted[j] == at(i).value && accepted[j].0 == k && forall l :: 0 <= l < j ==> accepted[l].0 != k
  {
    forall l | 0 <= l < j ensures accepted[l].0 != k {
      assert !Under(at, positions[l], k);
    }
  }

  lemma {:induction false} CollectFirst<V>(objects: bool, entries: seq<(string, V)>, j: nat)
    requires j < |entries| && entries[j].0 != PROTO && forall l :: 0 <= l < j ==> entries[l].0 != entries[j].0
    ensures entries[j].0 in Collect(objects, entries).own
    ensures Collect(objects, entries).own[entries[j].0] == entries[j].1
    decreases |entries|
  {
    var n, k := |entries| - 1, entries[j].0;
    if j < n {
      CollectFirst(objects, entries[..n], j);
    } else if k in Collect(objects, entries[..n]).own {
      var l := CollectFrom(objects, entries[..n], k);
    }
  }

  // ----- the last acceptable entry

  /** The map after assigning what a reader makes of the entries, in order. */
  function Override<K, V>(read: ((string, Value)) -> Option<(K, V)>, entries: seq<(string, Value)>): map<K, V> {
    if entries == [] then map[]
    else
      var before, one := Override(read, entries[..|entries| - 1]), read(entries[|entries| - 1]);
      if one.None? then before else before[one.value.0 := one.value.1]
  }

  lemma {:induction false} OverrideStep<K, V>(read: ((string, Value)) -> Option<(K, V)>, v: Value, n: nat)
    requires v.Obj? && n < |v.keys|
    ensures var one, before := EntriesAt(read, v)(n), Override(read, EntriesOf(v.keys[..n], v.own));
      Override(read, EntriesOf(v.keys[..n + 1], v.own)) ==
        if one.None? then before else before[one.value.0 := one.value.1]
  {
    hide EntriesOf;
    EntriesSnoc(v.keys, v.own, n);
    var entries := EntriesOf(v.keys[..n], v.own);
    if v.keys[n] in v.own {
      var more := entries + [(v.keys[n], v.own[v.keys[n]])];
      assert more[..|more| - 1] == entries;
    } else {
      assert entries + [] == entries;
    }
  }

  ghost predicate HoldsLast<K(!new), V>(m: map<K, V>, at: nat -> Option<(K, V)>, n: nat) {
    && (forall k :: k in m <==> exists i: nat :: i < n && Under(at, i, k))
    && (forall i: nat, k :: i < n && Under(at, i, k) && (forall j: nat :: i < j < n ==> !Under(at, j, k)) ==>
        k in m && m[k] == at(i).value.1)
  }

  lemma {:induction false} LastMore<K(!new), V>(m: map<K, V>, at: nat -> Option<(K, V)>, n: nat)
    requires HoldsLast(m, at, n)
    ensures HoldsLast(if at(n).None? then m else m[at(n).value.0 := at(n).value.1], at, n + 1)
  {
    if at(n).Some? {
      assert Under(at, n, at(n).value.0);
    }
  }

  lemma {:induction false} NothingHeld<K(!new), V>(read: ((string, Value)) -> Option<(K, V)>, v: Value)
    requires v.Obj?
    ensures HoldsLast(Override(read, EntriesOf(v.keys[..0], v.own)), EntriesAt(read, v), 0)
  {
  }

  lemma {:induction false} OverrideSaysUpTo<K(!new), V>(read: ((string, Value)) -> Option<(K, V)>, v: Value, n: nat)
    requires v.Obj? && n <= |v.keys|
    ensures HoldsLast(Override(read, EntriesOf(v.keys[..n], v.own)), EntriesAt(read, v), n)
  {
    hide Override, EntriesOf, EntriesAt, HoldsLast;
    if n == 0 {
      NothingHeld(read, v);
    } else {
      OverrideSaysUpTo(read, v, n - 1);
      OverrideStep(read, v, n - 1);
      LastMore(Override(read, EntriesOf(v.keys[..n - 1], v.own)), EntriesAt(read, v), n - 1);
    }
  }

  /** Just assigning: under each key there is what the last acceptable entry for it gives. */
  lemma {:induction false} OverrideSays<K(!new), V>(read: ((string, Value)) -> Option<(K, V)>, v: Value)
    requires v.Obj?
    ensures var m, at := Override(read, Entries(v)), EntriesAt(read, v);
      && (forall k :: k in m <==> exists i: nat :: Under(at, i, k))
      && (forall i: nat, k :: k in m && LastUnder(at, i, k) ==> m[k] == at(i).value.1)
  {
    hide Override, EntriesOf, EntriesAt;
    var n := |v.keys|;
    assert v.keys[..n] == v.keys;
    OverrideSaysUpTo(read, v, n);
    EntriesInRange(read, v);
  }

  lemma {:induction false} EntriesInRange<K(!new), V>(read: ((string, Value)) -> Option<(K, V)>, v: Value)
    requires v.Obj?
    ensures forall i: nat, k :: Under(EntriesAt(read, v), i, k) ==> i < |v.keys|
  {
  }
}
