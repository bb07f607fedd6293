/** What every interleaving of the send-slot protocol keeps. */
module SendSlotLaws {
  import opened Outcomes
  import opened SendSlot

  // ----- the invariant

  /** One live owner, and it is the current one. */
  ghost predicate OwnersOk(st: State) {
    && st.current < |st.owners| && st.owners[st.current].active
    && (forall o :: 0 <= o < |st.owners| && st.owners[o].active ==> o == st.current)
  }

  /** A slot is taken exactly while one task of its owner runs; the mirror shows the current slot. */
  ghost predicate SlotsOk(st: State) {
    && (forall t :: t in st.tasks ==> t < st.nextId && TaskOwner(st.tasks[t]) < |st.owners|)
    && (forall t, u :: t in st.tasks && u in st.tasks && TaskOwner(st.tasks[t]) == TaskOwner(st.tasks[u]) ==> t == u)
    && (forall t :: t in st.tasks ==> st.owners[TaskOwner(st.tasks[t])].pending)
    && (forall o :: 0 <= o < |st.owners| && st.owners[o].pending ==>
      exists t :: t in st.tasks && TaskOwner(st.tasks[t]) == o)
    && (st.current < |st.owners| ==> st.sending == st.owners[st.current].pending)
  }

  /** The failed submission belongs to the current owner, and nothing but its own retry runs beside it. */
  ghost predicate FailedOk(st: State) {
    st.failed.Some? ==>
      && st.failed.value.owner == st.current
      && (forall t :: t in st.tasks && TaskOwner(st.tasks[t]) == st.current ==> st.tasks[t] == Send(st.failed.value))
  }

  ghost predicate Running(tasks: map<nat, Task>, id: nat) {
    exists t :: t in tasks && tasks[t].Send? && tasks[t].sub.id == id
  }

  /** The outcome booked for `id` is the one the protocol state shows. */
  ghost predicate BookedRight(tasks: map<nat, Task>, failed: Option<Submission>, nextId: nat, owners: nat, a: Account,
      id: nat) {
    && a.sub.id == id && id < nextId && a.sub.owner < owners
    && (a.outcome == InFlight <==> Running(tasks, id))
    && (a.outcome == Held <==> !Running(tasks, id) && failed == Some(a.sub))
  }

  ghost predicate Booked(st: State, id: nat)
    requires id in st.ledger
  {
    BookedRight(st.tasks, st.failed, st.nextId, |st.owners|, st.ledger[id], id)
  }

  ghost predicate LedgerOk(st: State) {
    && (forall id :: id in st.ledger ==> Booked(st, id))
    && (forall t :: t in st.tasks && st.tasks[t].Send? ==> Known(st.ledger, st.tasks[t].sub))
    && (st.failed.Some? ==> Known(st.ledger, st.failed.value))
    && (st.panel.Some? ==> Known(st.ledger, st.panel.value))
    && (forall i :: 0 <= i < |st.deliveries| ==> st.deliveries[i] in st.ledger)
  }

  /** A submission whose captured request is on the books. */
  ghost predicate Known(ledger: map<nat, Account>, sub: Submission) {
    sub.id in ledger && ledger[sub.id].sub == sub
  }

  /** Revisions are version stamps: while a captured revision is still current, the composer holds what was captured
      or nothing. */
  ghost predicate StampOk(draft: string, draftRevision: nat, reply: Option<string>, replyRevision: nat,
      sub: Submission) {
    && (sub.draftRevision.Some? ==> sub.draftRevision.value <= draftRevision)
    && (sub.draftRevision == Some(draftRevision) ==> draft == sub.content || draft == "")
    && (sub.replyRevision.Some? ==> sub.replyRevision.value <= replyRevision)
    && (sub.replyRevision == Some(replyRevision) ==> WireReply(reply) == sub.replyToId || reply == None)
  }

  ghost predicate Stamped(st: State, sub: Submission) {
    StampOk(st.draft, st.draftRevision, st.reply, st.replyRevision, sub)
  }

  ghost predicate StampsOk(st: State) {
    forall id :: id in st.ledger ==> Stamped(st, st.ledger[id].sub)
  }

  ghost predicate Inv(st: State) {
    OwnersOk(st) && SlotsOk(st) && FailedOk(st) && LedgerOk(st) && StampsOk(st)
  }

  lemma {:induction false} MountedInv(key: string)
    ensures Inv(Mounted(key))
  {
  }

  // ----- what the invariant says about one task, and about the held submission

  lemma {:induction false} CurrentExists(st: State)
    requires Inv(st)
    ensures st.current < |st.owners|
  {
  }

  lemma {:induction false} SendIsBooked(st: State, t: nat)
    requires Inv(st) && t in st.tasks && st.tasks[t].Send?
    ensures var sub := st.tasks[t].sub;
      && sub.id in st.ledger && st.ledger[sub.id] == Account(sub, InFlight)
      && sub.owner < |st.owners| && (st.owners[sub.owner].active <==> sub.owner == st.current)
      && (st.failed.Some? && sub.owner == st.current ==> st.failed.value == sub)
  {
    assert TaskOwner(st.tasks[t]) == st.tasks[t].sub.owner;
    assert Known(st.ledger, st.tasks[t].sub) && Booked(st, st.tasks[t].sub.id);
    assert Running(st.tasks, st.tasks[t].sub.id);
  }

  lemma {:induction false} HeldIsBooked(st: State)
    requires Inv(st) && st.failed.Some?
    ensures var sub := st.failed.value;
      && sub.id in st.ledger && st.ledger[sub.id].sub == sub && sub.owner == st.current < |st.owners|
      && st.ledger[sub.id].outcome == if Running(st.tasks, sub.id) then InFlight else Held
  {
    assert Known(st.ledger, st.failed.value) && Booked(st, st.failed.value.id);
  }

  lemma {:induction false} AccountIsBooked(st: State, id: nat)
    requires Inv(st) && id in st.ledger
    ensures Booked(st, id)
  {
  }

  lemma {:induction false} PanelIsBooked(st: State)
    requires Inv(st) && st.panel.Some?
    ensures var sub := st.panel.value;
      sub.id in st.ledger && st.ledger[sub.id].sub == sub && sub.owner < |st.owners|
  {
    assert Known(st.ledger, st.panel.value) && Booked(st, st.panel.value.id);
  }

  // ----- preservation, one kind of step at a time

  /** Edits only touch the composer and move a revision past every captured one. */
  lemma {:induction false} EditInv(st: State, text: string)
    requires Inv(st)
    ensures Inv(EditDraft(st, text))
  {
    assert LedgerOk(EditDraft(st, text)) by {
      assert forall id :: id in st.ledger ==> Booked(st, id);
    }
    forall id | id in st.ledger ensures Stamped(EditDraft(st, text), st.ledger[id].sub) {
      assert Stamped(st, st.ledger[id].sub);
    }
  }

  lemma {:induction false} ReplyInv(st: State, target: Option<string>)
    requires Inv(st)
    ensures Inv(ChangeReply(st, target))
  {
    assert LedgerOk(ChangeReply(st, target)) by {
      assert forall id :: id in st.ledger ==> Booked(st, id);
    }
    forall id | id in st.ledger ensures Stamped(ChangeReply(st, target), st.ledger[id].sub) {
      assert Stamped(st, st.ledger[id].sub);
    }
  }

  lemma {:induction false} AcquireHeld(st: State, t: Task, o: nat)
    requires OwnersOk(st) && SlotsOk(st) && TaskOwner(t) == st.current
    requires o < |st.owners| && Acquire(st, st.current, t).owners[o].pending
    ensures exists u :: u in Acquire(st, st.current, t).tasks && TaskOwner(Acquire(st, st.current, t).tasks[u]) == o
  {
    var n := Acquire(st, st.current, t);
    if o != st.current {
      assert st.owners[o].pending;
      var u :| u in st.tasks && TaskOwner(st.tasks[u]) == o;
      assert u in n.tasks && n.tasks[u] == st.tasks[u];
    } else {
      assert st.nextId in n.tasks && n.tasks[st.nextId] == t;
    }
  }

  /** Taking the free slot of the current owner. */
  lemma {:induction false} AcquireSlots(st: State, t: Task)
    requires OwnersOk(st) && SlotsOk(st) && !st.owners[st.current].pending && TaskOwner(t) == st.current
    ensures OwnersOk(Acquire(st, st.current, t)) && SlotsOk(Acquire(st, st.current, t))
  {
    var n := Acquire(st, st.current, t);
    assert n.tasks[st.nextId] == t;
    forall o | 0 <= o < |n.owners| && n.owners[o].pending
      ensures exists u :: u in n.tasks && TaskOwner(n.tasks[u]) == o
    {
      AcquireHeld(st, t, o);
    }
  }

  lemma {:induction false} FinishHeld(st: State, task: nat, p: nat)
    requires OwnersOk(st) && SlotsOk(st) && task in st.tasks && p < |st.owners|
    requires Finish(Drop(st, task), TaskOwner(st.tasks[task])).owners[p].pending
    ensures exists u :: u in st.tasks - {task} && TaskOwner((st.tasks - {task})[u]) == p
  {
    assert p != TaskOwner(st.tasks[task]) && st.owners[p].pending;
    var u :| u in st.tasks && TaskOwner(st.tasks[u]) == p;
    assert u in st.tasks - {task} && (st.tasks - {task})[u] == st.tasks[u];
  }

  /** Ending the task that holds a slot. */
  lemma {:induction false} FinishSlots(st: State, task: nat)
    requires OwnersOk(st) && SlotsOk(st) && task in st.tasks
    ensures var n := Finish(Drop(st, task), TaskOwner(st.tasks[task])); OwnersOk(n) && SlotsOk(n)
  {
    var o := TaskOwner(st.tasks[task]);
    var n := Finish(Drop(st, task), o);
    forall p | 0 <= p < |n.owners| && n.owners[p].pending
      ensures exists u :: u in n.tasks && TaskOwner(n.tasks[u]) == p
    {
      FinishHeld(st, task, p);
    }
  }

  lemma {:induction false} RunningAfterAcquire(st: State, sub: Submission, id: nat)
    requires forall t :: t in st.tasks ==> t < st.nextId
    ensures Running(st.tasks[st.nextId := Send(sub)], id) <==> id == sub.id || Running(st.tasks, id)
  {
    var n := st.tasks[st.nextId := Send(sub)];
    assert st.nextId in n && n[st.nextId] == Send(sub);
    if Running(st.tasks, id) {
      var t :| t in st.tasks && st.tasks[t].Send? && st.tasks[t].sub.id == id;
      assert t in n && n[t] == st.tasks[t];
    }
  }

  lemma {:induction false} SubmitLedger(st: State, sub: Submission, key: string, offline: bool)
    requires LedgerOk(st) && sub.id < st.nextId && forall t :: t in st.tasks ==> t < st.nextId
    requires sub.id in st.ledger ==> st.ledger[sub.id].sub == sub
    requires MaySubmit(st, sub, key, offline)
    ensures LedgerOk(Submit(st, sub, key, offline))
  {
    var n := Submit(st, sub, key, offline);
    forall id | id in n.ledger ensures Booked(n, id) {
      RunningAfterAcquire(st, sub, id);
      if id != sub.id {
        assert Booked(st, id);
      } else if st.failed.Some? {
        assert Known(st.ledger, st.failed.value);
      }
    }
    forall t | t in n.tasks && n.tasks[t].Send? ensures Known(n.ledger, n.tasks[t].sub) {
      if t != st.nextId {
        assert Known(st.ledger, st.tasks[t].sub);
      }
    }
  }

  lemma {:induction false} SubmitFailed(st: State, sub: Submission, key: string, offline: bool)
    requires SlotsOk(st) && FailedOk(st)
    requires st.failed.Some? ==> Known(st.ledger, st.failed.value)
    requires sub.id in st.ledger ==> st.ledger[sub.id].sub == sub
    requires MaySubmit(st, sub, key, offline)
    ensures FailedOk(Submit(st, sub, key, offline))
  {
  }

  /** Starting or retrying a submission. */
  lemma {:induction false} SubmitInv(st: State, sub: Submission, key: string, offline: bool)
    requires Inv(st) && sub.id < st.nextId && Stamped(st, sub)
    requires sub.id in st.ledger ==> st.ledger[sub.id].sub == sub
    requires MaySubmit(st, sub, key, offline)
    ensures Inv(Submit(st, sub, key, offline))
  {
    var n := Submit(st, sub, key, offline);
    assert OwnersOk(n) && SlotsOk(n) by {
      AcquireSlots(st, Send(sub));
    }
    assert FailedOk(n) by {
      SubmitFailed(st, sub, key, offline);
    }
    assert LedgerOk(n) by {
      SubmitLedger(st, sub, key, offline);
    }
    forall id | id in n.ledger ensures Stamped(n, n.ledger[id].sub) {
      if id != sub.id {
        assert Stamped(st, st.ledger[id].sub);
      }
    }
  }

  lemma {:induction false} NextIdInv(st: State)
    requires Inv(st)
    ensures Inv(st.(nextId := st.nextId + 1)) && st.nextId !in st.ledger
  {
    var n := st.(nextId := st.nextId + 1);
    assert LedgerOk(n) by {
      forall id | id in n.ledger ensures Booked(n, id) {
        assert Booked(st, id);
      }
    }
    assert st.nextId in st.ledger ==> Booked(st, st.nextId);
    assert StampsOk(n) by {
      assert forall id :: id in st.ledger ==> Stamped(st, st.ledger[id].sub);
    }
  }

  /** A new request captures the composer as it is, or no revision at all. */
  lemma {:induction false} SubmitNewInv(st: State, key: string, offline: bool, channel: string, content: string,
      replyToId: Option<string>, draftRevision: Option<nat>, replyRevision: Option<nat>)
    requires Inv(st)
    requires (draftRevision == None && replyRevision == None)
          || (draftRevision == Some(st.draftRevision) && replyRevision == Some(st.replyRevision)
              && content == st.draft && replyToId == WireReply(st.reply))
    ensures Inv(SubmitNew(st, key, offline, channel, content, replyToId, draftRevision, replyRevision))
  {
    hide Inv, LedgerOk, StampsOk, SlotsOk, FailedOk, OwnersOk;
    NextIdInv(st);
    var n := st.(nextId := st.nextId + 1);
    var sub := Submission(st.nextId, st.current, channel, content, replyToId, draftRevision, replyRevision);
    if MaySubmit(n, sub, key, offline) {
      assert Stamped(n, sub);
      SubmitInv(n, sub, key, offline);
    }
  }

  // ----- completions

  lemma {:induction false} RunningAfterDrop(st: State, task: nat, id: nat)
    requires SlotsOk(st) && task in st.tasks
    requires forall t :: t in st.tasks && st.tasks[t].Send? ==> Known(st.ledger, st.tasks[t].sub)
    ensures Running(st.tasks - {task}, id) <==>
      Running(st.tasks, id) && !(st.tasks[task].Send? && st.tasks[task].sub.id == id)
  {
    var n := st.tasks - {task};
    if Running(st.tasks, id) {
      var t :| t in st.tasks && st.tasks[t].Send? && st.tasks[t].sub.id == id;
      if st.tasks[task].Send? && st.tasks[task].sub.id == id {
        forall u | u in n && n[u].Send? ensures n[u].sub.id != id {
          assert Known(st.ledger, st.tasks[u].sub) && Known(st.ledger, st.tasks[task].sub);
        }
      } else {
        assert t in n && n[t] == st.tasks[t];
      }
    }
  }

  /** Ending an upload or a forward books nothing. */
  lemma {:induction false} EndInv(st: State, task: nat)
    requires Inv(st) && task in st.tasks && !st.tasks[task].Send?
    ensures Inv(Finish(Drop(st, task), TaskOwner(st.tasks[task])))
  {
    var n := Finish(Drop(st, task), TaskOwner(st.tasks[task]));
    FinishSlots(st, task);
    assert LedgerOk(n) by {
      forall id | id in n.ledger ensures Booked(n, id) {
        assert Booked(st, id);
        RunningAfterDrop(st, task, id);
      }
    }
    assert StampsOk(n) by {
      assert forall id :: id in st.ledger ==> Stamped(st, st.ledger[id].sub);
    }
  }

  lemma {:induction false} SettleBooked(st: State, task: nat, ok: bool, id: nat)
    requires task in st.tasks && st.tasks[task].Send? && st.tasks[task].sub.owner < |st.owners|
    requires Known(st.ledger, st.tasks[task].sub) && id in st.ledger && Booked(st, id)
    requires Running(st.tasks - {task}, id) <==> Running(st.tasks, id) && st.tasks[task].sub.id != id
    requires st.owners[st.tasks[task].sub.owner].active <==> st.tasks[task].sub.owner == st.current
    requires st.failed.Some? ==>
      && Known(st.ledger, st.failed.value) && st.failed.value.owner == st.current
      && (st.tasks[task].sub.owner == st.current ==> st.failed.value == st.tasks[task].sub)
    ensures id in SettleStep(st, task, ok).ledger && SettleStep(st, task, ok).ledger[id].sub == st.ledger[id].sub
    ensures Booked(SettleStep(st, task, ok), id)
  {
  }

  lemma {:induction false} SettleEach(st: State, task: nat, ok: bool, id: nat)
    requires SlotsOk(st) && FailedOk(st) && LedgerOk(st) && OwnersOk(st) && task in st.tasks && st.tasks[task].Send?
    requires id in st.ledger
    ensures id in SettleStep(st, task, ok).ledger && SettleStep(st, task, ok).ledger[id].sub == st.ledger[id].sub
    ensures Booked(SettleStep(st, task, ok), id)
  {
    assert Known(st.ledger, st.tasks[task].sub) && Booked(st, id);
    RunningAfterDrop(st, task, id);
    SettleBooked(st, task, ok, id);
  }

  lemma {:induction false} SettleLedger(st: State, task: nat, ok: bool)
    requires SlotsOk(st) && FailedOk(st) && LedgerOk(st) && OwnersOk(st) && task in st.tasks && st.tasks[task].Send?
    ensures LedgerOk(SettleStep(st, task, ok))
  {
    var n := SettleStep(st, task, ok);
    assert Known(st.ledger, st.tasks[task].sub);
    SettleShape(st, task, ok);
    forall id | id in st.ledger ensures n.ledger[id].sub == st.ledger[id].sub && Booked(n, id) {
      SettleEach(st, task, ok, id);
    }
    SettleKnown(st, n, task);
  }

  /** A completion touches one task, one account and possibly the held submission. */
  lemma {:induction false} SettleShape(st: State, task: nat, ok: bool)
    requires task in st.tasks && st.tasks[task].Send? && st.tasks[task].sub.owner < |st.owners|
    requires st.tasks[task].sub.id in st.ledger
    ensures SettleStep(st, task, ok).ledger.Keys == st.ledger.Keys
    ensures SettleStep(st, task, ok).tasks == st.tasks - {task} && SettleStep(st, task, ok).panel == st.panel
    ensures SettleStep(st, task, ok).failed == None || SettleStep(st, task, ok).failed == st.failed
         || SettleStep(st, task, ok).failed == Some(st.tasks[task].sub)
    ensures SettleStep(st, task, ok).deliveries == st.deliveries
         || SettleStep(st, task, ok).deliveries == st.deliveries + [st.tasks[task].sub.id]
  {
  }

  lemma {:induction false} SettleKnown(st: State, n: State, task: nat)
    requires LedgerOk(st) && task in st.tasks && st.tasks[task].Send?
    requires n.ledger.Keys == st.ledger.Keys
    requires forall id :: id in st.ledger ==> n.ledger[id].sub == st.ledger[id].sub && Booked(n, id)
    requires n.tasks == st.tasks - {task} && n.panel == st.panel
    requires n.failed == None || n.failed == st.failed || n.failed == Some(st.tasks[task].sub)
    requires n.deliveries == st.deliveries || n.deliveries == st.deliveries + [st.tasks[task].sub.id]
    ensures LedgerOk(n)
  {
    assert Known(st.ledger, st.tasks[task].sub);
    forall t | t in n.tasks && n.tasks[t].Send? ensures Known(n.ledger, n.tasks[t].sub) {
      assert Known(st.ledger, st.tasks[t].sub);
    }
  }

  lemma {:induction false} SettleSlots(st: State, task: nat, ok: bool)
    requires OwnersOk(st) && SlotsOk(st) && FailedOk(st) && LedgerOk(st) && task in st.tasks && st.tasks[task].Send?
    ensures OwnersOk(SettleStep(st, task, ok)) && SlotsOk(SettleStep(st, task, ok))
      && FailedOk(SettleStep(st, task, ok))
  {
    FinishSlots(st, task);
    var n := SettleStep(st, task, ok);
    var m := Finish(Drop(st, task), TaskOwner(st.tasks[task]));
    assert n.owners == m.owners && n.tasks == m.tasks && n.current == m.current && n.sending == m.sending
      && n.nextId == m.nextId;
  }

  lemma {:induction false} SettleStamps(st: State, task: nat, ok: bool)
    requires StampsOk(st) && task in st.tasks && st.tasks[task].Send? && st.tasks[task].sub.owner < |st.owners|
    requires Known(st.ledger, st.tasks[task].sub)
    ensures StampsOk(SettleStep(st, task, ok))
  {
    hide SettleStep;
    var n := SettleStep(st, task, ok);
    SettleTexts(st, task, ok);
    forall id | id in n.ledger ensures Stamped(n, n.ledger[id].sub) {
      SettleCapture(st, task, ok, id);
      assert Stamped(st, st.ledger[id].sub);
    }
  }

  lemma {:induction false} SettleTexts(st: State, task: nat, ok: bool)
    requires task in st.tasks && st.tasks[task].Send? && st.tasks[task].sub.owner < |st.owners|
    ensures var n := SettleStep(st, task, ok);
      && (n.draft == st.draft || n.draft == "") && n.draftRevision == st.draftRevision
      && (n.reply == st.reply || n.reply == None) && n.replyRevision == st.replyRevision
  {
  }

  lemma {:induction false} SettleCapture(st: State, task: nat, ok: bool, id: nat)
    requires task in st.tasks && st.tasks[task].Send? && st.tasks[task].sub.owner < |st.owners|
    requires Known(st.ledger, st.tasks[task].sub) && id in SettleStep(st, task, ok).ledger
    ensures id in st.ledger && SettleStep(st, task, ok).ledger[id].sub == st.ledger[id].sub
  {
  }

  lemma {:induction false} SettleInv(st: State, task: nat, ok: bool)
    requires Inv(st) && task in st.tasks && st.tasks[task].Send?
    ensures Inv(SettleStep(st, task, ok))
  {
    SettleSlots(st, task, ok);
    SettleLedger(st, task, ok);
    SettleStamps(st, task, ok);
  }

  // ----- uploads and forwards

  lemma {:induction false} AcquireLedger(st: State, t: Task)
    requires st.current < |st.owners| && LedgerOk(st) && !t.Send? && st.nextId !in st.tasks
    ensures LedgerOk(Acquire(st, st.current, t))
  {
    var n := Acquire(st, st.current, t);
    forall id | id in n.ledger ensures Booked(n, id) {
      assert Booked(st, id);
      if Running(st.tasks, id) {
        var u :| u in st.tasks && st.tasks[u].Send? && st.tasks[u].sub.id == id;
        assert u in n.tasks && n.tasks[u] == st.tasks[u];
      }
    }
    forall u | u in n.tasks && n.tasks[u].Send? ensures Known(n.ledger, n.tasks[u].sub) {
      assert Known(st.ledger, st.tasks[u].sub);
    }
  }

  lemma {:induction false} AcquireStamps(st: State, t: Task)
    requires st.current < |st.owners| && StampsOk(st)
    ensures StampsOk(Acquire(st, st.current, t))
  {
    assert forall id :: id in st.ledger ==> Stamped(st, st.ledger[id].sub);
  }

  lemma {:induction false} AcquireInv(st: State, t: Task)
    requires Inv(st) && !st.owners[st.current].pending && st.failed.None? && TaskOwner(t) == st.current && !t.Send?
    ensures Inv(Acquire(st, st.current, t))
  {
    assert st.nextId !in st.tasks;
    hide LedgerOk, StampsOk, SlotsOk;
    AcquireSlots(st, t);
    AcquireLedger(st, t);
    AcquireStamps(st, t);
  }

  lemma {:induction false} ProgressSlots(st: State, task: nat, t: Task)
    requires SlotsOk(st) && task in st.tasks && TaskOwner(t) == TaskOwner(st.tasks[task])
    ensures SlotsOk(st.(tasks := st.tasks[task := t]))
  {
    hide TaskOwner;
    var n := st.(tasks := st.tasks[task := t]);
    assert forall u :: u in n.tasks ==> u in st.tasks && TaskOwner(n.tasks[u]) == TaskOwner(st.tasks[u]);
    forall o | 0 <= o < |n.owners| && n.owners[o].pending
      ensures exists u :: u in n.tasks && TaskOwner(n.tasks[u]) == o
    {
      var u :| u in st.tasks && TaskOwner(st.tasks[u]) == o;
      assert u in n.tasks && TaskOwner(n.tasks[u]) == o;
    }
  }

  lemma {:induction false} RunningAfterProgress(st: State, task: nat, t: Task, id: nat)
    requires task in st.tasks && !st.tasks[task].Send? && !t.Send?
    ensures Running(st.tasks[task := t], id) <==> Running(st.tasks, id)
  {
    var n := st.tasks[task := t];
    if Running(st.tasks, id) {
      var u :| u in st.tasks && st.tasks[u].Send? && st.tasks[u].sub.id == id;
      assert u in n && n[u] == st.tasks[u];
    }
    if Running(n, id) {
      var u :| u in n && n[u].Send? && n[u].sub.id == id;
      assert u in st.tasks && n[u] == st.tasks[u];
    }
  }

  /** A task other than a send moves on without giving up its slot. */
  lemma {:induction false} ProgressInv(st: State, task: nat, t: Task)
    requires Inv(st) && task in st.tasks && !st.tasks[task].Send? && !t.Send?
      && TaskOwner(t) == TaskOwner(st.tasks[task])
    ensures Inv(st.(tasks := st.tasks[task := t]))
  {
    var n := st.(tasks := st.tasks[task := t]);
    ProgressSlots(st, task, t);
    assert LedgerOk(n) by {
      forall id | id in n.ledger ensures Booked(n, id) {
        assert Booked(st, id);
        RunningAfterProgress(st, task, t, id);
      }
      forall u | u in n.tasks && n.tasks[u].Send? ensures Known(n.ledger, n.tasks[u].sub) {
        assert u != task && Known(st.ledger, st.tasks[u].sub);
      }
    }
    assert StampsOk(n) by {
      assert forall id :: id in st.ledger ==> Stamped(st, st.ledger[id].sub);
    }
  }

  /** The hand-off from an upload to its message always goes through while the owner is current. */
  lemma {:induction false} HandOff(st: State, task: nat, content: string)
    requires Inv(st) && task in st.tasks && st.tasks[task].Upload?
    ensures Inv(UploadReadyStep(st, task, content))
    ensures st.tasks[task].uploader == st.current ==>
      && st.nextId in UploadReadyStep(st, task, content).ledger
      && UploadReadyStep(st, task, content).ledger[st.nextId].outcome == InFlight
      && UploadReadyStep(st, task, content).ledger[st.nextId].sub.content == content
      && UploadReadyStep(st, task, content).owners[st.current].pending
  {
    var o := st.tasks[task].uploader;
    assert o < |st.owners| && st.current < |st.owners| && (st.owners[o].active <==> o == st.current);
    assert o == st.current ==> st.failed.None?;
    EndInv(st, task);
    HandOffSplits(st, task, content);
    hide Inv, LedgerOk, StampsOk, SlotsOk, FailedOk, OwnersOk, UploadReadyStep;
    if o == st.current {
      var f, channel := Finish(Drop(st, task), o), st.tasks[task].channelId;
      SubmitNewInv(f, st.owners[o].scopeKey, false, channel, content, None, None, None);
      assert Handed(f, st.owners[o].scopeKey, channel, content);
    }
  }

  /** A message prepared by an upload takes the slot, is in flight and carries the prepared content. */
  predicate Handed(st: State, key: string, channel: string, content: string) {
    var n := SubmitNew(st, key, false, channel, content, None, None, None);
    st.current < |st.owners| && st.owners[st.current].active && st.owners[st.current].scopeKey == key &&
    !st.owners[st.current].pending && st.failed.None? ==>
      && st.nextId in n.ledger && n.ledger[st.nextId].outcome == InFlight
      && n.ledger[st.nextId].sub.content == content
      && |n.owners| == |st.owners| && n.owners[st.current].pending
  }

  /** The hand-off is the end of the upload, followed by a new submission when the owner is still the current one. */
  lemma {:induction false} HandOffSplits(st: State, task: nat, content: string)
    requires task in st.tasks && st.tasks[task].Upload? && st.tasks[task].uploader < |st.owners|
    requires st.tasks[task].uploader == st.current ==> st.failed.None?
    ensures var o, channel := st.tasks[task].uploader, st.tasks[task].channelId;
      UploadReadyStep(st, task, content) ==
        if !st.owners[o].active || o != st.current then Finish(Drop(st, task), o)
        else
          SubmitNew(Finish(Drop(st, task), o), st.owners[o].scopeKey, false, channel, content, None, None, None)
  {
  }

  // ----- scope changes and discards

  lemma {:induction false} DiscardInv(st: State)
    requires Inv(st)
    ensures Inv(DiscardStep(st))
  {
    var n := DiscardStep(st);
    if n != st {
      var sub := st.failed.value;
      assert Known(st.ledger, sub) && Booked(st, sub.id);
      assert LedgerOk(n) by {
        forall id | id in n.ledger ensures Booked(n, id) {
          assert Booked(st, id);
        }
        forall t | t in n.tasks && n.tasks[t].Send? ensures Known(n.ledger, n.tasks[t].sub) {
          assert Known(st.ledger, st.tasks[t].sub);
        }
        if st.panel.Some? {
          assert Known(st.ledger, st.panel.value);
        }
      }
      assert StampsOk(n) by {
        assert forall id :: id in st.ledger ==> Stamped(st, st.ledger[id].sub);
      }
    }
  }

  lemma {:induction false} CommitShape(st: State)
    requires st.current < |st.owners|
    ensures CommitStep(st) == st || (
      var n, retired := CommitStep(st), st.owners[st.current].(active := false);
      && n.owners == st.owners[st.current := retired] + [Owner(true, false, st.scopeKey)]
      && n.current == |st.owners| && !n.sending && n.tasks == st.tasks && n.nextId == st.nextId
      && n.scopeKey == st.scopeKey && n.panel == st.panel)
  {
  }

  lemma {:induction false} CommitSlots(st: State)
    requires OwnersOk(st) && SlotsOk(st)
    ensures OwnersOk(CommitStep(st)) && SlotsOk(CommitStep(st))
  {
    var n := CommitStep(st);
    CommitShape(st);
    hide CommitStep;
    if n != st {
      forall o | 0 <= o < |n.owners| && n.owners[o].pending
        ensures exists t :: t in n.tasks && TaskOwner(n.tasks[t]) == o
      {
        assert o < |st.owners| && st.owners[o].pending;
      }
    }
  }

  lemma {:induction false} CommitLedger(st: State)
    requires Inv(st) && CommitStep(st) != st
    ensures LedgerOk(CommitStep(st))
  {
    var n := CommitStep(st);
    if st.failed.Some? {
      assert Known(st.ledger, st.failed.value) && Booked(st, st.failed.value.id);
    }
    forall id | id in n.ledger ensures Booked(n, id) {
      assert Booked(st, id);
    }
    forall t | t in n.tasks && n.tasks[t].Send? ensures Known(n.ledger, n.tasks[t].sub) {
      assert Known(st.ledger, st.tasks[t].sub);
    }
    if st.panel.Some? {
      assert Known(st.ledger, st.panel.value);
    }
  }

  lemma {:induction false} CommitStamps(st: State)
    requires Inv(st) && CommitStep(st) != st
    ensures StampsOk(CommitStep(st))
  {
    if st.failed.Some? {
      assert Known(st.ledger, st.failed.value);
    }
    assert forall id :: id in st.ledger ==> Stamped(st, st.ledger[id].sub);
  }

  lemma {:induction false} CommitInv(st: State)
    requires Inv(st)
    ensures Inv(CommitStep(st))
  {
    if CommitStep(st) != st {
      CommitSlots(st);
      CommitLedger(st);
      CommitStamps(st);
      hide LedgerOk, StampsOk, SlotsOk, OwnersOk;
    }
  }

  lemma {:induction false} RenderInv(st: State, k: string)
    requires Inv(st)
    ensures Inv(st.(panel := st.failed)) && Inv(st.(scopeKey := k))
  {
    assert forall id :: id in st.ledger ==> Booked(st, id);
    assert forall id :: id in st.ledger ==> Stamped(st, st.ledger[id].sub);
  }
}
