/** What becomes of every accepted submission. */
module SendSlotAccounts {
  import opened JsText
  import opened Outcomes
  import opened SendSlot
  import opened SendSlotLaws
  import opened SendSlotRuns

  predicate Final(o: Outcome) {
    o in {Delivered, Discarded, Abandoned}
  }

  // ----- how a submission gets each final outcome

  predicate Becomes(st: State, n: State, id: nat, outcome: Outcome) {
    id in n.ledger && n.ledger[id].outcome == outcome && !(id in st.ledger && st.ledger[id].outcome == outcome)
  }

  predicate SettlesSend(st: State, e: Event, id: nat, ok: bool) {
    e.Settle? && e.ok == ok && Runs(st, e.task) && st.tasks[e.task].Send? && st.tasks[e.task].sub.id == id
  }

  /** The account of `id` after a send is settled. */
  lemma {:induction false} SettledAccount(st: State, task: nat, ok: bool, id: nat)
    requires Inv(st) && Runs(st, task) && st.tasks[task].Send? && id in SettleStep(st, task, ok).ledger
    ensures id in st.ledger
    ensures SettleStep(st, task, ok).ledger[id].outcome ==
      if id != st.tasks[task].sub.id then st.ledger[id].outcome
      else if ok then Delivered
      else if st.owners[st.tasks[task].sub.owner].active then Held else Abandoned
    ensures id == st.tasks[task].sub.id ==> st.ledger[id].outcome == InFlight
  {
    hide Inv;
    SendIsBooked(st, task);
  }

  /** Nothing is booked, or one send that is now in flight. */
  ghost predicate BooksSend(st: State, n: State) {
    n.ledger == st.ledger || exists a: Account :: a.outcome == InFlight && n.ledger == st.ledger[a.sub.id := a]
  }

  lemma {:induction false} SubmitBooks(st: State, sub: Submission, key: string, offline: bool)
    ensures BooksSend(st, Submit(st, sub, key, offline))
  {
    hide MaySubmit;
  }

  lemma {:induction false} SubmitNewBooks(st: State, key: string, offline: bool, channel: string, content: string,
      replyToId: Option<string>, draftRevision: Option<nat>, replyRevision: Option<nat>)
    ensures BooksSend(st, SubmitNew(st, key, offline, channel, content, replyToId, draftRevision, replyRevision))
  {
    hide Submit;
    var sub := Submission(st.nextId, st.current, channel, content, replyToId, draftRevision, replyRevision);
    SubmitBooks(st.(nextId := st.nextId + 1), sub, key, offline);
  }

  lemma {:induction false} DraftBooks(st: State, key: string, offline: bool, channel: string)
    requires st.current < |st.owners|
    ensures BooksSend(st, SendDraftStep(st, key, offline, channel))
  {
    hide SubmitNew, Trim, CommandWord, HasPayload, WireReply, Blocked;
    SubmitNewBooks(st, key, offline, channel, st.draft, WireReply(st.reply), Some(st.draftRevision),
      Some(st.replyRevision));
  }

  /** Steps that start, forward or edit book nothing but new sends. */
  lemma {:induction false} OnlySends(st: State, e: Event)
    requires st.current < |st.owners|
    requires !e.Settle? && !e.Discard? && !e.CommitScope? && !e.UploadReady?
    ensures BooksSend(st, Next(st, e))
  {
    hide SendDraftStep, SubmitNew, Submit, ForwardedStep, Blocked;
    match e
    case SendDraft(key, offline, channel) => DraftBooks(st, key, offline, channel);
    case SendAux(key, offline, channel, content, replyToId) =>
      SubmitNewBooks(st, key, offline, channel, content, replyToId, None, None);
    case Retry(key, offline) => if st.panel.Some? { SubmitBooks(st, st.panel.value, key, offline); }
    case Forwarded(task, ok) => ForwardedBooks(st, task, ok);
    case _ =>
  }

  lemma {:induction false} OnlyInFlight(st: State, e: Event, id: nat)
    requires st.current < |st.owners| && id in Next(st, e).ledger
    requires !e.Settle? && !e.Discard? && !e.CommitScope? && !e.UploadReady?
    ensures Next(st, e).ledger[id].outcome == InFlight || (id in st.ledger && Next(st, e).ledger[id] == st.ledger[id])
  {
    hide Next;
    OnlySends(st, e);
  }

  lemma {:induction false} ForwardedBooks(st: State, task: nat, ok: bool)
    requires st.current < |st.owners|
    ensures Next(st, Forwarded(task, ok)).ledger == st.ledger
  {
  }

  lemma {:induction false} UploadBooks(st: State, task: nat, content: string, id: nat)
    requires st.current < |st.owners| && id in Next(st, UploadReady(task, content)).ledger
    ensures Next(st, UploadReady(task, content)).ledger[id].outcome == InFlight
      || (id in st.ledger && Next(st, UploadReady(task, content)).ledger[id] == st.ledger[id])
  {
    hide SubmitNew;
    if Runs(st, task) && st.tasks[task].Upload? {
      var Upload(u, channel, _) := st.tasks[task];
      SubmitNewBooks(SetPending(Drop(st, task), u, false), st.owners[u].scopeKey, false, channel, content, None, None,
        None);
    }
  }

  /** A submission becomes delivered exactly when its own send succeeds. */
  lemma {:induction false} DeliveredIff(st: State, e: Event, id: nat)
    requires Inv(st)
    ensures Becomes(st, Next(st, e), id, Delivered) <==> SettlesSend(st, e, id, true)
  {
    hide Inv, SettleStep, UploadReadyStep, SendDraftStep, SubmitNew, CommitStep, DiscardStep, ForwardedStep, Acquire,
      Finish;
    CurrentExists(st);
    var n := Next(st, e);
    if e.Settle? {
      if Runs(st, e.task) && st.tasks[e.task].Send? {
        BooksItsSend(st, e.task, e.ok);
        if id in n.ledger {
          SettledAccount(st, e.task, e.ok, id);
        }
      }
    } else {
      NotSettled(st, e, id);
    }
  }

  lemma {:induction false} BooksItsSend(st: State, task: nat, ok: bool)
    requires Inv(st) && Runs(st, task) && st.tasks[task].Send?
    ensures st.tasks[task].sub.id in SettleStep(st, task, ok).ledger
  {
    hide Inv;
    SendIsBooked(st, task);
  }

  /** Discards and scope changes book nothing but the end of the held submission. */
  lemma {:induction false} OnlyEnds(st: State, e: Event, id: nat)
    requires st.current < |st.owners| && (e.Discard? || e.CommitScope?) && id in Next(st, e).ledger
    ensures Next(st, e).ledger[id].outcome == (if e.Discard? then Discarded else Abandoned)
      || (id in st.ledger && Next(st, e).ledger[id] == st.ledger[id])
  {
  }

  /** Without a settled send nothing becomes delivered, and only discards and scope changes end a submission. */
  lemma {:induction false} NotSettled(st: State, e: Event, id: nat)
    requires Inv(st) && !e.Settle?
    ensures !Becomes(st, Next(st, e), id, Delivered)
    ensures !e.Discard? ==> !Becomes(st, Next(st, e), id, Discarded)
    ensures !e.CommitScope? ==> !Becomes(st, Next(st, e), id, Abandoned)
  {
    hide Inv, Next;
    CurrentExists(st);
    if id in Next(st, e).ledger {
      if e.UploadReady? {
        UploadBooks(st, e.task, e.content, id);
      } else if e.Discard? || e.CommitScope? {
        OnlyEnds(st, e, id);
      } else {
        OnlyInFlight(st, e, id);
      }
    }
  }

  /** A submission becomes discarded exactly when it is the held one, the slot is free and Discard is pressed. */
  lemma {:induction false} DiscardedIff(st: State, e: Event, id: nat)
    requires Inv(st)
    ensures Becomes(st, Next(st, e), id, Discarded) <==>
      e.Discard? && !st.owners[st.current].pending && st.failed.Some? && st.failed.value.id == id
  {
    hide Inv, SettleStep, UploadReadyStep, SendDraftStep, SubmitNew, CommitStep, DiscardStep, ForwardedStep, Acquire,
      Finish;
    CurrentExists(st);
    if e.Settle? {
      if Runs(st, e.task) && st.tasks[e.task].Send? && id in Next(st, e).ledger {
        SettledAccount(st, e.task, e.ok, id);
      }
    } else if e.Discard? {
      DiscardAccount(st, id);
    } else {
      NotSettled(st, e, id);
    }
  }

  lemma {:induction false} DiscardAccount(st: State, id: nat)
    requires Inv(st)
    ensures Becomes(st, DiscardStep(st), id, Discarded) <==>
      !st.owners[st.current].pending && st.failed.Some? && st.failed.value.id == id
  {
    hide Inv, Running;
    CurrentExists(st);
    if st.failed.Some? {
      HeldIsBooked(st);
    }
  }

  /** A submission becomes abandoned exactly when it is held while its scope changes, or its send fails after that. */
  lemma {:induction false} AbandonedIff(st: State, e: Event, id: nat)
    requires Inv(st)
    ensures Becomes(st, Next(st, e), id, Abandoned) <==>
      || (SettlesSend(st, e, id, false) && !st.owners[st.tasks[e.task].sub.owner].active)
      || (e.CommitScope? && st.owners[st.current].scopeKey != st.scopeKey
          && st.failed.Some? && st.failed.value.id == id && !Running(st.tasks, id))
  {
    hide Inv, SettleStep, UploadReadyStep, SendDraftStep, SubmitNew, CommitStep, DiscardStep, ForwardedStep, Acquire,
      Finish;
    CurrentExists(st);
    if e.Settle? {
      if Runs(st, e.task) && st.tasks[e.task].Send? {
        SendIsBooked(st, e.task);
        BooksItsSend(st, e.task, e.ok);
        if id in Next(st, e).ledger {
          SettledAccount(st, e.task, e.ok, id);
        }
      }
    } else if e.CommitScope? {
      CommitAccount(st, id);
    } else {
      NotSettled(st, e, id);
    }
  }

  lemma {:induction false} CommitAccount(st: State, id: nat)
    requires Inv(st)
    ensures Becomes(st, CommitStep(st), id, Abandoned) <==>
      st.owners[st.current].scopeKey != st.scopeKey && st.failed.Some? && st.failed.value.id == id
        && !Running(st.tasks, id)
  {
    hide Inv, Running;
    CurrentExists(st);
    if st.failed.Some? {
      HeldIsBooked(st);
    }
  }

  // ----- every submission accounted for, over every run

  /** What was abandoned belongs to a retired owner, and what was delivered is among the deliveries. */
  ghost predicate Tied(st: State, id: nat) {
    id in st.ledger ==>
      && (st.ledger[id].outcome == Abandoned ==>
          st.ledger[id].sub.owner < |st.owners| && !st.owners[st.ledger[id].sub.owner].active)
      && (st.ledger[id].outcome == Delivered ==> id in st.deliveries)
  }

  lemma {:induction false} DeliveryOther(st: State, e: Event)
    requires st.current < |st.owners| && !e.Settle?
    ensures Next(st, e).deliveries == st.deliveries
  {
    if e.UploadReady? {
      hide UploadReadyStep;
      if Runs(st, e.task) && st.tasks[e.task].Upload? {
        DeliveryUpload(st, e.task, e.content);
      }
    } else {
      hide UploadReadyStep, Trim, CommandWord, Runs;
    }
  }

  lemma {:induction false} DeliveryUpload(st: State, task: nat, content: string)
    requires st.current < |st.owners| && Runs(st, task) && st.tasks[task].Upload?
    ensures UploadReadyStep(st, task, content).deliveries == st.deliveries
  {
  }

  lemma {:induction false} DeliveriesGrow(st: State, e: Event)
    requires st.current < |st.owners|
    ensures st.deliveries <= Next(st, e).deliveries
    ensures e.Settle? && e.ok && Runs(st, e.task) && st.tasks[e.task].Send? ==>
      st.tasks[e.task].sub.id in Next(st, e).deliveries
  {
    if !e.Settle? {
      DeliveryOther(st, e);
    }
  }

  lemma {:induction false} AbandonedOwner(st: State, e: Event, id: nat)
    requires Inv(st) && Becomes(st, Next(st, e), id, Abandoned)
    ensures var n := Next(st, e); n.ledger[id].sub.owner < |n.owners| && !n.owners[n.ledger[id].sub.owner].active
  {
    hide Inv, Next, SettleStep, CommitStep;
    CurrentExists(st);
    AbandonedIff(st, e, id);
    if e.Settle? {
      SendIsBooked(st, e.task);
      CapturedOnce(st, e, id);
      KeepsOwner(st, e, st.tasks[e.task].sub.owner);
    } else {
      HeldIsBooked(st);
      CapturedOnce(st, e, id);
      RetiresCurrent(st);
    }
  }

  lemma {:induction false} RetiresCurrent(st: State)
    requires st.current < |st.owners| && st.owners[st.current].scopeKey != st.scopeKey
    ensures var n := Next(st, CommitScope); st.current < |n.owners| && !n.owners[st.current].active
  {
  }

  lemma {:induction false} TiedStep(st: State, e: Event, id: nat)
    requires Inv(st) && Tied(st, id)
    ensures Tied(Next(st, e), id)
  {
    var n := Next(st, e);
    assert st.current < |st.owners|;
    hide Inv, Next;
    if id in n.ledger {
      DeliveriesGrow(st, e);
      DeliveredIff(st, e, id);
      if Becomes(st, n, id, Abandoned) {
        AbandonedOwner(st, e, id);
      } else if n.ledger[id].outcome == Abandoned {
        CapturedOnce(st, e, id);
        KeepsOwner(st, e, st.ledger[id].sub.owner);
      }
    }
  }

  lemma {:induction false} RunTied(key: string, es: seq<Event>, id: nat)
    ensures Tied(Run(key, es), id)
    decreases |es|
  {
    hide Inv, Next;
    if es != [] {
      var init := es[..|es| - 1];
      RunInv(key, init);
      RunTied(key, init, id);
      TiedStep(Run(key, init), es[|es| - 1], id);
    }
  }

  /** Every accepted submission is in exactly one place, and the place is real: in flight means a send is running, held
      means it is the recoverable failed submission with no send running, delivered means it was delivered, abandoned
      means its owner is retired; what is delivered, discarded or abandoned is neither running nor held. */
  lemma {:induction false} EverySubmissionAccounted(key: string, es: seq<Event>, id: nat)
    requires id in Run(key, es).ledger
    ensures var st := Run(key, es); var Account(sub, outcome) := st.ledger[id];
      && (outcome.InFlight? <==> Running(st.tasks, id))
      && (outcome.Held? <==> st.failed == Some(sub) && !Running(st.tasks, id))
      && (Final(outcome) ==> !Running(st.tasks, id) && (st.failed.Some? ==> st.failed.value.id != id))
      && (outcome.Delivered? ==> id in st.deliveries)
      && (outcome.Abandoned? ==> sub.owner < |st.owners| && !st.owners[sub.owner].active)
  {
    var st := Run(key, es);
    RunInv(key, es);
    RunTied(key, es, id);
    assert Booked(st, id);
    assert st.failed.Some? ==> Known(st.ledger, st.failed.value);
  }
}
