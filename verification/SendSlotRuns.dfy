/** Main results about the send slot: over every interleaving, and one step at a time. */
module SendSlotRuns {
  import opened JsText
  import opened Outcomes
  import opened SendSlot
  import opened SendSlotLaws

  lemma {:induction false} SendDraftInv(st: State, key: string, offline: bool, channel: string)
    requires Inv(st)
    ensures Inv(SendDraftStep(st, key, offline, channel))
  {
    var trimmed := Trim(st.draft);
    if trimmed != "" && !Blocked(st, key) {
      EditInv(st, "");
      if trimmed[0] != '/' && !offline && channel != "" {
        SubmitNewInv(st, key, offline, channel, st.draft, WireReply(st.reply), Some(st.draftRevision),
          Some(st.replyRevision));
      } else {
        ReplyInv(EditDraft(st, ""), None);
      }
    }
  }

  lemma {:induction false} RetryInv(st: State, key: string, offline: bool)
    requires Inv(st)
    ensures Inv(Next(st, Retry(key, offline)))
  {
    if st.panel.Some? && MaySubmit(st, st.panel.value, key, offline) {
      var sub := st.panel.value;
      assert Known(st.ledger, sub) && Booked(st, sub.id) && Stamped(st, st.ledger[sub.id].sub);
      SubmitInv(st, sub, key, offline);
    }
  }

  lemma {:induction false} UploadInv(st: State, e: Event)
    requires Inv(st) && (e.FileRead? || e.UploadReady? || e.UploadFails?)
    ensures Inv(Next(st, e))
  {
    hide Inv, UploadReadyStep, Finish, Drop;
    CurrentExists(st);
    if e.task in st.tasks && st.tasks[e.task].Upload? {
      EndInv(st, e.task);
      match e {
        case FileRead(task) => ProgressInv(st, task, st.tasks[task].(encrypting := true));
        case UploadReady(task, content) => HandOff(st, task, content);
        case _ =>
      }
    }
  }

  lemma {:induction false} ForwardedInv(st: State, task: nat, ok: bool)
    requires Inv(st)
    ensures Inv(Next(st, Forwarded(task, ok)))
  {
    hide Inv, Finish, Drop;
    CurrentExists(st);
    if task in st.tasks && st.tasks[task].Forward? {
      EndInv(st, task);
      ProgressInv(st, task, ForwardNext(st.tasks[task], ok));
    }
  }

  /** Every step keeps the invariant, whoever takes it and whenever. */
  lemma {:induction false} NextInv(st: State, e: Event)
    requires Inv(st)
    ensures Inv(Next(st, e))
  {
    hide SendDraftStep, SubmitNew, DiscardStep, CommitStep, SettleStep, Acquire, ForwardedStep, UploadReadyStep,
      LedgerOk, StampsOk, SlotsOk, FailedOk, EditDraft, ChangeReply;
    match e
    case Edit(text) => EditInv(st, text);
    case SetReply(target) => ReplyInv(st, target);
    case SendDraft(key, offline, channel) => SendDraftInv(st, key, offline, channel);
    case SendAux(key, offline, channel, content, replyToId) =>
      SubmitNewInv(st, key, offline, channel, content, replyToId, None, None);
    case Retry(key, offline) => RetryInv(st, key, offline);
    case Discard => DiscardInv(st);
    case RenderPanel => RenderInv(st, st.scopeKey);
    case RenderScope(k) => RenderInv(st, k);
    case CommitScope => CommitInv(st);
    case Settle(task, ok) => if Runs(st, task) && st.tasks[task].Send? { SettleInv(st, task, ok); }
    case BeginUpload(key, channel) =>
      if channel != "" && !Blocked(st, key) { AcquireInv(st, Upload(st.current, channel, false)); }
    case FileRead(task) => UploadInv(st, e);
    case UploadReady(task, content) => UploadInv(st, e);
    case UploadFails(task) => UploadInv(st, e);
    case BeginForward(key, n) => if n != 0 && !Blocked(st, key) { AcquireInv(st, Forward(st.current, n, 0, 0)); }
    case Forwarded(task, ok) => ForwardedInv(st, task, ok);
  }

  /** The state after a run of events from a mounted composer. */
  ghost function Run(key: string, es: seq<Event>): (st: State)
    ensures st.current < |st.owners|
    decreases |es|
  {
    if es == [] then Mounted(key)
    else
      var st := Run(key, es[..|es| - 1]);
      KeepsOwner(st, es[|es| - 1], st.current);
      Next(st, es[|es| - 1])
  }

  /** Owners are only ever added, and a retired owner stays retired. */
  predicate OwnerKept(st: State, n: State, o: nat) {
    && o < |st.owners| && o < |n.owners| && n.current < |n.owners|
    && (n.owners[o].active ==> st.owners[o].active)
  }

  lemma {:induction false} SubmitOneKeepsOwner(st: State, sub: Submission, key: string, offline: bool, o: nat)
    requires st.current < |st.owners| && o < |st.owners|
    ensures OwnerKept(st, Submit(st, sub, key, offline), o)
  {
  }

  lemma {:induction false} SubmitKeepsOwner(st: State, key: string, offline: bool, channel: string, content: string,
      replyToId: Option<string>, draftRevision: Option<nat>, replyRevision: Option<nat>, o: nat)
    requires st.current < |st.owners| && o < |st.owners|
    ensures OwnerKept(st, SubmitNew(st, key, offline, channel, content, replyToId, draftRevision, replyRevision), o)
  {
    hide Submit;
    var sub := Submission(st.nextId, st.current, channel, content, replyToId, draftRevision, replyRevision);
    SubmitOneKeepsOwner(st.(nextId := st.nextId + 1), sub, key, offline, o);
  }

  lemma {:induction false} EndsKeepOwner(st: State, o: nat)
    requires st.current < |st.owners| && o < |st.owners|
    ensures OwnerKept(st, CommitStep(st), o) && OwnerKept(st, DiscardStep(st), o)
  {
  }

  lemma {:induction false} UploadKeepsOwner(st: State, task: nat, content: string, o: nat)
    requires st.current < |st.owners| && o < |st.owners|
    requires task in st.tasks && st.tasks[task].Upload? && st.tasks[task].uploader < |st.owners|
    ensures OwnerKept(st, UploadReadyStep(st, task, content), o)
  {
    hide SubmitNew;
    var Upload(u, channel, _) := st.tasks[task];
    var s, key := SetPending(Drop(st, task), u, false), st.owners[u].scopeKey;
    SubmitKeepsOwner(s, key, false, channel, content, None, None, None, o);
    SubmitKeepsOwner(s, key, false, channel, content, None, None, None, u);
  }

  lemma {:induction false} SendKeepsOwner(st: State, key: string, offline: bool, channel: string, o: nat)
    requires st.current < |st.owners| && o < |st.owners|
    ensures OwnerKept(st, SendDraftStep(st, key, offline, channel), o)
  {
    hide SubmitNew, Trim, CommandWord, HasPayload, WireReply, Blocked;
    SubmitKeepsOwner(st, key, offline, channel, st.draft, WireReply(st.reply), Some(st.draftRevision),
      Some(st.replyRevision), o);
  }

  lemma {:induction false} SettleKeepsOwner(st: State, task: nat, ok: bool, o: nat)
    requires st.current < |st.owners| && o < |st.owners|
    requires task in st.tasks && st.tasks[task].Send? && st.tasks[task].sub.owner < |st.owners|
    ensures OwnerKept(st, SettleStep(st, task, ok), o)
  {
  }

  lemma {:induction false} ForwardedKeepsOwner(st: State, task: nat, ok: bool, o: nat)
    requires st.current < |st.owners| && o < |st.owners|
    requires task in st.tasks && st.tasks[task].Forward? && st.tasks[task].forwarder < |st.owners|
    ensures OwnerKept(st, ForwardedStep(st, task, ok), o)
  {
  }

  /** No step removes an owner or brings a retired one back. */
  lemma {:induction false} KeepsOwner(st: State, e: Event, o: nat)
    requires st.current < |st.owners| && o < |st.owners|
    ensures OwnerKept(st, Next(st, e), o)
  {
    hide SendDraftStep, UploadReadyStep, SubmitNew, Submit, SettleStep, ForwardedStep, CommitStep, DiscardStep, Blocked;
    match e
    case Retry(key, offline) => if st.panel.Some? { SubmitOneKeepsOwner(st, st.panel.value, key, offline, o); }
    case Discard => EndsKeepOwner(st, o);
    case CommitScope => EndsKeepOwner(st, o);
    case SendDraft(key, offline, channel) => SendKeepsOwner(st, key, offline, channel, o);
    case SendAux(key, offline, channel, content, replyToId) =>
      SubmitKeepsOwner(st, key, offline, channel, content, replyToId, None, None, o);
    case Settle(task, ok) => if Runs(st, task) && st.tasks[task].Send? { SettleKeepsOwner(st, task, ok, o); }
    case UploadReady(task, content) =>
      if Runs(st, task) && st.tasks[task].Upload? { UploadKeepsOwner(st, task, content, o); }
    case Forwarded(task, ok) =>
      if Runs(st, task) && st.tasks[task].Forward? { ForwardedKeepsOwner(st, task, ok, o); }
    case _ =>
  }

  lemma {:induction false} RunInv(key: string, es: seq<Event>)
    ensures Inv(Run(key, es))
    decreases |es|
  {
    hide Inv, Next;
    if es == [] {
      MountedInv(key);
    } else {
      RunInv(key, es[..|es| - 1]);
      NextInv(Run(key, es[..|es| - 1]), es[|es| - 1]);
    }
  }

  // ----- one slot

  /** In every interleaving at most one action is in flight under the current owner, and the disabled state of the
      composer shows exactly whether there is one. */
  lemma {:induction false} OneActionInFlight(key: string, es: seq<Event>, t: nat, u: nat)
    ensures var st := Run(key, es);
      && (t in st.tasks && u in st.tasks ==>
          TaskOwner(st.tasks[t]) == st.current && TaskOwner(st.tasks[u]) == st.current ==> t == u)
      && (st.sending <==> exists v :: v in st.tasks && TaskOwner(st.tasks[v]) == st.current)
  {
    RunInv(key, es);
  }

  ghost predicate SameCapture(st: State, n: State, id: nat) {
    id in st.ledger && id in n.ledger && n.ledger[id].sub == st.ledger[id].sub
  }

  lemma {:induction false} CapturedSettle(st: State, task: nat, ok: bool, id: nat)
    requires id in st.ledger && task in st.tasks && st.tasks[task].Send? && st.tasks[task].sub.owner < |st.owners|
    requires Known(st.ledger, st.tasks[task].sub)
    ensures SameCapture(st, SettleStep(st, task, ok), id)
    ensures SettleStep(st, task, ok).ledger[id] != st.ledger[id] ==> id == st.tasks[task].sub.id
  {
  }

  lemma {:induction false} CapturedUpload(st: State, task: nat, content: string, id: nat)
    requires id in st.ledger && st.nextId !in st.ledger
    requires task in st.tasks && st.tasks[task].Upload? && st.tasks[task].uploader < |st.owners|
    ensures SameCapture(st, UploadReadyStep(st, task, content), id)
    ensures UploadReadyStep(st, task, content).ledger[id] == st.ledger[id]
  {
  }

  lemma {:induction false} CapturedOther(st: State, e: Event, id: nat)
    requires st.current < |st.owners| && id in st.ledger && st.nextId !in st.ledger
    requires !e.Settle? && !e.UploadReady?
    requires st.panel.Some? ==> Known(st.ledger, st.panel.value)
    requires st.failed.Some? ==> Known(st.ledger, st.failed.value)
    ensures SameCapture(st, Next(st, e), id)
    ensures Next(st, e).ledger[id] != st.ledger[id] ==>
      || (e.Retry? && st.panel.Some? && st.panel.value.id == id && MaySubmit(st, st.panel.value, e.key, e.offline))
      || (st.failed.Some? && st.failed.value.id == id)
  {
    hide Trim, CommandWord, HasPayload, WireReply, Blocked;
  }

  /** Accounts are never closed and the captured request of a submission never changes, so a retry always carries the
      content, target and reply captured first. */
  lemma {:induction false} CapturedOnce(st: State, e: Event, id: nat)
    requires Inv(st) && id in st.ledger
    ensures SameCapture(st, Next(st, e), id)
  {
    hide Inv, SameCapture, SettleStep, UploadReadyStep, SendDraftStep, SubmitNew, CommitStep, DiscardStep,
      ForwardedStep, Acquire, Finish;
    CurrentExists(st);
    NextIdInv(st);
    CapturedNothing(st, id);
    if e.Settle? {
      if Runs(st, e.task) && st.tasks[e.task].Send? {
        SendIsBooked(st, e.task);
        CapturedSettle(st, e.task, e.ok, id);
      }
    } else if e.UploadReady? {
      if Runs(st, e.task) && st.tasks[e.task].Upload? {
        CapturedUpload(st, e.task, e.content, id);
      }
    } else {
      CapturedElse(st, e, id);
    }
  }

  lemma {:induction false} CapturedNothing(st: State, id: nat)
    requires id in st.ledger
    ensures SameCapture(st, st, id)
  {
  }

  lemma {:induction false} CapturedElse(st: State, e: Event, id: nat)
    requires Inv(st) && st.current < |st.owners| && id in st.ledger && !e.Settle? && !e.UploadReady?
    ensures SameCapture(st, Next(st, e), id)
  {
    hide Inv, Next, SameCapture;
    NextIdInv(st);
    if st.panel.Some? {
      PanelIsBooked(st);
    }
    if st.failed.Some? {
      HeldIsBooked(st);
    }
    CapturedOther(st, e, id);
  }

  /** Whatever is sent is a captured request on the books. */
  lemma {:induction false} SentAsCaptured(key: string, es: seq<Event>, t: nat)
    requires t in Run(key, es).tasks && Run(key, es).tasks[t].Send?
    ensures
      var st := Run(key, es);
      st.tasks[t].sub.id in st.ledger && st.ledger[st.tasks[t].sub.id].sub == st.tasks[t].sub
  {
    RunInv(key, es);
    assert Known(Run(key, es).ledger, Run(key, es).tasks[t].sub);
  }

  // ----- failed submissions survive

  /** The step ends the held submission: its own send succeeding, an explicit discard, or a scope change. */
  predicate Releases(st: State, e: Event, sub: Submission)
    requires st.current < |st.owners|
  {
    || (e.Settle? && e.ok && Runs(st, e.task) && st.tasks[e.task] == Send(sub))
    || (e.Discard? && !st.owners[st.current].pending)
    || (e.CommitScope? && st.owners[st.current].scopeKey != st.scopeKey)
  }

  lemma {:induction false} SettleKeepsFailed(st: State, task: nat, ok: bool)
    requires Inv(st) && st.failed.Some? && Runs(st, task) && st.tasks[task].Send?
    ensures SettleStep(st, task, ok).failed ==
      if ok && st.tasks[task] == Send(st.failed.value) then None else st.failed
  {
    hide Inv;
    HeldIsBooked(st);
    SendIsBooked(st, task);
  }

  lemma {:induction false} UploadKeepsFailed(st: State, task: nat, content: string)
    requires st.current < |st.owners| && Runs(st, task) && st.tasks[task].Upload?
    ensures UploadReadyStep(st, task, content).failed == st.failed
  {
    hide SubmitNew;
    var Upload(u, channel, _) := st.tasks[task];
    SubmitKeepsFailed(SetPending(Drop(st, task), u, false), st.owners[u].scopeKey, false, channel, content, None, None,
      None);
  }

  lemma {:induction false} SubmitKeepsFailed(st: State, key: string, offline: bool, channel: string, content: string,
      replyToId: Option<string>, draftRevision: Option<nat>, replyRevision: Option<nat>)
    ensures SubmitNew(st, key, offline, channel, content, replyToId, draftRevision, replyRevision).failed == st.failed
  {
    hide MaySubmit;
  }

  lemma {:induction false} SendKeepsFailed(st: State, e: Event)
    requires st.current < |st.owners|
    requires e.SendDraft? || e.SendAux? || e.Retry?
    ensures Next(st, e).failed == st.failed
  {
    hide SubmitNew, MaySubmit, Trim, CommandWord, HasPayload, WireReply, Blocked;
    match e
    case SendDraft(key, offline, channel) =>
      SubmitKeepsFailed(st, key, offline, channel, st.draft, WireReply(st.reply), Some(st.draftRevision),
        Some(st.replyRevision));
    case SendAux(key, offline, channel, content, replyToId) =>
      SubmitKeepsFailed(st, key, offline, channel, content, replyToId, None, None);
    case _ =>
  }

  lemma {:induction false} OtherKeepsFailed(st: State, e: Event)
    requires st.current < |st.owners| && st.failed.Some?
    requires !e.Settle? && !e.UploadReady? && !e.SendDraft? && !e.SendAux? && !e.Retry?
    ensures Next(st, e).failed == (if Releases(st, e, st.failed.value) then None else st.failed)
  {
  }

  /** A held failed submission leaves exactly in these three ways. */
  lemma {:induction false} FailedSubmissionSurvives(st: State, e: Event)
    requires Inv(st) && st.failed.Some?
    ensures Next(st, e).failed == (if Releases(st, e, st.failed.value) then None else st.failed)
  {
    hide Inv, SettleStep, UploadReadyStep, SendDraftStep, SubmitNew, CommitStep, DiscardStep, ForwardedStep, Acquire,
      Finish;
    CurrentExists(st);
    if e.Settle? {
      if Runs(st, e.task) && st.tasks[e.task].Send? {
        SettleKeepsFailed(st, e.task, e.ok);
      }
    } else if e.UploadReady? {
      if Runs(st, e.task) && st.tasks[e.task].Upload? {
        UploadKeepsFailed(st, e.task, e.content);
      }
    } else if e.SendDraft? || e.SendAux? || e.Retry? {
      SendKeepsFailed(st, e);
    } else {
      OtherKeepsFailed(st, e);
    }
  }

  /** A completion of an owner that is no longer current changes no draft, reply, revision, held submission, panel or
      sending flag, and not the current owner either. */
  lemma {:induction false} StaleCompletionIsInert(st: State, e: Event)
    requires Inv(st)
    requires e.Settle? || e.FileRead? || e.UploadReady? || e.UploadFails? || e.Forwarded?
    requires e.task in st.tasks ==> TaskOwner(st.tasks[e.task]) != st.current
    ensures UntouchedComposer(st, Next(st, e))
  {
    if Runs(st, e.task) {
      StaleStep(st, e);
    }
  }

  /** Same draft, reply, revisions, held submission, panel, sending flag and current owner; no new task. */
  ghost predicate UntouchedComposer(st: State, n: State) {
    && n.draft == st.draft && n.draftRevision == st.draftRevision
    && n.reply == st.reply && n.replyRevision == st.replyRevision
    && n.failed == st.failed && n.panel == st.panel && n.sending == st.sending
    && n.current == st.current < |st.owners| == |n.owners| && n.owners[n.current] == st.owners[st.current]
    && n.tasks.Keys <= st.tasks.Keys
  }

  lemma {:induction false} StaleSettle(st: State, task: nat, ok: bool)
    requires st.current < |st.owners| && task in st.tasks && st.tasks[task].Send?
    requires st.tasks[task].sub.owner < |st.owners| && st.tasks[task].sub.owner != st.current
      && !st.owners[st.tasks[task].sub.owner].active
    ensures UntouchedComposer(st, SettleStep(st, task, ok))
  {
  }

  lemma {:induction false} StaleEnd(st: State, task: nat, o: nat)
    requires st.current < |st.owners| && o < |st.owners| && o != st.current
    ensures UntouchedComposer(st, Finish(Drop(st, task), o))
  {
  }

  lemma {:induction false} StaleStep(st: State, e: Event)
    requires st.current < |st.owners|
    requires e.Settle? || e.FileRead? || e.UploadReady? || e.UploadFails? || e.Forwarded?
    requires Runs(st, e.task) && TaskOwner(st.tasks[e.task]) != st.current
      && !st.owners[TaskOwner(st.tasks[e.task])].active
    ensures UntouchedComposer(st, Next(st, e))
  {
    StaleEnd(st, e.task, TaskOwner(st.tasks[e.task]));
    if e.Settle? && st.tasks[e.task].Send? {
      StaleSettle(st, e.task, e.ok);
    }
  }

  // ----- revisions are version stamps

  /** Whenever a captured revision is still the current one, the composer holds what was captured, or nothing. */
  lemma {:induction false} RevisionIsVersionStamp(key: string, es: seq<Event>, id: nat)
    requires id in Run(key, es).ledger
    ensures var st := Run(key, es); var sub := st.ledger[id].sub;
      && (sub.draftRevision == Some(st.draftRevision) ==> st.draft == sub.content || st.draft == "")
      && (sub.replyRevision == Some(st.replyRevision) ==> WireReply(st.reply) == sub.replyToId || st.reply == None)
  {
    RunInv(key, es);
    assert Stamped(Run(key, es), Run(key, es).ledger[id].sub);
  }

  /** So a success never erases text typed after capture: the only draft it clears is the text it sent. */
  lemma {:induction false} SuccessClearsOnlyWhatItSent(st: State, task: nat, ok: bool)
    requires Inv(st)
    ensures var n := Next(st, Settle(task, ok));
      && (n.draft != st.draft ==>
        task in st.tasks && st.tasks[task].Send? && ok && n.draft == "" && st.draft == st.tasks[task].sub.content)
      && (n.reply != st.reply ==>
        task in st.tasks && st.tasks[task].Send? && ok && n.reply == None &&
        WireReply(st.reply) == st.tasks[task].sub.replyToId)
      && n.draftRevision == st.draftRevision && n.replyRevision == st.replyRevision
      && (task in st.tasks && st.tasks[task].Send? && st.tasks[task].sub.draftRevision == None ==> n.draft == st.draft)
  {
    if Runs(st, task) && st.tasks[task].Send? {
      assert Known(st.ledger, st.tasks[task].sub);
      assert Stamped(st, st.ledger[st.tasks[task].sub.id].sub);
    }
  }
}
