/** What each step of the send-slot protocol does, told by the fields of the state. */
module SendSlotEffects {
  import opened JsText
  import opened Outcomes
  import opened SendSlot
  import opened SendSlotLaws
  import opened SendSlotRuns
  import opened SendSlotScreen
  import opened TextLaws

  // ----- a send starts

  /** The slot of the current owner, who serves this scope, is free, and nothing is held. */
  ghost predicate Free(st: State, key: string) {
    && st.current < |st.owners| && st.owners[st.current] == Owner(true, false, key) && st.failed == None
  }

  /** The slot of the current owner is now taken by this new task, and nothing but the given state has changed. */
  ghost predicate Takes(st: State, n: State, t: nat, task: Task) {
    && t !in st.tasks && n.tasks == st.tasks[t := task] && n.sending
    && n.current == st.current < |st.owners| == |n.owners|
    && (forall o :: 0 <= o < |st.owners| ==>
        n.owners[o] == if o == st.current then st.owners[o].(pending := true) else st.owners[o])
    && n.scopeKey == st.scopeKey && n.failed == st.failed && n.panel == st.panel
    && n.draft == st.draft && n.draftRevision == st.draftRevision
    && n.reply == st.reply && n.replyRevision == st.replyRevision && n.deliveries == st.deliveries
  }

  /** A new request is sent: one new task in flight, on the books under an id not used before. */
  ghost predicate Starts(st: State, n: State, t: nat, sub: Submission) {
    && Takes(st, n, t, Send(sub)) && sub.owner == st.current
    && sub.id !in st.ledger && n.ledger == st.ledger[sub.id := Account(sub, InFlight)]
  }

  lemma {:induction false} NewSend(st: State, key: string, channel: string, content: string,
      replyToId: Option<string>, draftRevision: Option<nat>, replyRevision: Option<nat>)
      returns (t: nat, sub: Submission)
    requires Inv(st) && Free(st, key)
    ensures Starts(st, SubmitNew(st, key, false, channel, content, replyToId, draftRevision, replyRevision), t, sub)
    ensures sub.channelId == channel && sub.content == content && sub.replyToId == replyToId
    ensures sub.draftRevision == draftRevision && sub.replyRevision == replyRevision
  {
    NextIdInv(st);
    NextTaskIsNew(st);
    hide Inv;
    t := st.nextId + 1;
    sub := Submission(st.nextId, st.current, channel, content, replyToId, draftRevision, replyRevision);
  }

  lemma {:induction false} NextTaskIsNew(st: State)
    requires Inv(st)
    ensures forall t :: t in st.tasks ==> t < st.nextId
  {
  }

  /** Sending the draft: with a free slot and online, a draft that is not blank and no slash command starts exactly one
      send, with the draft as it is, the reply unless its target exists only on this device, and the revisions of
      both. */
  lemma {:induction false} SendDraftStarts(st: State, key: string, channel: string, trimmed: string)
      returns (t: nat, sub: Submission)
    requires Inv(st) && Free(st, key) && channel != ""
    requires TrimsTo(st.draft, trimmed) && trimmed != "" && trimmed[0] != '/'
    ensures Starts(st, Next(st, SendDraft(key, false, channel)), t, sub)
    ensures sub.channelId == channel && sub.content == st.draft
    ensures sub.replyToId == if st.reply.Some? && !("local-msg-" <= st.reply.value) then st.reply else None
    ensures sub.draftRevision == Some(st.draftRevision) && sub.replyRevision == Some(st.replyRevision)
  {
    hide Inv, SubmitNew, Starts, TrimsTo, Trim;
    CurrentExists(st);
    TrimIff(st.draft, trimmed);
    t, sub := NewSend(st, key, channel, st.draft, WireReply(st.reply), Some(st.draftRevision),
      Some(st.replyRevision));
  }

  /** A sticker, a GIF or a voice message is sent as it is and says nothing about the composer's contents. */
  lemma {:induction false} SendAuxStarts(st: State, key: string, channel: string, content: string,
      replyToId: Option<string>) returns (t: nat, sub: Submission)
    requires Inv(st) && Free(st, key) && channel != ""
    ensures Starts(st, Next(st, SendAux(key, false, channel, content, replyToId)), t, sub)
    ensures sub.channelId == channel && sub.content == content && sub.replyToId == replyToId
    ensures sub.draftRevision == None && sub.replyRevision == None
  {
    hide Inv, SubmitNew, Starts;
    CurrentExists(st);
    t, sub := NewSend(st, key, channel, content, replyToId, None, None);
  }

  /** Retry on a panel that shows the held submission sends that submission again. */
  lemma {:induction false} RetryStarts(st: State, key: string) returns (t: nat)
    requires Inv(st) && st.failed.Some? && st.panel == st.failed
    requires st.owners[st.current] == Owner(true, false, key)
    ensures var n := Next(st, Retry(key, false));
      && Takes(st, n, t, Send(st.failed.value))
      && n.ledger == st.ledger[st.failed.value.id := Account(st.failed.value, InFlight)]
  {
    HeldIsBooked(st);
    NextTaskIsNew(st);
    hide Inv;
    t := st.nextId;
  }

  /** A prepared upload of the current owner ends and its message starts, in the channel of the upload. */
  lemma {:induction false} UploadStarts(st: State, task: nat, content: string) returns (t: nat, sub: Submission)
    requires Inv(st) && task in st.tasks && st.tasks[task].Upload?
    requires st.tasks[task].uploader == st.current && st.tasks[task].encrypting
    ensures Starts(st.(tasks := st.tasks - {task}), Next(st, UploadReady(task, content)), t, sub)
    ensures sub.channelId == st.tasks[task].channelId && sub.content == content && sub.replyToId == None
    ensures sub.draftRevision == None && sub.replyRevision == None
  {
    hide Inv, UploadReadyStep, SubmitNew, Starts, Finish, Free, Next;
    TaskFacts(st, task);
    UploadIsStep(st, task, content);
    HandOffSplits(st, task, content);
    EndInv(st, task);
    var o, ended := st.current, Finish(Drop(st, task), st.current);
    EndFrees(st, task);
    t, sub := NewSend(ended, st.owners[o].scopeKey, st.tasks[task].channelId, content, None, None, None);
    HandsOver(st, ended, Next(st, UploadReady(task, content)), task, t, sub);
  }

  lemma {:induction false} UploadIsStep(st: State, task: nat, content: string)
    requires st.current < |st.owners| && task in st.tasks && st.tasks[task].Upload?
    requires st.tasks[task].uploader == st.current && st.tasks[task].encrypting
    ensures Next(st, UploadReady(task, content)) == UploadReadyStep(st, task, content)
  {
    hide UploadReadyStep;
  }

  lemma {:induction false} EndFrees(st: State, task: nat)
    requires st.current < |st.owners| && st.owners[st.current].active && st.failed.None?
    ensures var n, freed := Finish(Drop(st, task), st.current), st.owners[st.current].(pending := false);
      Free(n, st.owners[st.current].scopeKey)
      && n == st.(tasks := st.tasks - {task}, owners := st.owners[st.current := freed], sending := false)
  {
  }

  /** Taking a slot that has just been freed is taking it as it was. */
  lemma {:induction false} HandsOver(st: State, ended: State, n: State, task: nat, t: nat, sub: Submission)
    requires st.current < |st.owners| && st.owners[st.current].pending
    requires ended == st.(tasks := st.tasks - {task}, sending := false,
      owners := st.owners[st.current := st.owners[st.current].(pending := false)])
    requires Starts(ended, n, t, sub)
    ensures Starts(st.(tasks := st.tasks - {task}), n, t, sub)
  {
  }

  lemma {:induction false} TaskFacts(st: State, task: nat)
    requires Inv(st) && task in st.tasks && TaskOwner(st.tasks[task]) == st.current
    ensures st.current < |st.owners| && st.owners[st.current].active && st.owners[st.current].pending
    ensures !st.tasks[task].Send? ==> st.failed.None?
  {
  }

  // ----- uploads and forwards

  lemma {:induction false} UploadBegins(st: State, key: string, channel: string) returns (t: nat)
    requires Inv(st) && Free(st, key) && channel != ""
    ensures var n := Next(st, BeginUpload(key, channel));
      Takes(st, n, t, Upload(st.current, channel, false)) && n.ledger == st.ledger
  {
    NextTaskIsNew(st);
    hide Inv;
    t := st.nextId;
  }

  lemma {:induction false} ForwardBegins(st: State, key: string, destinations: nat) returns (t: nat)
    requires Inv(st) && Free(st, key) && destinations > 0
    ensures var n := Next(st, BeginForward(key, destinations));
      Takes(st, n, t, Forward(st.current, destinations, 0, 0)) && n.ledger == st.ledger
  {
    NextTaskIsNew(st);
    hide Inv;
    t := st.nextId;
  }

  /** The activity is over: its owner's slot is free, and the flag is cleared if that owner is the current one. */
  ghost predicate Ends(st: State, n: State, task: nat) {
    var o := if task in st.tasks then TaskOwner(st.tasks[task]) else 0;
    && task in st.tasks && o < |st.owners|
    && n == st.(tasks := st.tasks - {task}, owners := st.owners[o := st.owners[o].(pending := false)],
                sending := if o == st.current then false else st.sending)
  }

  /** A read file is encrypted unless its owner is no longer in use; a failed upload just ends. */
  lemma {:induction false} UploadGoesOn(st: State, task: nat)
    requires Inv(st) && task in st.tasks && st.tasks[task].Upload?
    ensures Ends(st, Next(st, UploadFails(task)), task)
    ensures Next(st, FileRead(task)) ==
      if st.tasks[task].encrypting then st
      else if st.tasks[task].uploader != st.current then Next(st, UploadFails(task))
      else st.(tasks := st.tasks[task := Upload(st.current, st.tasks[task].channelId, true)])
    ensures forall content :: !st.tasks[task].encrypting ==> Next(st, UploadReady(task, content)) == st
    ensures forall content :: st.tasks[task].encrypting && st.tasks[task].uploader != st.current ==>
      Next(st, UploadReady(task, content)) == Next(st, UploadFails(task))
  {
    hide Inv, Next;
    OwnerFacts(st, task);
    UploadFailing(st, task);
    ReadingGoesOn(st, task);
    forall content
      ensures !st.tasks[task].encrypting ==> Next(st, UploadReady(task, content)) == st
      ensures st.tasks[task].encrypting && st.tasks[task].uploader != st.current ==>
        Next(st, UploadReady(task, content)) == Next(st, UploadFails(task))
    {
      EncryptingGoesOn(st, task, content);
    }
  }

  lemma {:induction false} UploadFailing(st: State, task: nat)
    requires task in st.tasks && st.tasks[task].Upload? && st.current < |st.owners|
    requires st.tasks[task].uploader < |st.owners|
    requires st.owners[st.tasks[task].uploader].active <==> st.tasks[task].uploader == st.current
    ensures Next(st, UploadFails(task)) == Finish(Drop(st, task), st.tasks[task].uploader)
    ensures Ends(st, Next(st, UploadFails(task)), task)
  {
  }

  lemma {:induction false} ReadingGoesOn(st: State, task: nat)
    requires task in st.tasks && st.tasks[task].Upload? && st.current < |st.owners|
    requires st.tasks[task].uploader < |st.owners|
    requires st.owners[st.tasks[task].uploader].active <==> st.tasks[task].uploader == st.current
    ensures Next(st, FileRead(task)) ==
      if st.tasks[task].encrypting then st
      else if st.tasks[task].uploader != st.current then Next(st, UploadFails(task))
      else st.(tasks := st.tasks[task := Upload(st.current, st.tasks[task].channelId, true)])
  {
    hide Finish, Drop;
  }

  lemma {:induction false} EncryptingGoesOn(st: State, task: nat, content: string)
    requires task in st.tasks && st.tasks[task].Upload? && st.current < |st.owners|
    requires st.tasks[task].uploader < |st.owners|
    requires st.owners[st.tasks[task].uploader].active <==> st.tasks[task].uploader == st.current
    ensures !st.tasks[task].encrypting ==> Next(st, UploadReady(task, content)) == st
    ensures st.tasks[task].encrypting && st.tasks[task].uploader != st.current ==>
      Next(st, UploadReady(task, content)) == Next(st, UploadFails(task))
  {
    hide Finish, Drop, SubmitNew;
  }

  /** A completion that no task of its kind is waiting for does nothing. */
  lemma {:induction false} NoSuchTask(st: State, task: nat, ok: bool, content: string)
    requires Inv(st)
    ensures !(task in st.tasks && st.tasks[task].Send?) ==> Next(st, Settle(task, ok)) == st
    ensures !(task in st.tasks && st.tasks[task].Forward?) ==> Next(st, Forwarded(task, ok)) == st
    ensures !(task in st.tasks && st.tasks[task].Upload?) ==>
      Next(st, FileRead(task)) == st && Next(st, UploadReady(task, content)) == st
      && Next(st, UploadFails(task)) == st
  {
    hide Inv, Next;
    OwnerKnown(st);
    NoSuchSend(st, task, ok);
    NoSuchForward(st, task, ok);
    NoSuchUpload(st, task, content);
  }

  lemma {:induction false} NoSuchSend(st: State, task: nat, ok: bool)
    requires st.current < |st.owners|
    ensures !(task in st.tasks && st.tasks[task].Send?) ==> Next(st, Settle(task, ok)) == st
  {
    hide SettleStep;
  }

  lemma {:induction false} NoSuchForward(st: State, task: nat, ok: bool)
    requires st.current < |st.owners|
    ensures !(task in st.tasks && st.tasks[task].Forward?) ==> Next(st, Forwarded(task, ok)) == st
  {
    hide ForwardedStep;
  }

  lemma {:induction false} NoSuchUpload(st: State, task: nat, content: string)
    requires st.current < |st.owners|
    ensures !(task in st.tasks && st.tasks[task].Upload?) ==>
      Next(st, FileRead(task)) == st && Next(st, UploadReady(task, content)) == st && Next(st, UploadFails(task)) == st
  {
    hide UploadReadyStep, Finish, Drop;
  }

  lemma {:induction false} OwnerFacts(st: State, task: nat)
    requires Inv(st) && task in st.tasks
    ensures var o := TaskOwner(st.tasks[task]);
      o < |st.owners| && st.current < |st.owners| && (st.owners[o].active <==> o == st.current)
  {
  }

  /** Every destination of a forward is counted once, as sent or as failed, and the forward ends with the last one or
      when its owner is no longer in use. */
  lemma {:induction false} ForwardGoesOn(st: State, task: nat, ok: bool)
    requires Inv(st) && task in st.tasks && st.tasks[task].Forward? && st.tasks[task].left > 0
    ensures var f := st.tasks[task];
      if f.left == 1 || f.forwarder != st.current then Ends(st, Next(st, Forwarded(task, ok)), task)
      else Next(st, Forwarded(task, ok)) == st.(tasks := st.tasks[task :=
        Forward(f.forwarder, f.left - 1, if ok then f.sent + 1 else f.sent, if ok then f.failed else f.failed + 1)])
  {
    OwnerFacts(st, task);
    hide Inv;
  }

  function Total(t: Task): nat
    requires t.Forward?
  {
    t.left + t.sent + t.failed
  }

  ghost predicate ForwardsKept(st: State, n: State) {
    forall t :: t in n.tasks && n.tasks[t].Forward? ==> t in st.tasks && n.tasks[t] == st.tasks[t]
  }

  lemma {:induction false} SubmitKeepsForwards(st: State, sub: Submission, key: string, offline: bool)
    ensures ForwardsKept(st, Submit(st, sub, key, offline))
  {
  }

  lemma {:induction false} SendDraftKeepsForwards(st: State, key: string, offline: bool, channel: string)
    requires st.current < |st.owners|
    ensures ForwardsKept(st, SendDraftStep(st, key, offline, channel))
  {
    hide Submit, Blocked, Trim, CommandWord, HasPayload, WireReply;
    SubmitKeepsForwards(st.(nextId := st.nextId + 1), Submission(st.nextId, st.current, channel, st.draft,
      WireReply(st.reply), Some(st.draftRevision), Some(st.replyRevision)), key, offline);
  }

  lemma {:induction false} UploadKeepsForwards(st: State, task: nat, content: string)
    requires task in st.tasks && st.tasks[task].Upload? && st.tasks[task].uploader < |st.owners|
    ensures ForwardsKept(st, UploadReadyStep(st, task, content))
  {
    hide Submit;
    var s := SetPending(Drop(st, task), st.tasks[task].uploader, false);
    SubmitKeepsForwards(s.(nextId := s.nextId + 1), Submission(s.nextId, s.current, st.tasks[task].channelId, content,
      None, None, None), st.owners[st.tasks[task].uploader].scopeKey, false);
  }

  lemma {:induction false} SettleKeepsForwards(st: State, task: nat, ok: bool)
    requires task in st.tasks && st.tasks[task].Send? && st.tasks[task].sub.owner < |st.owners|
    ensures ForwardsKept(st, SettleStep(st, task, ok))
  {
  }

  lemma {:induction false} OthersKeepForwards(st: State, e: Event)
    requires st.current < |st.owners| && !e.BeginForward? && !e.Forwarded?
    ensures ForwardsKept(st, Next(st, e))
  {
    hide Submit, SendDraftStep, SettleStep, UploadReadyStep, Blocked, ForwardedStep;
    match e
    case SendDraft(key, offline, channel) => SendDraftKeepsForwards(st, key, offline, channel);
    case SendAux(key, offline, channel, content, replyToId) =>
      SubmitKeepsForwards(st.(nextId := st.nextId + 1), Submission(st.nextId, st.current, channel, content, replyToId,
        None, None), key, offline);
    case Retry(key, offline) => if st.panel.Some? { SubmitKeepsForwards(st, st.panel.value, key, offline); }
    case Settle(task, ok) => if Runs(st, task) && st.tasks[task].Send? { SettleKeepsForwards(st, task, ok); }
    case UploadReady(task, content) =>
      if Runs(st, task) && st.tasks[task].Upload? { UploadKeepsForwards(st, task, content); }
    case _ =>
  }

  lemma {:induction false} ForwardedTotal(st: State, task: nat, ok: bool, t: nat)
    requires Runs(st, task) && st.tasks[task].Forward?
    ensures var n := ForwardedStep(st, task, ok);
      t in n.tasks && n.tasks[t].Forward? ==>
        t in st.tasks && st.tasks[t].Forward? && Total(n.tasks[t]) == Total(st.tasks[t])
  {
  }

  lemma {:induction false} NextTotal(st: State, e: Event, t: nat)
    requires st.current < |st.owners| && t in Next(st, e).tasks && Next(st, e).tasks[t].Forward?
    ensures var n := Next(st, e).tasks[t];
      || (t in st.tasks && st.tasks[t].Forward? && Total(n) == Total(st.tasks[t]))
      || (e.BeginForward? && Total(n) == e.destinations)
  {
    hide Blocked, ForwardedStep, SendDraftStep, SubmitNew, Submit, SettleStep, UploadReadyStep, CommitStep, DiscardStep,
      Finish;
    if e.Forwarded? {
      if Runs(st, e.task) && st.tasks[e.task].Forward? {
        ForwardedTotal(st, e.task, e.ok, t);
      }
    } else if !e.BeginForward? {
      OthersKeepForwards(st, e);
    }
  }

  /** In every run the destinations that a forward has tried, as sent or as failed, and those that are left add up to
      destinations it began with. */
  lemma {:induction false} ForwardsAddUp(key: string, es: seq<Event>, t: nat) returns (i: nat)
    requires t in Run(key, es).tasks && Run(key, es).tasks[t].Forward?
    ensures i < |es| && es[i].BeginForward?
    ensures var f := Run(key, es).tasks[t]; f.left + f.sent + f.failed == es[i].destinations
    decreases |es|
  {
    hide Next, Inv;
    assert es != [] by {
      NothingForwarded(key);
    }
    var n := |es| - 1;
    RunInv(key, es[..n]);
    var st := Run(key, es[..n]);
    NextTotal(st, es[n], t);
    if t in st.tasks && st.tasks[t].Forward? && Total(Run(key, es).tasks[t]) == Total(st.tasks[t]) {
      i := ForwardsAddUp(key, es[..n], t);
    } else {
      i := n;
    }
  }

  lemma {:induction false} NothingForwarded(key: string)
    ensures Run(key, []).tasks == map[]
  {
  }

  // ----- a send settles

  /** A success of a current owner's send books the delivery, clears the draft and the reply it carried if they have not
      been touched since, and lets go of the submission if it was held. A failure holds it. */
  lemma {:induction false} SettleEffect(st: State, task: nat, ok: bool)
    requires Inv(st) && task in st.tasks && st.tasks[task].Send?
    ensures var sub, n := st.tasks[task].sub, Next(st, Settle(task, ok));
      && SlotGiven(st, n, task, sub.owner)
      && n.draftRevision == st.draftRevision && n.replyRevision == st.replyRevision
      && n.draft == (if ok && sub.owner == st.current && sub.draftRevision == Some(st.draftRevision)
                     then "" else st.draft)
      && n.reply == (if ok && sub.owner == st.current && sub.replyRevision == Some(st.replyRevision)
                     then None else st.reply)
      && n.failed == (if sub.owner != st.current then st.failed else if ok then None else Some(sub))
      && n.deliveries == (if ok then st.deliveries + [sub.id] else st.deliveries)
      && n.ledger == st.ledger[sub.id := Account(sub,
           if ok then Delivered else if sub.owner == st.current then Held else Abandoned)]
  {
    hide Inv, SettleStep, Next, SlotGiven;
    OwnerFacts(st, task);
    OnlyItsRetry(st, task);
    SettleIsStep(st, task, ok);
    SettleGives(st, task, ok);
    SettleComposer(st, task, ok);
    SettleBooks(st, task, ok);
  }

  /** The activity is gone and its owner's slot is free; the flag is cleared if that owner is the current one. */
  ghost predicate SlotGiven(st: State, n: State, task: nat, owner: nat) {
    && n.tasks == st.tasks - {task} && n.current == st.current && n.scopeKey == st.scopeKey && n.panel == st.panel
    && n.sending == (owner != st.current && st.sending)
    && |n.owners| == |st.owners|
    && (forall o :: 0 <= o < |st.owners| ==>
        n.owners[o] == if o == owner then st.owners[o].(pending := false) else st.owners[o])
  }

  lemma {:induction false} OnlyItsRetry(st: State, task: nat)
    requires Inv(st) && task in st.tasks && st.tasks[task].Send?
    ensures st.tasks[task].sub.owner == st.current && st.failed.Some? ==> st.failed.value == st.tasks[task].sub
  {
  }

  lemma {:induction false} SettleIsStep(st: State, task: nat, ok: bool)
    requires st.current < |st.owners|
    requires task in st.tasks && st.tasks[task].Send? && st.tasks[task].sub.owner < |st.owners|
    ensures Next(st, Settle(task, ok)) == SettleStep(st, task, ok)
  {
    hide SettleStep;
  }

  lemma {:induction false} SettleGives(st: State, task: nat, ok: bool)
    requires task in st.tasks && st.tasks[task].Send? && st.tasks[task].sub.owner < |st.owners|
    requires st.owners[st.tasks[task].sub.owner].active <==> st.tasks[task].sub.owner == st.current
    ensures SlotGiven(st, SettleStep(st, task, ok), task, st.tasks[task].sub.owner)
  {
  }

  lemma {:induction false} SettleComposer(st: State, task: nat, ok: bool)
    requires task in st.tasks && st.tasks[task].Send? && st.tasks[task].sub.owner < |st.owners|
    requires st.owners[st.tasks[task].sub.owner].active <==> st.tasks[task].sub.owner == st.current
    requires st.tasks[task].sub.owner == st.current && st.failed.Some? ==> st.failed.value == st.tasks[task].sub
    ensures var sub, n := st.tasks[task].sub, SettleStep(st, task, ok);
      && n.draftRevision == st.draftRevision && n.replyRevision == st.replyRevision
      && n.draft == (if ok && sub.owner == st.current && sub.draftRevision == Some(st.draftRevision)
                     then "" else st.draft)
      && n.reply == (if ok && sub.owner == st.current && sub.replyRevision == Some(st.replyRevision)
                     then None else st.reply)
      && n.failed == (if sub.owner != st.current then st.failed else if ok then None else Some(sub))
  {
  }

  lemma {:induction false} SettleBooks(st: State, task: nat, ok: bool)
    requires task in st.tasks && st.tasks[task].Send? && st.tasks[task].sub.owner < |st.owners|
    requires st.owners[st.tasks[task].sub.owner].active <==> st.tasks[task].sub.owner == st.current
    ensures var sub, n := st.tasks[task].sub, SettleStep(st, task, ok);
      && n.deliveries == (if ok then st.deliveries + [sub.id] else st.deliveries)
      && n.ledger == st.ledger[sub.id := Account(sub,
           if ok then Delivered else if sub.owner == st.current then Held else Abandoned)]
  {
  }

  // ----- steps of the user and of the screen

  /** Typing and choosing a reply change just that, under a new revision. */
  lemma {:induction false} EditEffect(st: State, text: string, target: Option<string>)
    requires st.current < |st.owners|
    ensures Next(st, Edit(text)) == st.(draft := text, draftRevision := st.draftRevision + 1)
    ensures Next(st, SetReply(target)) == st.(reply := target, replyRevision := st.replyRevision + 1)
  {
  }

  lemma {:induction false} RenderEffect(st: State, key: string)
    requires Inv(st)
    ensures Next(st, RenderPanel) == st.(panel := st.failed)
    ensures Next(st, RenderScope(key)) ==
      if st.owners[st.current].scopeKey == st.scopeKey then st.(scopeKey := key) else st
  {
  }

  /** A discard with a free slot lets go of the held submission. */
  lemma {:induction false} DiscardEffect(st: State)
    requires Inv(st)
    ensures Next(st, Discard) ==
      if st.owners[st.current].pending || st.failed.None? then st
      else st.(failed := None, ledger := st.ledger[st.failed.value.id := Account(st.failed.value, Discarded)])
  {
  }

  /** A scope change retires the owner, frees the flag for a fresh one and gives up a submission that was only held. */
  lemma {:induction false} CommitEffect(st: State)
    requires Inv(st) && st.owners[st.current].scopeKey != st.scopeKey
    ensures var n := Next(st, CommitScope);
      && |n.owners| == |st.owners| + 1 && n.current == |st.owners|
      && n.owners[|st.owners|] == Owner(true, false, st.scopeKey)
      && (forall o :: 0 <= o < |st.owners| ==>
          n.owners[o] == if o == st.current then st.owners[o].(active := false) else st.owners[o])
      && !n.sending && n.failed == None
      && n.ledger == (if st.failed.Some? && !Running(st.tasks, st.failed.value.id)
                      then st.ledger[st.failed.value.id := Account(st.failed.value, Abandoned)] else st.ledger)
      && n.tasks == st.tasks && n.scopeKey == st.scopeKey && n.panel == st.panel && n.deliveries == st.deliveries
      && n.draft == st.draft && n.draftRevision == st.draftRevision
      && n.reply == st.reply && n.replyRevision == st.replyRevision
  {
    CurrentExists(st);
    if st.failed.Some? {
      HeldIsBooked(st);
    }
    hide Inv, Running;
  }

  // ----- when nothing is sent

  /** A blank draft or a slot that is not free: nothing happens. */
  lemma {:induction false} SendRefused(st: State, key: string, offline: bool, channel: string)
    requires Inv(st) && (TrimsTo(st.draft, "") || !Free(st, key))
    ensures Next(st, SendDraft(key, offline, channel)) == st
  {
    TrimIff(st.draft, "");
    OwnerKnown(st);
    hide Inv, TrimsTo, Trim, SubmitNew, RunCommand;
  }

  /** Retry does something exactly when the panel shows a submission of the current owner, who serves this scope and
      whose slot is free, online, while nothing else is held. */
  lemma {:induction false} RetryIff(st: State, key: string, offline: bool)
    requires Inv(st)
    ensures Next(st, Retry(key, offline)) != st <==>
      && !offline && st.panel.Some? && st.panel.value.owner == st.current
      && st.owners[st.current] == Owner(true, false, key)
      && (st.failed == None || st.failed.value.id == st.panel.value.id)
  {
    OwnerKnown(st);
    NextTaskIsNew(st);
    hide Inv;
  }

  /** The other ways to take the slot need it free as well. */
  lemma {:induction false} OthersRefused(st: State, key: string, offline: bool, channel: string, content: string,
      replyToId: Option<string>, destinations: nat)
    requires Inv(st)
    ensures offline || channel == "" || !Free(st, key) ==>
      Next(st, SendAux(key, offline, channel, content, replyToId)) == st
    ensures channel == "" || !Free(st, key) ==> Next(st, BeginUpload(key, channel)) == st
    ensures destinations == 0 || !Free(st, key) ==> Next(st, BeginForward(key, destinations)) == st
  {
    OwnerKnown(st);
    hide Inv, SubmitNew;
  }

  lemma {:induction false} OwnerKnown(st: State)
    requires Inv(st)
    ensures st.current < |st.owners| && st.owners[st.current].active
  {
  }

  /** The composer is emptied: no draft and no reply, under new revisions. */
  function Emptied(st: State): State {
    st.(draft := "", draftRevision := st.draftRevision + 1, reply := None, replyRevision := st.replyRevision + 1)
  }

  /** Offline, or without a channel, the message is only kept on the device and the composer is emptied. */
  lemma {:induction false} OfflineSend(st: State, key: string, offline: bool, channel: string, trimmed: string)
    requires Inv(st) && Free(st, key) && (offline || channel == "")
    requires TrimsTo(st.draft, trimmed) && trimmed != "" && trimmed[0] != '/'
    ensures Next(st, SendDraft(key, offline, channel)) == Emptied(st)
  {
    TrimIff(st.draft, trimmed);
    OwnerKnown(st);
    hide Inv, TrimsTo, Trim;
  }

  /** A slash command: the word after the slash, and what follows it, which is nothing or starts with white space. */
  ghost predicate Command(draft: string, word: string, rest: string) {
    && TrimsTo(draft, "/" + word + rest)
    && (forall i :: 0 <= i < |word| ==> word[i] as nat !in WHITE) && (rest != "" ==> rest[0] as nat in WHITE)
  }

  lemma {:induction false} WordSplits(word: string, rest: string)
    requires (forall i :: 0 <= i < |word| ==> word[i] as nat !in WHITE) && (rest != "" ==> rest[0] as nat in WHITE)
    ensures CommandWord(word + rest) == word
  {
    hide IsSpace, WHITE;
    if word == "" {
      assert word + rest == rest;
      if rest != "" {
        WhiteIff(rest[0]);
      }
    } else {
      WhiteIff(word[0]);
      assert (word + rest)[1..] == word[1..] + rest;
      WordSplits(word[1..], rest);
    }
  }

  /** Commands never send: three of them empty the composer, a nickname empties the draft, and anything else leaves the
      composer as it is. */
  lemma {:induction false} CommandEffect(st: State, key: string, offline: bool, channel: string, word: string,
      rest: string)
    requires Inv(st) && Free(st, key) && Command(st.draft, word, rest)
    ensures Next(st, SendDraft(key, offline, channel)) ==
      if word == "clear" || word == "me" || word == "shrug" then Emptied(st)
      else if word == "nick" && !TrimsTo(rest, "") then st.(draft := "", draftRevision := st.draftRevision + 1)
      else st
  {
    hide Inv, TrimsTo, Trim, CommandWord, SubmitNew;
    var trimmed := "/" + word + rest;
    TrimIff(st.draft, trimmed);
    TrimIff(rest, "");
    WordSplits(word, rest);
    assert trimmed[1..] == word + rest && (word + rest)[|word|..] == rest;
    OwnerExists(st, key);
  }

  lemma {:induction false} OwnerExists(st: State, key: string)
    requires Free(st, key)
    ensures !Blocked(st, key)
  {
  }

  // ----- on the screen

  /** A disabled button does nothing. What the user does otherwise, and a render of the panel, shows the state that
      results; completions and scope changes happen behind what is shown. */
  lemma {:induction false} ScreenEffect(s: Screen, e: Event)
    requires ScreenInv(s)
    ensures var n := Next(s.st, e);
      ScreenStep(s, e) ==
        if (e.Retry? || e.Discard?) && s.shown then s
        else if e.Settle? || e.FileRead? || e.UploadReady? || e.UploadFails? || e.Forwarded? || e.RenderScope?
             || e.CommitScope? then Screen(n, s.shown)
        else Screen(n.(panel := n.failed), n.sending)
  {
    hide Inv, SendDraftStep, SubmitNew, Submit, CommitStep, DiscardStep, SettleStep, UploadReadyStep, ForwardedStep,
      Acquire, Finish, Blocked, EditDraft, ChangeReply;
    CurrentExists(s.st);
    KeepsOwner(s.st, e, s.st.current);
  }

  /** Pressing Retry while it is enabled sends the submission that the panel shows, which stays held and shown, with the
      buttons disabled. */
  lemma {:induction false} RetryPressed(s: Screen, key: string) returns (t: nat)
    requires ScreenInv(s) && !s.shown && s.st.panel.Some? && s.st.panel.value.owner == s.st.current
    requires s.st.current < |s.st.owners| && s.st.owners[s.st.current].scopeKey == key
    ensures var n, sub := ScreenStep(s, Retry(key, false)), s.st.panel.value;
      && Takes(s.st, n.st, t, Send(sub)) && n.shown && n.st.failed == Some(sub)
      && n.st.ledger == s.st.ledger[sub.id := Account(sub, InFlight)]
  {
    hide Inv, Next, Takes;
    SlotIsFree(s, key);
    t := RetryStarts(s.st, key);
    ScreenEffect(s, Retry(key, false));
    StillTaken(s.st, Next(s.st, Retry(key, false)), t, Send(s.st.panel.value));
  }

  lemma {:induction false} SlotIsFree(s: Screen, key: string)
    requires ScreenInv(s) && !s.shown && s.st.current < |s.st.owners| && s.st.owners[s.st.current].scopeKey == key
    ensures s.st.owners[s.st.current] == Owner(true, false, key)
  {
  }

  lemma {:induction false} StillTaken(st: State, n: State, t: nat, task: Task)
    requires Takes(st, n, t, task) && st.panel == st.failed
    ensures n.sending && n.failed == st.failed && Takes(st, n.(panel := n.failed), t, task)
  {
  }

  /** Pressing Discard while it is enabled gives up the held submission and empties the panel. */
  lemma {:induction false} DiscardPressed(s: Screen)
    requires ScreenInv(s) && !s.shown && s.st.failed.Some?
    ensures ScreenStep(s, Discard) == Screen(s.st.(failed := None, panel := None,
      ledger := s.st.ledger[s.st.failed.value.id := Account(s.st.failed.value, Discarded)]), false)
  {
    hide Inv, Next;
    CurrentExists(s.st);
    SlotIsFree(s, s.st.owners[s.st.current].scopeKey);
    NotSending(s);
    DiscardEffect(s.st);
    ScreenEffect(s, Discard);
  }

  lemma {:induction false} NotSending(s: Screen)
    requires ScreenInv(s) && !s.shown
    ensures !s.st.sending
  {
  }
}
