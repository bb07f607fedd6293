/** The composer's mutable refs and handlers, proved against the send-slot transition system. */
module Composer {
  import opened JsText
  import opened Outcomes
  import opened SendSlot
  import opened SendSlotScreen

  /** Shared between the component and the promises it started. */
  class SubmissionOwner {
    var active: bool
    var pending: bool
    const scopeKey: string

    constructor (scopeKey: string)
      ensures active && !pending && this.scopeKey == scopeKey
    {
      this.active, this.pending, this.scopeKey := true, false, scopeKey;
    }
  }

  /** What the owner objects currently say, entry by entry. */
  ghost predicate Reflects(os: seq<SubmissionOwner>, vs: seq<Owner>)
    reads os
  {
    |os| == |vs| && forall i :: 0 <= i < |os| ==> vs[i] == Owner(os[i].active, os[i].pending, os[i].scopeKey)
  }

  /** No two entries of the registry are the same object. */
  ghost predicate Unaliased(os: seq<SubmissionOwner>) {
    forall i, j :: 0 <= i < j < |os| ==> os[i] != os[j]
  }

  lemma {:induction false} ReflectedOwner(os: seq<SubmissionOwner>, vs: seq<Owner>, o: nat)
    requires Reflects(os, vs) && o < |os|
    ensures |os| == |vs| && vs[o] == Owner(os[o].active, os[o].pending, os[o].scopeKey)
  {
  }

  /** A new owner object joins the registry. */
  lemma {:induction false} Registered(os: seq<SubmissionOwner>, vs: seq<Owner>, o: SubmissionOwner)
    requires Reflects(os, vs) && Unaliased(os) && o !in os
    ensures Reflects(os + [o], vs + [Owner(o.active, o.pending, o.scopeKey)]) && Unaliased(os + [o])
  {
  }

  class Composer {
    var owners: seq<SubmissionOwner>
    var sendOwner: nat
    var scopeKey: string
    var failedSubmission: Option<Submission>
    var shownFailure: Option<Submission>
    var shownSending: bool
    var inputValue: string
    var draftRevision: nat
    var replyingTo: Option<string>
    var replyRevision: nat
    var isSending: bool
    var outstanding: map<nat, Task>
    var nextId: nat
    ghost var ownerValues: seq<Owner>
    ghost var ledger: map<nat, Account>
    ghost var deliveries: seq<nat>

    ghost predicate Valid()
      reads this, owners
    {
      && sendOwner < |owners|
      && Unaliased(owners)
      && Reflects(owners, ownerValues)
    }

    ghost function Value(): State
      reads this
    {
      State(ownerValues, sendOwner, scopeKey, failedSubmission, shownFailure, inputValue, draftRevision,
            replyingTo, replyRevision, isSending, outstanding, nextId, ledger, deliveries)
    }

    /** The protocol state together with the sending flag that the recovery buttons were last rendered with. */
    ghost function Displayed(): Screen
      reads this
    {
      Screen(Value(), shownSending)
    }

    constructor (key: string)
      ensures Valid() && Value() == Mounted(key) && Displayed() == Screen(Mounted(key), false)
      ensures fresh(owners)
    {
      var owner := new SubmissionOwner(key);
      owners, ownerValues := [owner], [Owner(true, false, key)];
      sendOwner, scopeKey := 0, key;
      failedSubmission, shownFailure, shownSending := None, None, false;
      inputValue, draftRevision, replyingTo, replyRevision := "", 0, None, 0;
      isSending, outstanding, nextId := false, map[], 0;
      ledger, deliveries := map[], [];
    }

    method SetInputValue(text: string)
      requires Valid()
      modifies this
      ensures Valid() && owners == old(owners) && Value() == EditDraft(old(Value()), text)
    {
      draftRevision := draftRevision + 1;
      inputValue := text;
    }

    method SetReplyingTo(target: Option<string>)
      requires Valid()
      modifies this
      ensures Valid() && owners == old(owners) && Value() == ChangeReply(old(Value()), target)
    {
      replyRevision := replyRevision + 1;
      replyingTo := target;
    }

    method SetOwnerPending(o: nat, pending: bool)
      requires Valid() && o < |owners|
      modifies this`ownerValues, owners[o]
      ensures Valid() && Value() == SetPending(old(Value()), o, pending)
    {
      owners[o].pending := pending;
      ownerValues := ownerValues[o := ownerValues[o].(pending := pending)];
    }

    method IsMessageSendBlocked(key: string) returns (blocked: bool)
      requires Valid()
      ensures blocked == Blocked(Value(), key)
    {
      var owner := owners[sendOwner];
      blocked := !owner.active || owner.scopeKey != key || owner.pending || failedSubmission.Some?;
    }

    /** Occupies the slot of an owner with a new task. */
    method OccupySlot(o: nat, task: Task)
      requires Valid() && o < |owners|
      modifies this`ownerValues, this`isSending, this`outstanding, this`nextId, owners[o]
      ensures Valid() && Value() == Acquire(old(Value()), o, task)
    {
      SetOwnerPending(o, true);
      hide Reflects, Unaliased;
      isSending := true;
      outstanding, nextId := outstanding[nextId := task], nextId + 1;
    }

    /** Reserves the slot for a task of the current owner, or refuses. */
    method BeginMessageAction(key: string, task: Task) returns (begun: bool)
      requires Valid() && TaskOwner(task) == sendOwner
      modifies this, owners
      ensures Valid() && owners == old(owners)
      ensures begun == !Blocked(old(Value()), key)
      ensures Value() == if begun then Acquire(old(Value()), sendOwner, task) else old(Value())
    {
      var blocked := IsMessageSendBlocked(key);
      if blocked {
        return false;
      }
      OccupySlot(sendOwner, task);
      return true;
    }

    method FinishMessageAction(o: nat)
      requires Valid() && o < |owners|
      modifies this`isSending, this`ownerValues, owners[o]
      ensures Valid() && Value() == Finish(old(Value()), o)
    {
      SetOwnerPending(o, false);
      if owners[o].active && o == sendOwner {
        isSending := false;
      }
    }

    /** The part of a submission before its first await. */
    method StartSubmission(sub: Submission, key: string, offline: bool)
      requires Valid()
      modifies this, owners
      ensures Valid() && owners == old(owners)
      ensures Value() == Submit(old(Value()), sub, key, offline)
    {
      hide Reflects, Unaliased;
      if sub.owner < |owners| {
        ReflectedOwner(owners, ownerValues, sub.owner);
      }
      if sub.owner >= |owners| || !owners[sub.owner].active
        || sub.owner != sendOwner || owners[sub.owner].scopeKey != key
        || owners[sub.owner].pending || offline
        || (failedSubmission.Some? && failedSubmission.value.id != sub.id)
      {
        return;
      }
      assert MaySubmit(Value(), sub, key, offline);
      OccupySlot(sub.owner, Send(sub));
      ledger := ledger[sub.id := Account(sub, InFlight)];
    }

    method CaptureAndSubmit(key: string, offline: bool, channel: string, content: string, replyToId: Option<string>,
                            capturedDraft: Option<nat>, capturedReply: Option<nat>)
      requires Valid()
      modifies this, owners
      ensures Valid() && owners == old(owners)
      ensures Value() == SubmitNew(old(Value()), key, offline, channel, content, replyToId, capturedDraft,
        capturedReply)
    {
      var sub := Submission(nextId, sendOwner, channel, content, replyToId, capturedDraft, capturedReply);
      nextId := nextId + 1;
      StartSubmission(sub, key, offline);
    }

    method SubmissionSucceeded(submission: Submission)
      requires Valid() && submission.owner < |owners|
      modifies this
      ensures Valid() && owners == old(owners) && Value() == Succeed(old(Value()), submission)
    {
      assert submission.owner < |ownerValues|
        && owners[submission.owner].active == ownerValues[submission.owner].active;
      hide Reflects, Unaliased;
      ledger := ledger[submission.id := Account(submission, Delivered)];
      deliveries := deliveries + [submission.id];
      if owners[submission.owner].active {
        if submission.draftRevision == Some(draftRevision) {
          inputValue := "";
        }
        if submission.replyRevision == Some(replyRevision) {
          replyingTo := None;
        }
        if failedSubmission.Some? && failedSubmission.value.id == submission.id {
          failedSubmission := None;
        }
      }
    }

    method SubmissionFailed(submission: Submission)
      requires Valid() && submission.owner < |owners|
      modifies this
      ensures Valid() && owners == old(owners) && Value() == Fail(old(Value()), submission)
    {
      if owners[submission.owner].active {
        ledger := ledger[submission.id := Account(submission, Held)];
        failedSubmission := Some(submission);
      } else {
        ledger := ledger[submission.id := Account(submission, Abandoned)];
      }
    }

    /** The part of a submission after its await, up to and including the `finally`. */
    method SubmissionSettled(task: nat, ok: bool)
      requires Valid() && Runs(Value(), task) && outstanding[task].Send?
      modifies this, owners
      ensures Valid() && owners == old(owners) && Value() == Next(old(Value()), Settle(task, ok))
    {
      var submission := outstanding[task].sub;
      outstanding := outstanding - {task};
      if ok {
        SubmissionSucceeded(submission);
      } else {
        SubmissionFailed(submission);
      }
      FinishMessageAction(submission.owner);
    }

    method DiscardFailedSubmission()
      requires Valid()
      modifies this
      ensures Valid() && owners == old(owners) && Value() == Next(old(Value()), Discard)
    {
      if owners[sendOwner].pending {
        return;
      }
      if failedSubmission.Some? {
        ledger := ledger[failedSubmission.value.id := Account(failedSubmission.value, Discarded)];
      }
      failedSubmission := None;
    }

    /** The recovery panel and the disabled state of its buttons are rendered together. */
    method RenderRecovery()
      requires Valid()
      modifies this`shownFailure, this`shownSending
      ensures Valid() && Displayed() == Rendered(old(Value()))
    {
      shownFailure, shownSending := failedSubmission, isSending;
    }

    /** Another channel, identity or kind of conversation is rendered; its effect has not run yet. */
    method RenderOtherScope(key: string)
      requires Valid()
      modifies this
      ensures Valid() && owners == old(owners) && Value() == Next(old(Value()), RenderScope(key))
    {
      if owners[sendOwner].scopeKey == scopeKey {
        scopeKey := key;
      }
    }

    method RetryFailed(key: string, offline: bool)
      requires Valid()
      modifies this, owners
      ensures Valid() && owners == old(owners) && Value() == Next(old(Value()), Retry(key, offline))
    {
      if shownFailure.Some? {
        StartSubmission(shownFailure.value, key, offline);
      }
    }

    /** A click on Retry, and the render that follows it. */
    method PressRetry(key: string, offline: bool)
      requires Valid()
      modifies this, owners
      ensures Valid() && owners == old(owners) && Displayed() == ScreenStep(old(Displayed()), Retry(key, offline))
    {
      if shownSending {
        return;
      }
      RetryFailed(key, offline);
      RenderRecovery();
    }

    /** A click on Discard, and the render that follows it. */
    method PressDiscard()
      requires Valid()
      modifies this
      ensures Valid() && owners == old(owners) && Displayed() == ScreenStep(old(Displayed()), Discard)
    {
      if shownSending {
        return;
      }
      DiscardFailedSubmission();
      RenderRecovery();
    }

    method HandleSendMessage(key: string, offline: bool, channel: string)
      requires Valid()
      modifies this, owners
      ensures Valid() && owners == old(owners) && Value() == Next(old(Value()), SendDraft(key, offline, channel))
    {
      var trimmed := Trim(inputValue);
      var blocked := IsMessageSendBlocked(key);
      if trimmed == "" || blocked {
        return;
      }
      if trimmed[0] == '/' {
        var command := CommandWord(trimmed[1..]);
        if command == "nick" {
          if HasPayload(trimmed[1..]) {
            SetInputValue("");
          }
        } else if command == "clear" || command == "me" || command == "shrug" {
          SetInputValue("");
          SetReplyingTo(None);
        }
        return;
      }
      if !offline && channel != "" {
        CaptureAndSubmit(key, offline, channel, inputValue, WireReply(replyingTo), Some(draftRevision),
          Some(replyRevision));
      } else {
        SetInputValue("");
        SetReplyingTo(None);
      }
    }

    /** Stickers, polls and thread replies: no revision is captured. */
    method SendAuxiliary(key: string, offline: bool, channel: string, content: string, replyToId: Option<string>)
      requires Valid()
      modifies this, owners
      ensures Valid() && owners == old(owners)
      ensures Value() == Next(old(Value()), SendAux(key, offline, channel, content, replyToId))
    {
      var blocked := IsMessageSendBlocked(key);
      if !blocked && !offline && channel != "" {
        CaptureAndSubmit(key, offline, channel, content, replyToId, None, None);
      }
    }

    method HandleFileUpload(key: string, channel: string)
      requires Valid()
      modifies this, owners
      ensures Valid() && owners == old(owners) && Value() == Next(old(Value()), BeginUpload(key, channel))
    {
      if channel != "" {
        var _ := BeginMessageAction(key, Upload(sendOwner, channel, false));
      }
    }

    method OnFileRead(task: nat)
      requires Valid() && Runs(Value(), task) && outstanding[task].Upload? && !outstanding[task].encrypting
      modifies this, owners
      ensures Valid() && owners == old(owners) && Value() == Next(old(Value()), FileRead(task))
    {
      var o := outstanding[task].uploader;
      if !owners[o].active || o != sendOwner {
        outstanding := outstanding - {task};
        FinishMessageAction(o);
      } else {
        outstanding := outstanding[task := outstanding[task].(encrypting := true)];
      }
    }

    /** Hands the slot to the message in one synchronous step; the two `finally` blocks count as one. */
    method OnUploadReady(task: nat, content: string)
      requires Valid() && Runs(Value(), task) && outstanding[task].Upload? && outstanding[task].encrypting
      modifies this, owners
      ensures Valid() && owners == old(owners) && Value() == Next(old(Value()), UploadReady(task, content))
    {
      var Upload(o, channel, _) := outstanding[task];
      outstanding := outstanding - {task};
      if !owners[o].active || o != sendOwner {
        FinishMessageAction(o);
        return;
      }
      SetOwnerPending(o, false);
      CaptureAndSubmit(owners[o].scopeKey, false, channel, content, None, None, None);
      if !owners[o].pending {
        FinishMessageAction(o);
      }
    }

    method OnUploadFailed(task: nat)
      requires Valid() && Runs(Value(), task) && outstanding[task].Upload?
      modifies this, owners
      ensures Valid() && owners == old(owners) && Value() == Next(old(Value()), UploadFails(task))
    {
      var o := outstanding[task].uploader;
      outstanding := outstanding - {task};
      FinishMessageAction(o);
    }

    method HandleForwardMessage(key: string, destinations: nat)
      requires Valid()
      modifies this, owners
      ensures Valid() && owners == old(owners) && Value() == Next(old(Value()), BeginForward(key, destinations))
    {
      if destinations != 0 {
        var _ := BeginMessageAction(key, Forward(sendOwner, destinations, 0, 0));
      }
    }

    method OnForwarded(task: nat, ok: bool)
      requires Valid() && Runs(Value(), task) && outstanding[task].Forward?
      modifies this, owners
      ensures Valid() && owners == old(owners) && Value() == Next(old(Value()), Forwarded(task, ok))
    {
      var o := outstanding[task].forwarder;
      var next := ForwardNext(outstanding[task], ok);
      if next.left == 0 || !owners[o].active || o != sendOwner {
        outstanding := outstanding - {task};
        FinishMessageAction(o);
      } else {
        outstanding := outstanding[task := next];
      }
    }

    /** The cleanup of a scope: its owner dies, its held submission is given up. */
    method RetireOwner()
      requires Valid()
      modifies this, owners[sendOwner]
      ensures Valid() && owners == old(owners)
      ensures Value() == Retire(old(Value()))
    {
      if failedSubmission.Some? && failedSubmission.value.id in ledger
        && ledger[failedSubmission.value.id].outcome == Held {
        ledger := ledger[failedSubmission.value.id := Account(failedSubmission.value, Abandoned)];
      }
      owners[sendOwner].active := false;
      ownerValues := ownerValues[sendOwner := ownerValues[sendOwner].(active := false)];
      failedSubmission := None;
    }

    /** The scope effect: cleanup of the old owner, then a fresh owner for the new scope. */
    method CommitScopeEffect()
      requires Valid()
      modifies this, owners
      ensures Valid() && forall o :: o in owners && o !in old(owners) ==> fresh(o)
      ensures Value() == Next(old(Value()), CommitScope)
    {
      if owners[sendOwner].scopeKey == scopeKey {
        return;
      }
      RetireOwner();
      var owner := new SubmissionOwner(scopeKey);
      Registered(owners, ownerValues, owner);
      hide Reflects, Unaliased;
      ownerValues := ownerValues + [Owner(true, false, scopeKey)];
      owners, sendOwner := owners + [owner], |owners|;
      isSending := false;
    }
  }
}
