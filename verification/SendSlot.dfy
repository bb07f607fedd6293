/** The send-slot protocol of ChatArea as a transition system: user steps, renders and promise completions in any
    order compete for one slot guarded by the current submission owner. */
module SendSlot {
  import opened JsText
  import opened Outcomes

  datatype Owner = Owner(active: bool, pending: bool, scopeKey: string)

  /** A captured request. `id` stands for the identity of the object the component compares by reference;
      `owner` is the owner that captured it. */
  datatype Submission = Submission(
    id: nat, owner: nat, channelId: string, content: string, replyToId: Option<string>,
    draftRevision: Option<nat>, replyRevision: Option<nat>)

  /** An asynchronous activity that holds a slot. */
  datatype Task =
    | Send(sub: Submission)
    | Upload(uploader: nat, channelId: string, encrypting: bool)
    | Forward(forwarder: nat, left: nat, sent: nat, failed: nat)

  function TaskOwner(t: Task): nat {
    match t
    case Send(s) => s.owner
    case Upload(o, _, _) => o
    case Forward(o, _, _, _) => o
  }

  /** What became of an accepted submission; kept for the account only. */
  datatype Outcome = InFlight | Delivered | Held | Discarded | Abandoned
  datatype Account = Account(sub: Submission, outcome: Outcome)

  datatype State = State(
    owners: seq<Owner>, current: nat, scopeKey: string,
    failed: Option<Submission>, panel: Option<Submission>,
    draft: string, draftRevision: nat, reply: Option<string>, replyRevision: nat,
    sending: bool, tasks: map<nat, Task>, nextId: nat,
    ledger: map<nat, Account>, deliveries: seq<nat>)

  /** A freshly mounted composer. */
  function Mounted(scopeKey: string): State {
    State([Owner(true, false, scopeKey)], 0, scopeKey, None, None, "", 0, None, 0, false, map[], 0, map[], [])
  }

  datatype Event =
    | Edit(text: string)
    | SetReply(target: Option<string>)
    | SendDraft(key: string, offline: bool, channel: string)
    | SendAux(key: string, offline: bool, channel: string, content: string, replyToId: Option<string>)
    | Retry(key: string, offline: bool)
    | Discard
    | RenderPanel
    | RenderScope(scopeKey: string)
    | CommitScope
    | Settle(task: nat, ok: bool)
    | BeginUpload(key: string, channel: string)
    | FileRead(task: nat)
    | UploadReady(task: nat, content: string)
    | UploadFails(task: nat)
    | BeginForward(key: string, destinations: nat)
    | Forwarded(task: nat, ok: bool)

  const LOCAL_PREFIX := "local-msg-"

  /** The reply reference that goes on the wire: locally composed targets are never named remotely. */
  function WireReply(reply: Option<string>): Option<string> {
    if reply.Some? && !(LOCAL_PREFIX <= reply.value) then reply else None
  }

  // ----- the guards and the two ends of a slot

  predicate Blocked(st: State, key: string)
    requires st.current < |st.owners|
  {
    var owner := st.owners[st.current];
    !owner.active || owner.scopeKey != key || owner.pending || st.failed.Some?
  }

  function SetPending(st: State, o: nat, pending: bool): State
    requires o < |st.owners|
  {
    st.(owners := st.owners[o := st.owners[o].(pending := pending)])
  }

  function Acquire(st: State, o: nat, t: Task): State
    requires o < |st.owners|
  {
    SetPending(st, o, true).(sending := true, tasks := st.tasks[st.nextId := t], nextId := st.nextId + 1)
  }

  function Finish(st: State, o: nat): State
    requires o < |st.owners|
  {
    var s := SetPending(st, o, false);
    if st.owners[o].active && o == st.current then s.(sending := false) else s
  }

  function Drop(st: State, task: nat): State {
    st.(tasks := st.tasks - {task})
  }

  predicate MaySubmit(st: State, sub: Submission, key: string, offline: bool) {
    && sub.owner < |st.owners| && st.owners[sub.owner].active && sub.owner == st.current
    && st.owners[sub.owner].scopeKey == key && !st.owners[sub.owner].pending && !offline
    && (st.failed.Some? ==> st.failed.value.id == sub.id)
  }

  function Submit(st: State, sub: Submission, key: string, offline: bool): State {
    if MaySubmit(st, sub, key, offline)
    then Acquire(st, sub.owner, Send(sub)).(ledger := st.ledger[sub.id := Account(sub, InFlight)])
    else st
  }

  /** Creates a new request object and submits it. */
  function SubmitNew(st: State, key: string, offline: bool, channel: string, content: string, replyToId: Option<string>,
                     draftRevision: Option<nat>, replyRevision: Option<nat>): State {
    Submit(st.(nextId := st.nextId + 1),
           Submission(st.nextId, st.current, channel, content, replyToId, draftRevision, replyRevision), key, offline)
  }

  function EditDraft(st: State, text: string): State {
    st.(draft := text, draftRevision := st.draftRevision + 1)
  }

  function ChangeReply(st: State, target: Option<string>): State {
    st.(reply := target, replyRevision := st.replyRevision + 1)
  }

  /** The first word after the slash and whether anything but white space follows it. */
  function CommandWord(s: string): string {
    if s == "" || IsSpace(s[0]) then "" else [s[0]] + CommandWord(s[1..])
  }

  predicate HasPayload(s: string) {
    |CommandWord(s)| <= |s| && Trim(s[|CommandWord(s)|..]) != ""
  }

  function RunCommand(st: State, trimmed: string): State
    requires trimmed != ""
  {
    var word := CommandWord(trimmed[1..]);
    if word == "nick" then (if HasPayload(trimmed[1..]) then EditDraft(st, "") else st)
    else if word == "clear" || word == "me" || word == "shrug" then ChangeReply(EditDraft(st, ""), None)
    else st
  }

  function SendDraftStep(st: State, key: string, offline: bool, channel: string): State
    requires st.current < |st.owners|
  {
    var trimmed := Trim(st.draft);
    if trimmed == "" || Blocked(st, key) then st
    else if trimmed[0] == '/' then RunCommand(st, trimmed)
    else if !offline && channel != "" then
      SubmitNew(st, key, offline, channel, st.draft, WireReply(st.reply), Some(st.draftRevision),
        Some(st.replyRevision))
    else ChangeReply(EditDraft(st, ""), None)
  }

  function Book(st: State, sub: Submission, outcome: Outcome): State {
    st.(ledger := st.ledger[sub.id := Account(sub, outcome)])
  }

  function Succeed(st: State, sub: Submission): State
    requires sub.owner < |st.owners|
  {
    var s := Book(st, sub, Delivered).(deliveries := st.deliveries + [sub.id]);
    if !st.owners[sub.owner].active then s
    else s.(
      draft := if sub.draftRevision == Some(st.draftRevision) then "" else st.draft,
      reply := if sub.replyRevision == Some(st.replyRevision) then None else st.reply,
      failed := if st.failed.Some? && st.failed.value.id == sub.id then None else st.failed)
  }

  function Fail(st: State, sub: Submission): State
    requires sub.owner < |st.owners|
  {
    if st.owners[sub.owner].active then Book(st, sub, Held).(failed := Some(sub)) else Book(st, sub, Abandoned)
  }

  function SettleStep(st: State, task: nat, ok: bool): State
    requires task in st.tasks && st.tasks[task].Send? && st.tasks[task].sub.owner < |st.owners|
  {
    var sub := st.tasks[task].sub;
    var s := Drop(st, task);
    Finish(if ok then Succeed(s, sub) else Fail(s, sub), sub.owner)
  }

  /** The slot is handed from the upload to the message it prepared, without an intervening await. */
  function UploadReadyStep(st: State, task: nat, content: string): State
    requires task in st.tasks && st.tasks[task].Upload? && st.tasks[task].uploader < |st.owners|
  {
    var Upload(o, channel, _) := st.tasks[task];
    var s := Drop(st, task);
    if !st.owners[o].active || o != st.current then Finish(s, o)
    else
      var handed := SubmitNew(SetPending(s, o, false), st.owners[o].scopeKey, false, channel, content, None, None,
        None);
      if handed.owners[o].pending then handed else Finish(handed, o)
  }

  /** A forward after one more destination. */
  function ForwardNext(t: Task, ok: bool): (n: Task)
    requires t.Forward?
    ensures n.Forward?
  {
    Forward(t.forwarder, if t.left > 0 then t.left - 1 else 0, if ok then t.sent + 1 else t.sent,
      if ok then t.failed else t.failed + 1)
  }

  function ForwardedStep(st: State, task: nat, ok: bool): State
    requires task in st.tasks && st.tasks[task].Forward? && st.tasks[task].forwarder < |st.owners|
  {
    var o := st.tasks[task].forwarder;
    var next := ForwardNext(st.tasks[task], ok);
    if next.left == 0 || !st.owners[o].active || o != st.current then Finish(Drop(st, task), o)
    else st.(tasks := st.tasks[task := next])
  }

  /** The cleanup of a scope: its owner dies, its held submission is given up. */
  function Retire(st: State): State
    requires st.current < |st.owners|
  {
    var s := if st.failed.Some? && st.failed.value.id in st.ledger && st.ledger[st.failed.value.id].outcome == Held
             then Book(st, st.failed.value, Abandoned) else st;
    s.(owners := st.owners[st.current := st.owners[st.current].(active := false)], failed := None)
  }

  /** Scope effects: cleanup, then a fresh owner takes over. */
  function CommitStep(st: State): State
    requires st.current < |st.owners|
  {
    if st.owners[st.current].scopeKey == st.scopeKey then st
    else
      var s := Retire(st);
      s.(owners := s.owners + [Owner(true, false, st.scopeKey)], current := |st.owners|, sending := false)
  }

  function DiscardStep(st: State): State
    requires st.current < |st.owners|
  {
    if st.owners[st.current].pending || st.failed.None? then st
    else Book(st, st.failed.value, Discarded).(failed := None)
  }

  /** A task of the expected kind whose owner exists. */
  predicate Runs(st: State, task: nat) {
    task in st.tasks && TaskOwner(st.tasks[task]) < |st.owners|
  }

  function Next(st: State, e: Event): State
    requires st.current < |st.owners|
  {
    match e
    case Edit(text) => EditDraft(st, text)
    case SetReply(target) => ChangeReply(st, target)
    case SendDraft(key, offline, channel) => SendDraftStep(st, key, offline, channel)
    case SendAux(key, offline, channel, content, replyToId) =>
      if Blocked(st, key) || offline || channel == "" then st
      else SubmitNew(st, key, offline, channel, content, replyToId, None, None)
    case Retry(key, offline) => if st.panel.Some? then Submit(st, st.panel.value, key, offline) else st
    case Discard => DiscardStep(st)
    case RenderPanel => st.(panel := st.failed)
    case RenderScope(k) => if st.owners[st.current].scopeKey == st.scopeKey then st.(scopeKey := k) else st
    case CommitScope => CommitStep(st)
    case Settle(task, ok) => if Runs(st, task) && st.tasks[task].Send? then SettleStep(st, task, ok) else st
    case BeginUpload(key, channel) =>
      if channel == "" || Blocked(st, key) then st else Acquire(st, st.current, Upload(st.current, channel, false))
    case FileRead(task) =>
      if !(Runs(st, task) && st.tasks[task].Upload? && !st.tasks[task].encrypting) then st
      else
        var o := st.tasks[task].uploader;
        if !st.owners[o].active || o != st.current then Finish(Drop(st, task), o)
        else st.(tasks := st.tasks[task := st.tasks[task].(encrypting := true)])
    case UploadReady(task, content) =>
      if Runs(st, task) && st.tasks[task].Upload? && st.tasks[task].encrypting then UploadReadyStep(st, task, content)
        else st
    case UploadFails(task) =>
      if Runs(st, task) && st.tasks[task].Upload? then Finish(Drop(st, task), st.tasks[task].uploader) else st
    case BeginForward(key, n) =>
      if n == 0 || Blocked(st, key) then st else Acquire(st, st.current, Forward(st.current, n, 0, 0))
    case Forwarded(task, ok) =>
      if Runs(st, task) && st.tasks[task].Forward? then ForwardedStep(st, task, ok) else st
  }
}
