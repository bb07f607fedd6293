/** The composer as the user meets it: a recovery panel whose Retry and Discard buttons are disabled while they were
    rendered with the sending flag set. Nothing is delivered twice. */
module SendSlotScreen {
  import opened Outcomes
  import opened Sequences
  import opened SendSlot
  import opened SendSlotLaws
  import opened SendSlotRuns
  import opened SendSlotAccounts

  // ----- what is rendered

  /** The protocol state, whose `panel` is the submission the recovery panel was last rendered with, and the sending
      flag of that same render. */
  datatype Screen = Screen(st: State, shown: bool)

  predicate Click(e: Event) {
    e.Edit? || e.SetReply? || e.SendDraft? || e.SendAux? || e.Retry? || e.Discard? || e.BeginUpload? || e.BeginForward?
  }

  /** Panel and flag are rendered together. */
  function Rendered(st: State): (s: Screen)
    requires st.current < |st.owners|
    ensures s.st.current < |s.st.owners|
  {
    Screen(Next(st, RenderPanel), st.sending)
  }

  /** A disabled button does nothing. What a click did is rendered before the next event; what a completion or a scope
      effect did is rendered by some later click or `RenderPanel`. */
  function ScreenStep(s: Screen, e: Event): Screen
    requires s.st.current < |s.st.owners|
  {
    if (e.Retry? || e.Discard?) && s.shown then s
    else
      KeepsOwner(s.st, e, s.st.current);
      var n := Next(s.st, e);
      if Click(e) || e.RenderPanel? then Rendered(n) else Screen(n, s.shown)
  }

  ghost function ScreenRun(key: string, es: seq<Event>): (s: Screen)
    ensures s.st.current < |s.st.owners|
    decreases |es|
  {
    if es == [] then Screen(Mounted(key), false)
    else
      var s := ScreenRun(key, es[..|es| - 1]);
      KeepsOwner(s.st, es[|es| - 1], s.st.current);
      ScreenStep(s, es[|es| - 1])
  }

  /** Whatever the screen does is a run of the protocol, so everything said about runs holds of it. */
  lemma {:induction false} ScreenRunIsRun(key: string, es: seq<Event>) returns (run: seq<Event>)
    ensures ScreenRun(key, es).st == Run(key, run)
    decreases |es|
  {
    hide Next;
    if es == [] {
      run := [];
    } else {
      var s, e := ScreenRun(key, es[..|es| - 1]), es[|es| - 1];
      run := ScreenRunIsRun(key, es[..|es| - 1]);
      if !((e.Retry? || e.Discard?) && s.shown) {
        RunSnoc(key, run, e);
        RunSnoc(key, run + [e], RenderPanel);
        run := if Click(e) || e.RenderPanel? then run + [e] + [RenderPanel] else run + [e];
      }
    }
  }

  lemma {:induction false} RunSnoc(key: string, es: seq<Event>, e: Event)
    ensures Run(key, es + [e]) == Next(Run(key, es), e)
  {
    hide Next;
    assert (es + [e])[..|es + [e]| - 1] == es;
  }

  // ----- an enabled Retry is never out of date

  /** While the buttons are enabled nothing is in flight, and a panel of the current owner shows the held submission. */
  ghost predicate ScreenInv(s: Screen) {
    && Inv(s.st)
    && (s.st.sending ==> s.shown)
    && (!s.shown && s.st.panel.Some? && s.st.panel.value.owner == s.st.current ==> s.st.panel == s.st.failed)
  }

  predicate Completes(e: Event) {
    e.Settle? || e.FileRead? || e.UploadReady? || e.UploadFails? || e.Forwarded?
  }

  /** With the buttons enabled every completion belongs to an owner that is no longer current. */
  lemma {:induction false} NothingRuns(s: Screen, t: nat)
    requires ScreenInv(s) && !s.shown && t in s.st.tasks
    ensures TaskOwner(s.st.tasks[t]) != s.st.current
  {
  }

  lemma {:induction false} CompletionScreen(s: Screen, e: Event)
    requires ScreenInv(s) && Completes(e)
    ensures ScreenInv(Screen(Next(s.st, e), s.shown))
  {
    NextInv(s.st, e);
    if !s.shown {
      if e.task in s.st.tasks {
        NothingRuns(s, e.task);
      }
      StaleCompletionIsInert(s.st, e);
      hide Inv, Next;
    } else {
      hide Inv, Next;
    }
  }

  lemma {:induction false} ScopeScreen(s: Screen, e: Event)
    requires ScreenInv(s) && (e.RenderScope? || e.CommitScope?)
    ensures ScreenInv(Screen(Next(s.st, e), s.shown))
  {
    hide Inv, CommitStep;
    CurrentExists(s.st);
    NextInv(s.st, e);
    CommitShape(s.st);
    if s.st.panel.Some? {
      PanelIsBooked(s.st);
    }
  }

  lemma {:induction false} RenderScreen(st: State)
    requires Inv(st)
    ensures ScreenInv(Rendered(st))
  {
    hide Inv;
    NextInv(st, RenderPanel);
  }

  lemma {:induction false} ScreenStepInv(s: Screen, e: Event)
    requires ScreenInv(s)
    ensures ScreenInv(ScreenStep(s, e))
  {
    if !((e.Retry? || e.Discard?) && s.shown) {
      NextInv(s.st, e);
      hide Inv, Next, ScreenInv, Rendered;
      if Click(e) || e.RenderPanel? {
        RenderScreen(Next(s.st, e));
      } else if Completes(e) {
        CompletionScreen(s, e);
      } else {
        ScopeScreen(s, e);
      }
    }
  }

  lemma {:induction false} ScreenRunInv(key: string, es: seq<Event>)
    ensures ScreenInv(ScreenRun(key, es))
    decreases |es|
  {
    if es == [] {
      MountedInv(key);
    } else {
      hide ScreenInv, ScreenStep;
      ScreenRunInv(key, es[..|es| - 1]);
      ScreenStepInv(ScreenRun(key, es[..|es| - 1]), es[|es| - 1]);
    }
  }

  // ----- settled submissions stay settled

  /** The guard alone lets a settled submission come back to life in exactly one way: Retry on a panel that still
      shows it, while nothing else is held and the slot of its own owner is free. */
  lemma {:induction false} FinalLeftIff(st: State, e: Event, id: nat)
    requires Inv(st) && id in st.ledger && Final(st.ledger[id].outcome)
    ensures id in Next(st, e).ledger
    ensures Next(st, e).ledger[id] != st.ledger[id] <==>
      e.Retry? && st.panel == Some(st.ledger[id].sub) && MaySubmit(st, st.panel.value, e.key, e.offline)
  {
    hide Inv, SettleStep, UploadReadyStep, SendDraftStep, SubmitNew, CommitStep, DiscardStep, ForwardedStep, Acquire,
      Finish;
    CurrentExists(st);
    NextIdInv(st);
    if e.Settle? {
      if Runs(st, e.task) && st.tasks[e.task].Send? {
        SendIsBooked(st, e.task);
        CapturedSettle(st, e.task, e.ok, id);
      }
    } else if e.UploadReady? {
      if Runs(st, e.task) && st.tasks[e.task].Upload? {
        CapturedUpload(st, e.task, e.content, id);
      }
    } else {
      FinalElse(st, e, id);
    }
  }

  lemma {:induction false} FinalElse(st: State, e: Event, id: nat)
    requires Inv(st) && st.current < |st.owners| && id in st.ledger && Final(st.ledger[id].outcome)
    requires !e.Settle? && !e.UploadReady?
    ensures id in Next(st, e).ledger
    ensures Next(st, e).ledger[id] != st.ledger[id] <==>
      e.Retry? && st.panel == Some(st.ledger[id].sub) && MaySubmit(st, st.panel.value, e.key, e.offline)
  {
    hide Inv, Next, MaySubmit, Booked;
    NextIdInv(st);
    AccountIsBooked(st, id);
    if st.panel.Some? {
      PanelIsBooked(st);
    }
    if st.failed.Some? {
      HeldIsBooked(st);
    }
    FinalOther(st, e, id);
  }

  lemma {:induction false} FinalOther(st: State, e: Event, id: nat)
    requires st.current < |st.owners| && id in st.ledger && st.nextId !in st.ledger && Final(st.ledger[id].outcome)
    requires !e.Settle? && !e.UploadReady?
    requires Booked(st, id)
    requires st.panel.Some? ==> Known(st.ledger, st.panel.value)
    requires st.failed.Some? ==> Known(st.ledger, st.failed.value)
    ensures id in Next(st, e).ledger
    ensures Next(st, e).ledger[id] != st.ledger[id] <==>
      e.Retry? && st.panel == Some(st.ledger[id].sub) && MaySubmit(st, st.panel.value, e.key, e.offline)
  {
    CapturedOther(st, e, id);
  }

  /** On the screen a submission that was delivered, discarded or abandoned never comes back to life. */
  lemma {:induction false} FinalStaysFinal(s: Screen, e: Event, id: nat)
    requires ScreenInv(s) && id in s.st.ledger && Final(s.st.ledger[id].outcome)
    ensures id in ScreenStep(s, e).st.ledger && ScreenStep(s, e).st.ledger[id] == s.st.ledger[id]
  {
    assert Booked(s.st, id);
    FinalLeftIff(s.st, e, id);
    hide Inv, Next;
  }

  // ----- at most one delivery

  ghost predicate DeliveredOnce(st: State) {
    Distinct(st.deliveries)
    && forall id :: id in st.deliveries <==> id in st.ledger && st.ledger[id].outcome == Delivered
  }

  lemma {:induction false} DeliverySettle(st: State, task: nat, ok: bool)
    requires st.current < |st.owners| && task in st.tasks && st.tasks[task].Send?
      && st.tasks[task].sub.owner < |st.owners|
    requires DeliveredOnce(st) && Known(st.ledger, st.tasks[task].sub)
    requires st.ledger[st.tasks[task].sub.id].outcome == InFlight
    ensures DeliveredOnce(SettleStep(st, task, ok))
  {
    var n := SettleStep(st, task, ok);
    var id := st.tasks[task].sub.id;
    assert id !in st.deliveries;
    assert n.deliveries == if ok then st.deliveries + [id] else st.deliveries;
    DistinctConcat(st.deliveries, [id]);
  }

  /** Retry was pressed on a panel that still shows the held submission. */
  predicate Prompt(st: State, e: Event) {
    e.Retry? ==> st.panel == st.failed
  }

  /** With Retry pressed only on an up-to-date panel, a step never delivers a submission again. */
  lemma {:induction false} DeliveryStep(st: State, e: Event)
    requires Inv(st) && DeliveredOnce(st) && Prompt(st, e)
    ensures DeliveredOnce(Next(st, e))
  {
    if e.Settle? {
      if Runs(st, e.task) && st.tasks[e.task].Send? {
        var sub := st.tasks[e.task].sub;
        assert Known(st.ledger, sub) && Booked(st, sub.id) && Running(st.tasks, sub.id);
        DeliverySettle(st, e.task, e.ok);
      }
    } else {
      DeliveryOther(st, e);
      forall id
        ensures id in st.deliveries <==> id in Next(st, e).ledger && Next(st, e).ledger[id].outcome == Delivered
      {
        if id in st.ledger && st.ledger[id].outcome == Delivered {
          FinalLeftIff(st, e, id);
          assert Booked(st, id);
        } else {
          DeliveredIff(st, e, id);
        }
      }
    }
  }

  lemma {:induction false} NothingDelivered(key: string)
    ensures DeliveredOnce(Mounted(key))
  {
  }

  /** An enabled Retry is either prompt or does nothing. */
  lemma {:induction false} EnabledRetry(s: Screen, e: Event)
    requires ScreenInv(s) && !(e.Retry? && s.shown)
    ensures Prompt(s.st, e) || Next(s.st, e) == s.st
  {
    hide Inv;
  }

  lemma {:induction false} ScreenDelivery(s: Screen, e: Event)
    requires ScreenInv(s) && DeliveredOnce(s.st)
    ensures DeliveredOnce(ScreenStep(s, e).st)
  {
    if !((e.Retry? || e.Discard?) && s.shown) {
      EnabledRetry(s, e);
      if Prompt(s.st, e) {
        DeliveryStep(s.st, e);
      }
      KeepsOwner(s.st, e, s.st.current);
      RenderDelivery(Next(s.st, e));
      hide Next, Inv, DeliveredOnce, Rendered;
    }
  }

  lemma {:induction false} RenderDelivery(st: State)
    requires st.current < |st.owners|
    ensures DeliveredOnce(Rendered(st).st) == DeliveredOnce(st)
  {
  }

  /** In every interleaving of clicks, renders, scope changes and completions each submission is delivered at most once,
      and exactly the ones booked as delivered were. */
  lemma {:induction false} AtMostOneDelivery(key: string, es: seq<Event>)
    ensures DeliveredOnce(ScreenRun(key, es).st)
    decreases |es|
  {
    hide ScreenInv, ScreenStep, DeliveredOnce;
    NothingDelivered(key);
    if es != [] {
      var init := es[..|es| - 1];
      AtMostOneDelivery(key, init);
      ScreenRunInv(key, init);
      ScreenDelivery(ScreenRun(key, init), es[|es| - 1]);
    }
  }
}
