/** Exactly when the window of a replaced graph is still going to be asked to close. */
module Closing {
  import opened Samples
  import opened StreamOps
  import opened Registry
  import opened ConfigProtocol
  import opened ConfigRuns

  /** The handle was given out and no graph has it any more. */
  predicate Gone(w: World, id: nat) {
    id in w.versions && forall i :: 0 <= i < |w.plugin.slots| ==> !Has(w.plugin.slots[i], id)
  }

  predicate Answers(w: World, ack: Ack, id: nat) {
    ack in w.acks && ack.id == id && ack.stamp == Current(w.versions, id)
  }

  predicate Asks(w: World, i: nat, id: nat) {
    && i < |w.channel| && w.channel[i].msg.Config? && w.channel[i].msg.id == id
    && w.channel[i].stamp == Current(w.versions, id)
  }

  /** An acknowledgement of the current configuration is under way, or that configuration is. */
  ghost predicate Answerable(w: World, id: nat) {
    (exists ack :: Answers(w, ack, id)) || (exists i :: Asks(w, i, id))
  }

  /** The graph is still there, its close was not sent, and it is or may be acknowledged. */
  ghost predicate CanClose(w: World, id: nat) {
    exists i :: 0 <= i < |w.plugin.slots| && Has(w.plugin.slots[i], id)
      && !w.plugin.slots[i].value.closeSent
      && (w.plugin.slots[i].value.acked || Answerable(w, id))
  }

  ghost predicate IsContinuation(w: World, states: seq<World>, events: seq<Event>) {
    ConfigProtocol.IsRun(states, events) && states[0] == w
  }

  /** The last event of the run sends the close. */
  ghost predicate Closes(states: seq<World>, events: seq<Event>, id: nat)
    requires |states| == |events| + 1
  {
    events != [] && Close(id) in SentBy(states[|events| - 1], events[|events| - 1])
  }

  // ---------------------------------------------------------------- when it cannot come

  /** A close cannot come exactly when it was sent, the graph is gone, or nothing can
      acknowledge it. */
  lemma CannotClose(w: World, id: nat)
    requires WorldInv(w) && Retired(w, id)
    ensures !CanClose(w, id) <==> id in w.bursts || Gone(w, id) || Stranded(w, id)
  {
    if !CanClose(w, id) && id !in w.bursts && !Gone(w, id) {
      NothingCanAnswer(w, id);
    }
    forall i | 0 <= i < |w.plugin.slots| && Has(w.plugin.slots[i], id)
      ensures Stranded(w, id) ==> !Answerable(w, id) && !w.plugin.slots[i].value.acked
      ensures w.plugin.slots[i].value.closeSent <==> id in w.bursts
    {
    }
  }

  lemma NothingCanAnswer(w: World, id: nat)
    requires WorldInv(w) && Retired(w, id) && !CanClose(w, id) && id !in w.bursts && !Gone(w, id)
    ensures Stranded(w, id)
  {
    var i :| 0 <= i < |w.plugin.slots| && Has(w.plugin.slots[i], id);
    assert !w.plugin.slots[i].value.closeSent && !Answerable(w, id);
    forall c | 0 <= c < |w.channel| && w.channel[c].msg.Config? && w.channel[c].msg.id == id
      ensures w.channel[c].stamp < Current(w.versions, id)
    {
      assert Timely(w, w.channel[c]) && !Asks(w, c, id);
    }
    forall ack | ack in w.acks && ack.id == id
      ensures ack.stamp < Current(w.versions, id)
    {
      assert !Answers(w, ack, id);
    }
  }

  lemma GoneStep(w: World, e: Event, id: nat)
    requires WorldInv(w) && ConfigProtocol.Enabled(w, e) && NoWrap(w) && NoWrap(Step(w, e)) && Gone(w, id)
    ensures Gone(Step(w, e), id) && Close(id) !in SentBy(w, e)
  {
    if Close(id) in SentBy(w, e) {
      SentIsFromGraph(w, e, Close(id));
    }
    hide ChannelInv, ViewerInv, FlagsInv;
    if e.Plugin? && e.a.CreateGraph? {
      GoneStaysGone(w, e.a, id);
    } else if e.Plugin? {
      VersionsExtend(w.plugin, w.versions, e.a);
      SlotConfigs(w.plugin, e.a);
      hide Apply;
    } else if e.AckArrives? {
      SlotConfigs(w.plugin, ReceiveAck(e.ack.id, e.ack.sequence));
      hide Apply;
    }
  }

  lemma GoneStaysGone(w: World, a: Action, id: nat)
    requires WorldInv(w) && a.CreateGraph? && NoWrap(PluginStep(w, a)) && Gone(w, id)
    ensures Gone(PluginStep(w, a), id)
  {
    hide Allocate, Occupied, ChannelInv, ViewerInv, FlagsInv;
    VersionsExtend(w.plugin, w.versions, a);
    RegisterOutcome(w.plugin, a.domain, a.theme, a.time);
    FreshHandle(w.plugin, w.versions, a);
  }

  lemma CannotCloseStep(w: World, e: Event, id: nat)
    requires WorldInv(w) && ConfigProtocol.Enabled(w, e) && NoWrap(w) && NoWrap(Step(w, e))
    requires Retired(w, id) && !CanClose(w, id)
    ensures !CanClose(Step(w, e), id) && Close(id) !in SentBy(w, e)
  {
    CannotClose(w, id);
    ConfigProtocol.StepKeepsInv(w, e);
    RetiredStep(w, e, id);
    CannotClose(Step(w, e), id);
    hide WorldInv, Step, SentBy, CanClose, Gone, Stranded, Retired, NoWrap, ConfigProtocol.Enabled;
    if id in w.bursts {
      BurstStep(w, e, id);
    } else if Gone(w, id) {
      GoneStep(w, e, id);
    } else {
      StrandedStep(w, e, id);
    }
  }

  lemma {:induction false} NeverCloses(states: seq<World>, events: seq<Event>, k: nat, id: nat)
    requires ConfigProtocol.IsRun(states, events) && k < |states| && WorldInv(states[0])
    requires Retired(states[0], id) && !CanClose(states[0], id)
    ensures WorldInv(states[k]) && Retired(states[k], id) && !CanClose(states[k], id)
    ensures k > 0 ==> Close(id) !in SentBy(states[k - 1], events[k - 1])
  {
    hide WorldInv, Step, SentBy, CanClose, Retired, NoWrap, ConfigProtocol.Enabled;
    if k > 0 {
      NeverCloses(states, events, k - 1, id);
      RunStep(states, events, k);
      ConfigProtocol.StepKeepsInv(states[k - 1], events[k - 1]);
      RetiredStep(states[k - 1], events[k - 1], id);
      CannotCloseStep(states[k - 1], events[k - 1], id);
    }
  }

  // ---------------------------------------------------------------- when it can

  /** One step nearer to the close. */
  function Approach(w: World, id: nat, i: nat, ack: Option<Ack>): Event
    requires i < |w.plugin.slots| && Has(w.plugin.slots[i], id)
  {
    if w.plugin.slots[i].value.acked then Plugin(Visit(i, 0, {}))
    else if ack.Some? then AckArrives(ack.value)
    else if w.channel != [] && Asks(w, 0, id) then Deliver(true)
    else Drop(0)
  }

  lemma QuietSteps(w: World, e: Event)
    requires ConfigProtocol.Enabled(w, e) && NoWrap(w)
    requires !e.Plugin? || e.a.Visit?
    ensures NoWrap(Step(w, e)) && Step(w, e).versions == w.versions
  {
  }

  lemma AckIsAccepted(w: World, id: nat, i: nat, ack: Ack)
    requires WorldInv(w) && i < |w.plugin.slots| && Has(w.plugin.slots[i], id) && Answers(w, ack, id)
    ensures var w' := Step(w, AckArrives(ack));
      && i < |w'.plugin.slots| && w'.plugin.slots[i] == Some(w.plugin.slots[i].value.(acked := true))
  {
    hide ChannelInv, FlagsInv;
    assert Find(w.plugin.slots, id) == i;
    assert w.plugin.slots[i].value.sequence == ack.sequence;
  }

  lemma Extends(w: World, e: Event, states: seq<World>, events: seq<Event>, id: nat)
    requires ConfigProtocol.Enabled(w, e) && NoWrap(w) && IsContinuation(Step(w, e), states, events)
    requires Closes(states, events, id)
    ensures IsContinuation(w, [w] + states, [e] + events) && Closes([w] + states, [e] + events, id)
  {
    hide Step, NoWrap, ConfigProtocol.Enabled, SentBy;
    var ss, es := [w] + states, [e] + events;
    assert ss[|es| - 1] == states[|events| - 1] && es[|es| - 1] == events[|events| - 1];
    forall k | 0 <= k < |es|
      ensures ConfigProtocol.Enabled(ss[k], es[k]) && ss[k + 1] == Step(ss[k], es[k])
    {
      if k > 0 {
        assert ss[k] == states[k - 1] && es[k] == events[k - 1] && ss[k + 1] == states[k - 1 + 1];
      }
    }
  }

  lemma VisitCloses(w: World, id: nat, i: nat) returns (states: seq<World>, events: seq<Event>)
    requires WorldInv(w) && NoWrap(w) && Retired(w, id)
    requires i < |w.plugin.slots| && Has(w.plugin.slots[i], id)
    requires !w.plugin.slots[i].value.closeSent && w.plugin.slots[i].value.acked
    ensures IsContinuation(w, states, events) && Closes(states, events, id)
  {
    var e := Plugin(Visit(i, 0, {}));
    EmittedExactly(w.plugin.slots[i].value, 0);
    QuietSteps(w, e);
    hide WorldInv, Step, NoWrap, Emitted;
    states, events := [w, Step(w, e)], [e];
  }

  lemma AckThenCloses(w: World, id: nat, i: nat, ack: Ack) returns (states: seq<World>, events: seq<Event>)
    requires WorldInv(w) && NoWrap(w) && Retired(w, id)
    requires i < |w.plugin.slots| && Has(w.plugin.slots[i], id)
    requires !w.plugin.slots[i].value.closeSent && Answers(w, ack, id)
    ensures IsContinuation(w, states, events) && Closes(states, events, id)
  {
    var e := AckArrives(ack);
    QuietSteps(w, e);
    ConfigProtocol.StepKeepsInv(w, e);
    RetiredStep(w, e, id);
    AckIsAccepted(w, id, i, ack);
    hide WorldInv, Step, NoWrap;
    var ss, es := VisitCloses(Step(w, e), id, i);
    Extends(w, e, ss, es, id);
    states, events := [w] + ss, [e] + es;
  }

  lemma {:induction false} DeliveryThenCloses(w: World, id: nat, i: nat, c: nat)
    returns (states: seq<World>, events: seq<Event>)
    requires WorldInv(w) && NoWrap(w) && Retired(w, id)
    requires i < |w.plugin.slots| && Has(w.plugin.slots[i], id)
    requires !w.plugin.slots[i].value.closeSent && Asks(w, c, id)
    ensures IsContinuation(w, states, events) && Closes(states, events, id)
    decreases c
  {
    var e := if c == 0 then Deliver(true) else Drop(0);
    QuietSteps(w, e);
    ConfigProtocol.StepKeepsInv(w, e);
    RetiredStep(w, e, id);
    ChannelMoves(w, id, c);
    hide WorldInv, Step, NoWrap, Asks, Answers;
    var ss, es;
    if c == 0 {
      ss, es := AckThenCloses(Step(w, e), id, i, Ack(id, w.channel[0].msg.sequence, w.channel[0].stamp));
    } else {
      ss, es := DeliveryThenCloses(Step(w, e), id, i, c - 1);
    }
    Extends(w, e, ss, es, id);
    states, events := [w] + ss, [e] + es;
  }

  lemma ChannelMoves(w: World, id: nat, c: nat)
    requires Asks(w, c, id)
    ensures w.channel != []
    ensures var e := if c == 0 then Deliver(true) else Drop(0);
      && ConfigProtocol.Enabled(w, e) && Step(w, e).plugin == w.plugin
      && if c == 0 then Answers(Step(w, e), Ack(id, w.channel[0].msg.sequence, w.channel[0].stamp), id)
         else Asks(Step(w, e), c - 1, id)
  {
  }

  /** Some continuation sends the close. */
  lemma CloseCanBeSent(w: World, id: nat) returns (states: seq<World>, events: seq<Event>)
    requires WorldInv(w) && NoWrap(w) && Retired(w, id) && CanClose(w, id)
    ensures IsContinuation(w, states, events) && Closes(states, events, id)
  {
    var i :| 0 <= i < |w.plugin.slots| && Has(w.plugin.slots[i], id)
      && !w.plugin.slots[i].value.closeSent
      && (w.plugin.slots[i].value.acked || Answerable(w, id));
    if w.plugin.slots[i].value.acked {
      states, events := VisitCloses(w, id, i);
    } else if ack :| Answers(w, ack, id) {
      states, events := AckThenCloses(w, id, i, ack);
    } else {
      var c :| Asks(w, c, id);
      states, events := DeliveryThenCloses(w, id, i, c);
    }
  }

  /** In every reachable state, for every graph marked for closing: some continuation of the
      run asks the viewer to close its window if and only if the graph is still there, was
      not asked yet, and is acknowledged or has its current configuration or an
      acknowledgement of it under way. */
  lemma CloseComesExactly(states: seq<World>, events: seq<Event>, k: nat, id: nat)
    requires ConfigProtocol.IsRun(states, events) && ConfigProtocol.IsInitial(states[0]) && k < |states|
    requires Retired(states[k], id)
    ensures (exists ss, es :: IsContinuation(states[k], ss, es) && Closes(ss, es, id))
      <==> CanClose(states[k], id)
  {
    ConfigRuns.RunKeepsInv(states, events, k);
    hide WorldInv, CanClose, Retired, Step, NoWrap, SentBy;
    if CanClose(states[k], id) {
      var ss, es := CloseCanBeSent(states[k], id);
    }
    forall ss, es | IsContinuation(states[k], ss, es) && Closes(ss, es, id)
      ensures CanClose(states[k], id)
    {
      if !CanClose(states[k], id) {
        NeverCloses(ss, es, |es|, id);
      }
    }
  }

  /** For a replaced graph whose streams are all released the next visit decides: the close
      goes out if it is acknowledged by then, and otherwise the graph goes and no close ever
      does, whatever the viewer still shows. */
  lemma NextVisitDecides(w: World, i: nat, now: nat, complete: set<nat>)
    requires WorldInv(w) && i < |w.plugin.slots| && w.plugin.slots[i].Some?
    requires var g := w.plugin.slots[i].value;
      && g.destroyRequested && g.closeRequested && !g.closeSent
      && forall j :: 0 <= j < |g.streams| && g.streams[j].Some? ==> g.streams[j].value.released
    ensures var id, e := w.plugin.slots[i].value.id, Plugin(Visit(i, now, complete));
      && (Close(id) in SentBy(w, e) <==> w.plugin.slots[i].value.acked)
      && (!w.plugin.slots[i].value.acked ==> Gone(Step(w, e), id) && !CanClose(Step(w, e), id))
  {
    EmittedExactly(w.plugin.slots[i].value, now);
    FreedExactly(w.plugin.slots[i].value, now, complete);
    hide ChannelInv, ViewerInv, FlagsInv, Emitted;
  }

  // ---------------------------------------------------------------- a late acknowledgement

  function LateStates(): seq<World> {
    WitnessStates()[..4] +
    [WitnessWorld(WitnessGraph(true, false, true, Light), [], true),
     WitnessWorld(WitnessGraph(true, false, true, Light), [], true).(plugin := Manager([None], 0, 2, map[], 1, 0))]
  }

  function LateEvents(): seq<Event> {
    WitnessEvents()[..3] + [Plugin(RequestDestroy(1, true)), Plugin(Visit(0, 0, {}))]
  }

  lemma LateReplaced()
    ensures Step(LateStates()[3], LateEvents()[3]) == LateStates()[4]
  {
    hide NoStreams;
  }

  lemma LateIsFreed()
    ensures FreedByVisit(WitnessGraph(true, false, true, Light), 0, {})
  {
    FreedExactly(WitnessGraph(true, false, true, Light), 0, {});
  }

  lemma LateFreed()
    ensures Step(LateStates()[4], LateEvents()[4]) == LateStates()[5]
  {
    LateIsFreed();
    hide NoStreams, FreedByVisit;
  }

  lemma LateIsGone()
    ensures NoWrap(LateStates()[4]) && NoWrap(LateStates()[5])
    ensures 1 in LateStates()[5].windows && Ack(1, 0, 0) in LateStates()[5].acks
    ensures Gone(LateStates()[5], 1) && !CanClose(LateStates()[5], 1)
  {
    hide NoStreams;
  }

  lemma LateRun()
    ensures ConfigProtocol.IsRun(LateStates(), LateEvents()) && ConfigProtocol.IsInitial(LateStates()[0])
  {
    WitnessCreates();
    WitnessSends();
    WitnessOpens();
    LateReplaced();
    LateFreed();
    LateIsGone();
    WitnessesFit();
    hide Step, NoStreams, NoWrap, ConfigProtocol.IsInitial, WitnessGraph, Gone, CanClose;
  }

  /** A graph shown to the viewer is replaced before its acknowledgement arrives: the sender
      takes it for one no window was opened for and frees it, and the window stays. */
  lemma LateAckStrandsWindow()
    ensures var states, events := LateStates(), LateEvents();
      && ConfigProtocol.IsRun(states, events) && ConfigProtocol.IsInitial(states[0])
      && 1 in states[5].windows && Ack(1, 0, 0) in states[5].acks
      && Gone(states[5], 1) && !CanClose(states[5], 1)
  {
    LateRun();
    LateIsGone();
    hide ConfigProtocol.IsRun, ConfigProtocol.IsInitial, WitnessGraph, WitnessWorld, Gone, CanClose;
  }
}
