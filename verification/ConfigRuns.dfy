/** Whole runs of the configuration protocol. */
module ConfigRuns {
  import opened Samples
  import opened StreamOps
  import opened Registry
  import opened ConfigProtocol

  lemma InitialInv(w: World)
    requires ConfigProtocol.IsInitial(w)
    ensures WorldInv(w)
  {
  }

  lemma RunStep(states: seq<World>, events: seq<Event>, k: nat)
    requires ConfigProtocol.IsRun(states, events) && 0 < k < |states|
    ensures ConfigProtocol.Enabled(states[k - 1], events[k - 1])
    ensures states[k] == Step(states[k - 1], events[k - 1])
    ensures NoWrap(states[k - 1]) && NoWrap(states[k])
  {
    hide NoWrap, Step, ConfigProtocol.Enabled;
    assert states[k - 1 + 1] == states[k];
  }

  lemma {:induction false} RunKeepsInv(states: seq<World>, events: seq<Event>, k: nat)
    requires ConfigProtocol.IsRun(states, events) && ConfigProtocol.IsInitial(states[0]) && k < |states|
    ensures WorldInv(states[k])
  {
    hide WorldInv, NoWrap, Step, ConfigProtocol.Enabled, ConfigProtocol.IsInitial;
    if k == 0 {
      InitialInv(states[0]);
    } else {
      RunKeepsInv(states, events, k - 1);
      RunStep(states, events, k);
      ConfigProtocol.StepKeepsInv(states[k - 1], events[k - 1]);
    }
  }

  /** Whenever the plugin has a graph marked acknowledged, the viewer has applied that very
      configuration last, and if the window is open it shows that theme: however
      acknowledgements were delayed, and with theme changes racing them. */
  lemma AcknowledgedMeansApplied(states: seq<World>, events: seq<Event>, k: nat, i: nat)
    requires ConfigProtocol.IsRun(states, events) && ConfigProtocol.IsInitial(states[0]) && k < |states|
    requires i < |states[k].plugin.slots| && states[k].plugin.slots[i].Some?
    requires states[k].plugin.slots[i].value.acked
    ensures var w, g := states[k], states[k].plugin.slots[i].value;
      && g.id in w.applied && g.id in w.versions && w.applied[g.id] < |w.versions[g.id]|
      && w.versions[g.id][w.applied[g.id]] == Version(g.sequence, g.theme)
      && (g.id in w.windows ==> w.windows[g.id] == g.theme)
  {
    RunKeepsInv(states, events, k);
  }

  // ---------------------------------------------------------------- closing

  predicate GraphsOf(m: Manager, id: nat, closing: bool) {
    forall i :: 0 <= i < |m.slots| && Has(m.slots[i], id) ==>
      m.slots[i].value.closeRequested && (closing ==> !m.slots[i].value.acked)
  }

  /** The handle was given out, and its graph is gone or about to close its window. */
  predicate Retired(w: World, id: nat) {
    id in w.versions && GraphsOf(w.plugin, id, false)
  }

  /** What an event puts on the wire. */
  function SentBy(w: World, e: Event): seq<Message> {
    if e.Plugin? then Emits(w.plugin, e.a) else []
  }

  lemma SentGrows(w: World, e: Event)
    requires ConfigProtocol.Enabled(w, e)
    ensures Step(w, e).sent == w.sent + SentBy(w, e)
  {
  }

  lemma SentIsFromGraph(w: World, e: Event, msg: Message)
    requires msg in SentBy(w, e)
    ensures e.Plugin? && e.a.Visit? && e.a.slot < |w.plugin.slots| && w.plugin.slots[e.a.slot].Some?
    ensures var g := w.plugin.slots[e.a.slot].value;
      && msg.id == g.id
      && (msg.Config? ==> !g.acked && !g.closeRequested)
      && (msg.Close? ==> g.acked && g.closeRequested && !g.closeSent)
  {
    EmittedShape(w.plugin.slots[e.a.slot].value, e.a.now);
  }

  lemma GraphsOfStep(w: World, e: Event, id: nat, closing: bool)
    requires WorldInv(w) && ConfigProtocol.Enabled(w, e) && NoWrap(w) && NoWrap(Step(w, e))
    requires id in w.versions && GraphsOf(w.plugin, id, closing)
    requires closing && e.AckArrives? && e.ack.id == id ==>
      forall i :: 0 <= i < |w.plugin.slots| && Has(w.plugin.slots[i], id) ==>
        w.plugin.slots[i].value.sequence != e.ack.sequence
    ensures id in Step(w, e).versions && GraphsOf(Step(w, e).plugin, id, closing)
  {
    hide ChannelInv, ViewerInv, FlagsInv;
    if e.Plugin? && e.a.CreateGraph? {
      GraphsOfCreate(w, e.a, id, closing);
    } else if e.Plugin? {
      VersionsExtend(w.plugin, w.versions, e.a);
      SlotConfigs(w.plugin, e.a);
      hide Apply;
    } else if e.AckArrives? {
      SlotConfigs(w.plugin, ReceiveAck(e.ack.id, e.ack.sequence));
      hide Apply;
    }
  }

  lemma GraphsOfCreate(w: World, a: Action, id: nat, closing: bool)
    requires WorldInv(w) && a.CreateGraph? && NoWrap(PluginStep(w, a))
    requires id in w.versions && GraphsOf(w.plugin, id, closing)
    ensures id in PluginStep(w, a).versions && GraphsOf(PluginStep(w, a).plugin, id, closing)
  {
    hide Allocate, Occupied, ChannelInv, ViewerInv, FlagsInv;
    VersionsExtend(w.plugin, w.versions, a);
    RegisterOutcome(w.plugin, a.domain, a.theme, a.time);
    FreshHandle(w.plugin, w.versions, a);
  }

  lemma RetiredStep(w: World, e: Event, id: nat)
    requires WorldInv(w) && ConfigProtocol.Enabled(w, e) && NoWrap(w) && NoWrap(Step(w, e))
    requires Retired(w, id)
    ensures Retired(Step(w, e), id)
    ensures forall msg :: msg in SentBy(w, e) && msg.Config? ==> msg.id != id
  {
    GraphsOfStep(w, e, id, false);
    forall msg | msg in SentBy(w, e) && msg.Config?
      ensures msg.id != id
    {
      SentIsFromGraph(w, e, msg);
      assert Has(w.plugin.slots[e.a.slot], msg.id);
    }
  }

  /** Once a graph is marked for closing, no later step sends a configuration for its
      handle again: not a theme change, not a retry, not after the graph is freed. */
  lemma {:induction false} NoConfigAfterClosing(states: seq<World>, events: seq<Event>,
                                                from: nat, later: nat, id: nat)
    requires ConfigProtocol.IsRun(states, events) && ConfigProtocol.IsInitial(states[0])
    requires from <= later < |states| && Retired(states[from], id)
    ensures Retired(states[later], id) && states[from].sent <= states[later].sent
    ensures forall j :: |states[from].sent| <= j < |states[later].sent| ==>
      states[later].sent[j].Config? ==> states[later].sent[j].id != id
    decreases later
  {
    hide Retired, WorldInv, NoWrap, Step, SentBy, ConfigProtocol.Enabled;
    if from < later {
      var w, e := states[later - 1], events[later - 1];
      RunStep(states, events, later);
      NoConfigAfterClosing(states, events, from, later - 1, id);
      RunKeepsInv(states, events, later - 1);
      RetiredStep(w, e, id);
      SentGrows(w, e);
      forall j | |states[from].sent| <= j < |states[later].sent| && states[later].sent[j].Config?
        ensures states[later].sent[j].id != id
      {
        if j >= |w.sent| {
          assert states[later].sent[j] == SentBy(w, e)[j - |w.sent|];
        }
      }
    }
  }

  lemma BurstStep(w: World, e: Event, id: nat)
    requires WorldInv(w) && ConfigProtocol.Enabled(w, e) && id in w.bursts
    ensures id in Step(w, e).bursts
    ensures Close(id) !in SentBy(w, e)
  {
    if Close(id) in SentBy(w, e) {
      SentIsFromGraph(w, e, Close(id));
    }
  }

  /** At most one closing burst is ever sent for a handle. */
  lemma {:induction false} OneBurst(states: seq<World>, events: seq<Event>, from: nat, later: nat, id: nat)
    requires ConfigProtocol.IsRun(states, events) && ConfigProtocol.IsInitial(states[0])
    requires from <= later < |states| && id in states[from].bursts
    ensures id in states[later].bursts && states[from].sent <= states[later].sent
    ensures Close(id) !in states[later].sent[|states[from].sent|..]
    decreases later
  {
    hide Stranded, WorldInv, NoWrap, Step, SentBy, ConfigProtocol.Enabled;
    if from < later {
      var w, e := states[later - 1], events[later - 1];
      RunStep(states, events, later);
      OneBurst(states, events, from, later - 1, id);
      RunKeepsInv(states, events, later - 1);
      BurstStep(w, e, id);
      SentGrows(w, e);
      assert states[later].sent[|states[from].sent|..] == w.sent[|states[from].sent|..] + SentBy(w, e);
    }
  }

  /** A window the plugin closed never opens again. */
  lemma {:induction false} ClosedStaysClosed(states: seq<World>, events: seq<Event>,
                                             from: nat, later: nat, id: nat)
    requires ConfigProtocol.IsRun(states, events) && ConfigProtocol.IsInitial(states[0])
    requires from <= later < |states| && id in states[from].closed
    ensures id in states[later].closed && id !in states[later].windows
    decreases later
  {
    hide WorldInv, NoWrap, Step, ConfigProtocol.Enabled, ConfigProtocol.IsInitial;
    RunKeepsInv(states, events, later);
    ClosedHasNoWindow(states[later]);
    if from < later {
      ClosedStaysClosed(states, events, from, later - 1, id);
      RunStep(states, events, later);
      ClosedStep(states[later - 1], events[later - 1], id);
    }
  }

  lemma ClosedHasNoWindow(w: World)
    requires WorldInv(w)
    ensures forall id :: id in w.closed ==> id !in w.windows
  {
  }

  lemma ClosedStep(w: World, e: Event, id: nat)
    requires ConfigProtocol.Enabled(w, e) && id in w.closed
    ensures id in Step(w, e).closed
  {
  }

  // ---------------------------------------------------------------- stranded windows

  /** Nothing under way could acknowledge the current configuration. */
  predicate Unanswerable(w: World, id: nat) {
    && (forall i :: 0 <= i < |w.channel| && w.channel[i].msg.Config? && w.channel[i].msg.id == id ==>
          w.channel[i].stamp < Current(w.versions, id))
    && (forall ack :: ack in w.acks && ack.id == id ==> ack.stamp < Current(w.versions, id))
  }

  /** The graph is marked for closing, is not acknowledged, and no acknowledgement of its
      configuration exists or can come. */
  predicate Stranded(w: World, id: nat) {
    id in w.versions && GraphsOf(w.plugin, id, true) && Unanswerable(w, id)
  }

  /** A theme change that comes between the request to close a window and the visit that
      would close it leaves the window to the user: the graph loses its acknowledgement
      and can never get one for the new configuration. */
  lemma ThemeChangeStrands(w: World, i: nat, theme: Theme)
    requires WorldInv(w) && i < |w.plugin.slots| && w.plugin.slots[i].Some?
    requires w.plugin.slots[i].value.closeRequested && w.plugin.slots[i].value.theme != theme
    requires NoWrap(Step(w, Plugin(ChangeTheme(w.plugin.slots[i].value.id, theme))))
    ensures var id := w.plugin.slots[i].value.id;
      Stranded(Step(w, Plugin(ChangeTheme(id, theme))), id)
  {
    ChangeWithdraws(w, i, theme);
    ChangeIsUnanswerable(w, i, theme);
    hide WorldInv, NoWrap, Step, GraphsOf, Unanswerable;
  }

  lemma ChangeWithdraws(w: World, i: nat, theme: Theme)
    requires SlotsInv(w.plugin) && i < |w.plugin.slots| && w.plugin.slots[i].Some?
    requires w.plugin.slots[i].value.closeRequested && w.plugin.slots[i].value.theme != theme
    ensures var id := w.plugin.slots[i].value.id;
      GraphsOf(Apply(w.plugin, ChangeTheme(id, theme)), id, true)
  {
    var id := w.plugin.slots[i].value.id;
    assert Has(w.plugin.slots[i], id) && Find(w.plugin.slots, id) == i;
    hide Find;
  }

  lemma ChangeIsUnanswerable(w: World, i: nat, theme: Theme)
    requires WorldInv(w) && i < |w.plugin.slots| && w.plugin.slots[i].Some?
    requires w.plugin.slots[i].value.theme != theme
    ensures var id := w.plugin.slots[i].value.id;
      var after := Step(w, Plugin(ChangeTheme(id, theme)));
      id in after.versions && Unanswerable(after, id)
  {
    var id := w.plugin.slots[i].value.id;
    assert Has(w.plugin.slots[i], id) && Find(w.plugin.slots, id) == i;
    hide Apply, Find, Register;
    assert forall j :: 0 <= j < |w.channel| ==> Timely(w, w.channel[j]);
  }

  lemma StrandedStep(w: World, e: Event, id: nat)
    requires WorldInv(w) && ConfigProtocol.Enabled(w, e) && NoWrap(w) && NoWrap(Step(w, e))
    requires Stranded(w, id)
    ensures Stranded(Step(w, e), id)
    ensures Close(id) !in SentBy(w, e)
  {
    if e.AckArrives? && e.ack.id == id {
      forall i | 0 <= i < |w.plugin.slots| && Has(w.plugin.slots[i], id)
        ensures w.plugin.slots[i].value.sequence != e.ack.sequence
      {
        if w.plugin.slots[i].value.sequence == e.ack.sequence {
          SequencesDiffer(w.versions[id], e.ack.stamp, Current(w.versions, id));
        }
      }
    }
    GraphsOfStep(w, e, id, true);
    if Close(id) in SentBy(w, e) {
      SentIsFromGraph(w, e, Close(id));
    }
    StrandedWire(w, e, id);
  }

  lemma StrandedWire(w: World, e: Event, id: nat)
    requires WorldInv(w) && ConfigProtocol.Enabled(w, e) && NoWrap(Step(w, e)) && Stranded(w, id)
    ensures Unanswerable(Step(w, e), id)
  {
    if e.Plugin? {
      VersionsExtend(w.plugin, w.versions, e.a);
      assert w.versions[id] != [];
      NothingSentFor(w, e, id);
      hide WorldInv, NoWrap, Emits, GraphsOf;
      PluginStaysUnanswerable(w, e.a, id);
    } else {
      hide WorldInv, NoWrap, GraphsOf;
      WireStaysUnanswerable(w, e, id);
    }
  }

  lemma PluginStaysUnanswerable(w: World, a: Action, id: nat)
    requires id in w.versions && w.versions[id] != [] && Unanswerable(w, id)
    requires Extends(w.versions, PluginStep(w, a).versions)
    requires forall msg :: msg in Emits(w.plugin, a) && msg.Config? ==> msg.id != id
    ensures Unanswerable(PluginStep(w, a), id)
  {
    var out, w' := Emits(w.plugin, a), PluginStep(w, a);
    assert Current(w.versions, id) <= Current(w'.versions, id);
    var sent := Stamps(out, w.versions);
    assert forall j :: 0 <= j < |sent| ==> sent[j].msg in out;
    hide Emits, Apply, NewVersions, Current, Extends, Stamps;
    assert w'.channel == w.channel + sent;
  }

  lemma WireStaysUnanswerable(w: World, e: Event, id: nat)
    requires ConfigProtocol.Enabled(w, e) && !e.Plugin? && Unanswerable(w, id)
    ensures Unanswerable(Step(w, e), id)
  {
    hide Current, Apply;
    if e.Deliver? {
      DeliveryStaysUnanswerable(w, e.ok, id);
    }
  }

  lemma DeliveryStaysUnanswerable(w: World, ok: bool, id: nat)
    requires w.channel != [] && Unanswerable(w, id)
    ensures Unanswerable(Step(w, Deliver(ok)), id)
  {
    hide Current;
    var w' := Step(w, Deliver(ok));
    assert forall i :: 0 <= i < |w'.channel| ==> w'.channel[i] == w.channel[i + 1];
  }

  lemma NothingSentFor(w: World, e: Event, id: nat)
    requires GraphsOf(w.plugin, id, true)
    ensures forall msg :: msg in SentBy(w, e) && msg.Config? ==> msg.id != id
  {
    forall msg | msg in SentBy(w, e) && msg.Config?
      ensures msg.id != id
    {
      SentIsFromGraph(w, e, msg);
      assert Has(w.plugin.slots[e.a.slot], msg.id);
    }
  }

  /** For the rest of the run the plugin never asks for that window to be closed. */
  lemma {:induction false} StrandedForever(states: seq<World>, events: seq<Event>,
                                           from: nat, later: nat, id: nat)
    requires ConfigProtocol.IsRun(states, events) && ConfigProtocol.IsInitial(states[0])
    requires from <= later < |states| && Stranded(states[from], id)
    ensures Stranded(states[later], id) && states[from].sent <= states[later].sent
    ensures Close(id) !in states[later].sent[|states[from].sent|..]
    decreases later
  {
    hide Stranded, WorldInv, NoWrap, Step, SentBy, ConfigProtocol.Enabled;
    if from < later {
      var w, e := states[later - 1], events[later - 1];
      RunStep(states, events, later);
      StrandedForever(states, events, from, later - 1, id);
      RunKeepsInv(states, events, later - 1);
      StrandedStep(w, e, id);
      SentGrows(w, e);
      assert states[later].sent[|states[from].sent|..] == w.sent[|states[from].sent|..] + SentBy(w, e);
    }
  }

  // A run that strands a window: its graph, its events and its states.

  function WitnessGraph(sent: bool, acked: bool, closing: bool, theme: Theme): Graph {
    Graph(0, 1, OscilloscopeDomain, theme, if theme == Light then 0 else 1, acked,
          if sent then Some(0) else None, closing, closing, false, NoStreams())
  }

  function WitnessWorld(g: Graph, channel: seq<Stamped>, shown: bool): World {
    World(Manager([Some(g)], 1, 2, map[], 1, 0), channel,
          if shown then {Ack(1, 0, 0)} else {},
          if shown then map[1 := Light] else map[],
          map[1 := if g.theme == Light then [Version(0, Light)] else [Version(0, Light), Version(1, Dark)]],
          if shown then map[1 := 0] else map[], {},
          if g.lastSend == None && g.theme == Light then [] else [Config(1, 0, Light)], [])
  }

  function WitnessStart(): World {
    World(Manager([None], 0, 1, map[], 0, 0), [], {}, map[], map[], map[], {}, [], [])
  }

  function WitnessStates(): seq<World> {
    [WitnessStart(),
     WitnessWorld(WitnessGraph(false, false, false, Light), [], false),
     WitnessWorld(WitnessGraph(true, false, false, Light), [Stamped(Config(1, 0, Light), 0)], false),
     WitnessWorld(WitnessGraph(true, false, false, Light), [], true),
     WitnessWorld(WitnessGraph(true, true, false, Light), [], true),
     WitnessWorld(WitnessGraph(true, true, true, Light), [], true),
     WitnessWorld(WitnessGraph(false, false, true, Dark), [], true)]
  }

  function WitnessEvents(): seq<Event> {
    [Plugin(CreateGraph(OscilloscopeDomain, Light, 0)), Plugin(Visit(0, 0, {})), Deliver(true),
     AckArrives(Ack(1, 0, 0)), Plugin(RequestDestroy(1, true)), Plugin(ChangeTheme(1, Dark))]
  }

  lemma WitnessRegisters()
    ensures var m, next := WitnessStart().plugin, WitnessStates()[1].plugin;
      Register(m, OscilloscopeDomain, Light, 0) == (Registered, next)
  {
    var m := WitnessStart().plugin;
    assert FirstFree(m.slots) == 0 && Find(m.slots, 1) == 1;
    assert Allocate(m.slots, 1, 2) == (1, 2);
    hide Allocate, FirstFree;
    var g := WitnessGraph(false, false, false, Light);
    assert m.slots[0 := Some(g)] == [Some(g)];
  }

  lemma WitnessCreates()
    ensures Step(WitnessStart(), Plugin(CreateGraph(OscilloscopeDomain, Light, 0))) == WitnessStates()[1]
  {
    WitnessRegisters();
    hide Register, NoStreams;
    assert FirstFree(WitnessStart().plugin.slots) == 0;
  }

  lemma WitnessVisit()
    ensures Apply(WitnessStates()[1].plugin, Visit(0, 0, {})) == WitnessStates()[2].plugin
    ensures Emits(WitnessStates()[1].plugin, Visit(0, 0, {})) == [Config(1, 0, Light)]
  {
    hide NoStreams;
  }

  lemma WitnessSends()
    ensures Step(WitnessStates()[1], Plugin(Visit(0, 0, {}))) == WitnessStates()[2]
  {
    WitnessVisit();
    hide NoStreams, Apply, Emits;
  }

  lemma WitnessOpens()
    ensures Step(WitnessStates()[2], Deliver(true)) == WitnessStates()[3]
  {
    hide NoStreams, Apply;
  }

  lemma WitnessAnswers()
    ensures Step(WitnessStates()[3], AckArrives(Ack(1, 0, 0))) == WitnessStates()[4]
  {
    hide NoStreams;
  }

  lemma WitnessIsReplaced()
    ensures Step(WitnessStates()[4], Plugin(RequestDestroy(1, true))) == WitnessStates()[5]
    ensures Close(1) in SentBy(WitnessStates()[5], Plugin(Visit(0, 0, {})))
  {
    hide NoStreams;
    WitnessIsClosing();
    assert Apply(WitnessStates()[4].plugin, RequestDestroy(1, true)) == WitnessStates()[5].plugin;
    hide Apply;
  }

  lemma WitnessIsClosing()
    ensures Close(1) in SentBy(WitnessStates()[5], Plugin(Visit(0, 0, {})))
  {
    hide NoStreams;
    EmittedExactly(WitnessGraph(true, true, true, Light), 0);
  }

  lemma WitnessIsStranded()
    ensures Stranded(WitnessStates()[6], 1)
  {
    hide NoStreams;
  }

  /** No witness world is near a wrap. */
  lemma WitnessFits(g: Graph, channel: seq<Stamped>, shown: bool)
    ensures NoWrap(WitnessWorld(g, channel, shown))
  {
  }

  lemma WitnessesFit()
    ensures forall k :: 0 <= k < 7 ==> NoWrap(WitnessStates()[k])
    ensures ConfigProtocol.IsInitial(WitnessStates()[0])
  {
    hide NoStreams;
    forall g, channel, shown
      ensures NoWrap(WitnessWorld(g, channel, shown))
    {
      WitnessFits(g, channel, shown);
    }
    hide WitnessWorld;
  }

  lemma WitnessChangesTheme()
    ensures Step(WitnessStates()[5], Plugin(ChangeTheme(1, Dark))) == WitnessStates()[6]
  {
    hide NoStreams;
    var before, after := WitnessStates()[5], WitnessStates()[6];
    assert Apply(before.plugin, ChangeTheme(1, Dark)) == after.plugin;
    assert NewVersions(before.plugin, ChangeTheme(1, Dark), before.versions) == after.versions by {
      assert before.versions[1] + [Version(1, Dark)] == after.versions[1];
    }
    hide Apply, NewVersions;
  }

  /** One such run: a graph is created, shown and acknowledged, then replaced, and has its
      theme changed before the sender's next visit. Its window was about to be closed; now
      it is open and stays so. */
  lemma ThemeChangeCanStrandWindow()
    ensures var states, events := WitnessStates(), WitnessEvents();
      && ConfigProtocol.IsRun(states, events) && ConfigProtocol.IsInitial(states[0])
      && 1 in states[5].windows && Close(1) in SentBy(states[5], Plugin(Visit(0, 0, {})))
      && 1 in states[6].windows && Stranded(states[6], 1)
  {
    WitnessCreates();
    WitnessSends();
    WitnessOpens();
    WitnessAnswers();
    WitnessIsReplaced();
    WitnessChangesTheme();
    WitnessIsStranded();
    WitnessesFit();
    hide Step, Stranded, SentBy, NoStreams, NoWrap, ConfigProtocol.IsInitial, WitnessGraph;
  }

  // ---------------------------------------------------------------- why the order matters

  function TwoConfigs(): seq<Stamped> {
    [Stamped(Config(1, 0, Light), 0), Stamped(Config(1, 1, Dark), 1)]
  }

  function RacingStates(): seq<World> {
    WitnessStates()[..3] +
    [WitnessWorld(WitnessGraph(false, false, false, Dark), TwoConfigs()[..1], false),
     WitnessWorld(WitnessGraph(true, false, false, Dark), TwoConfigs(), false).(
       sent := [Config(1, 0, Light), Config(1, 1, Dark)])]
  }

  function RacingEvents(): seq<Event> {
    WitnessEvents()[..2] + [Plugin(ChangeTheme(1, Dark)), Plugin(Visit(0, 0, {}))]
  }

  lemma RacingChanges()
    ensures Step(RacingStates()[2], RacingEvents()[2]) == RacingStates()[3]
  {
    hide NoStreams;
    assert Apply(RacingStates()[2].plugin, ChangeTheme(1, Dark)) == RacingStates()[3].plugin;
    assert [Version(0, Light)] + [Version(1, Dark)] == RacingStates()[3].versions[1];
  }

  lemma RacingSends()
    ensures Step(RacingStates()[3], RacingEvents()[3]) == RacingStates()[4]
  {
    hide NoStreams;
    assert Emitted(WitnessGraph(false, false, false, Dark), 0) == [Config(1, 1, Dark)];
  }

  lemma RacingFits()
    ensures NoWrap(RacingStates()[3]) && NoWrap(RacingStates()[4])
    ensures RacingStates()[4].channel == TwoConfigs()
  {
    hide NoStreams;
  }

  /** A reachable state with two configurations of one graph under way. */
  lemma RacingRun()
    ensures ConfigProtocol.IsRun(RacingStates(), RacingEvents()) && ConfigProtocol.IsInitial(RacingStates()[0])
    ensures RacingStates()[4].channel == TwoConfigs()
  {
    WitnessCreates();
    WitnessSends();
    RacingChanges();
    RacingSends();
    WitnessesFit();
    RacingFits();
    hide Step, NoStreams, NoWrap, ConfigProtocol.IsInitial, WitnessGraph, WitnessWorld;
  }

  /** The two configurations, the newer one first. */
  function SwappedWorld(): World {
    RacingStates()[4].(channel := [TwoConfigs()[1], TwoConfigs()[0]])
  }

  lemma SwappedShows()
    ensures var shown := Step(Step(SwappedWorld(), Deliver(true)), Deliver(true));
      && Ack(1, 1, 1) in shown.acks && shown.windows == map[1 := Light]
      && shown.plugin == RacingStates()[4].plugin
  {
    hide NoStreams;
  }

  lemma SwappedAcknowledges()
    ensures Apply(RacingStates()[4].plugin, ReceiveAck(1, 1)).slots == [Some(WitnessGraph(true, true, false, Dark))]
  {
    hide NoStreams;
  }

  /** Were they to arrive in the other order, the viewer would show the older theme while
      the plugin has the newer one acknowledged. */
  lemma SwappedConfigsDisagree()
    ensures var swapped := RacingStates()[4].(channel := [TwoConfigs()[1], TwoConfigs()[0]]);
      var shown := Step(Step(swapped, Deliver(true)), Deliver(true));
      && Ack(1, 1, 1) in shown.acks
      && var answered := Step(shown, AckArrives(Ack(1, 1, 1)));
         && answered.plugin.slots == [Some(WitnessGraph(true, true, false, Dark))]
         && answered.windows == map[1 := Light]
  {
    SwappedShows();
    SwappedAcknowledges();
    hide NoStreams, ConfigStep, Apply, WitnessGraph;
  }
}
