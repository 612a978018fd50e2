/** The configuration protocol: the registry, a channel to the viewer that loses and
    repeats packets but keeps their order, acknowledgements that arrive late, repeated,
    out of order or never, and the viewer's windows.

    `versions`, `applied`, `closed`, `sent` and `bursts`, and the stamps on packets and
    acknowledgements, are history: no step depends on them. */
module ConfigProtocol {
  import opened Samples
  import opened StreamOps
  import opened Registry

  datatype Version = Version(sequence: int, theme: Theme)

  /** A packet, with the number of the configuration it carries. */
  datatype Stamped = Stamped(msg: Message, stamp: nat)

  datatype Ack = Ack(id: nat, sequence: int, stamp: nat)

  datatype World = World(
    plugin: Manager,
    channel: seq<Stamped>,
    acks: set<Ack>,
    windows: map<nat, Theme>,
    versions: map<nat, seq<Version>>,
    applied: map<nat, nat>,
    closed: set<nat>,
    sent: seq<Message>,
    bursts: seq<nat>)

  datatype Event =
    | Plugin(a: Action)
    | AckArrives(ack: Ack)
    | Deliver(ok: bool)
    | Drop(i: nat)
    | Repeat(i: nat)
    | UserCloses(id: nat)

  predicate Enabled(w: World, e: Event) {
    match e
    case Plugin(a) => !a.ReceiveAck? && (a.CreateGraph? ==> 0 <= a.time <= INT64_MAX)
    case AckArrives(ack) => ack in w.acks
    case Deliver(_) => w.channel != []
    case Drop(i) => i < |w.channel|
    case Repeat(i) => i < |w.channel|
    case UserCloses(_) => true
  }

  // ---------------------------------------------------------------- steps

  function Current(versions: map<nat, seq<Version>>, id: nat): nat {
    if id in versions && versions[id] != [] then |versions[id]| - 1 else 0
  }

  function Stamps(msgs: seq<Message>, versions: map<nat, seq<Version>>): (r: seq<Stamped>)
    ensures |r| == |msgs|
    ensures forall i :: 0 <= i < |r| ==> r[i] == Stamped(msgs[i], Current(versions, msgs[i].id))
  {
    seq(|msgs|, i requires 0 <= i < |msgs| => Stamped(msgs[i], Current(versions, msgs[i].id)))
  }

  predicate Changes(m: Manager, a: Action) {
    && a.ChangeTheme? && Find(m.slots, a.id) < |m.slots|
    && m.slots[Find(m.slots, a.id)].value.theme != a.theme
  }

  function NewVersions(m: Manager, a: Action, versions: map<nat, seq<Version>>)
    : map<nat, seq<Version>>
  {
    if a.CreateGraph? && Register(m, a.domain, a.theme, a.time).0 == Registered then
      var slot := FirstFree(m.slots);
      if slot < |m.slots| && Apply(m, a).slots[slot].Some?
      then versions[Apply(m, a).slots[slot].value.id := [Version(a.time, a.theme)]]
      else versions
    else if Changes(m, a) && a.id in versions then
      versions[a.id := versions[a.id]
        + [Version(NextSequence(m.slots[Find(m.slots, a.id)].value.sequence), a.theme)]]
    else versions
  }

  predicate Bursts(msgs: seq<Message>) {
    msgs != [] && msgs[0].Close?
  }

  function PluginStep(w: World, a: Action): World {
    var out := Emits(w.plugin, a);
    w.(plugin := Apply(w.plugin, a),
       versions := NewVersions(w.plugin, a, w.versions),
       channel := w.channel + Stamps(out, w.versions),
       sent := w.sent + out,
       bursts := if Bursts(out) then w.bursts + [out[0].id] else w.bursts)
  }

  /** `process_config_packet`: opens a window, which may fail, or applies the theme to the
      one there is; acknowledges what it applied. */
  function ConfigStep(w: World, p: Stamped, ok: bool): World
    requires p.msg.Config?
  {
    var id := p.msg.id;
    if id !in w.windows && !ok then w
    else w.(windows := w.windows[id := p.msg.theme],
            applied := w.applied[id := p.stamp],
            acks := w.acks + {Ack(id, p.msg.sequence, p.stamp)})
  }

  /** `process_graph_close_packet`. */
  function CloseStep(w: World, id: nat): World {
    w.(windows := w.windows - {id}, closed := w.closed + {id})
  }

  function Step(w: World, e: Event): World
    requires Enabled(w, e)
  {
    match e
    case Plugin(a) => PluginStep(w, a)
    case AckArrives(ack) => w.(plugin := Apply(w.plugin, ReceiveAck(ack.id, ack.sequence)))
    case Deliver(ok) =>
      var p, rest := w.channel[0], w.(channel := w.channel[1..]);
      if p.msg.Config? then ConfigStep(rest, p, ok) else CloseStep(rest, p.msg.id)
    case Drop(i) => w.(channel := w.channel[..i] + w.channel[i + 1..])
    case Repeat(i) => w.(channel := w.channel[..i + 1] + w.channel[i..])
    case UserCloses(id) => w.(windows := w.windows - {id})
  }

  predicate IsInitial(w: World) {
    && Inv(w.plugin) && w.plugin.serials == 0 && w.plugin.nextId == 1
    && (forall i :: 0 <= i < |w.plugin.slots| ==> w.plugin.slots[i] == None)
    && w.channel == [] && w.acks == {} && w.windows == map[] && w.versions == map[]
    && w.applied == map[] && w.closed == {} && w.sent == [] && w.bursts == []
  }

  /** Handles have not come round again, nor have the sequence numbers of one graph. */
  predicate NoWrap(w: World) {
    && w.plugin.serials <= MAX_HANDLE_ID
    && forall id :: id in w.versions ==> |w.versions[id]| <= INT64_MAX + 1
  }

  predicate IsRun(states: seq<World>, events: seq<Event>) {
    && |states| == |events| + 1
    && (forall i :: 0 <= i < |events| ==>
          Enabled(states[i], events[i]) && states[i + 1] == Step(states[i], events[i]))
    && (forall i :: 0 <= i < |states| ==> NoWrap(states[i]))
  }

  // ---------------------------------------------------------------- invariants

  /** The `k`-th sequence number after `first`. */
  function SequenceAt(first: int, k: nat): int {
    if first + k <= INT64_MAX then first + k else first + k - INT64_MAX - 1
  }

  predicate Numbered(v: seq<Version>) {
    && v != [] && 0 <= v[0].sequence <= INT64_MAX
    && forall k :: 0 <= k < |v| ==> v[k].sequence == SequenceAt(v[0].sequence, k)
  }

  /** Handles count up. */
  predicate HandlesInv(m: Manager, versions: map<nat, seq<Version>>) {
    && (m.serials < MAX_HANDLE_ID ==> m.nextId == m.serials + 1)
    && (forall id :: id in versions ==> 1 <= id <= m.serials)
    && (forall id :: 1 <= id <= m.serials ==> id in versions)
  }

  predicate AllNumbered(versions: map<nat, seq<Version>>) {
    forall id :: id in versions ==> Numbered(versions[id])
  }

  /** The history of a graph ends with its configuration. */
  predicate IsCurrent(g: Graph, versions: map<nat, seq<Version>>) {
    && g.id in versions && versions[g.id] != []
    && versions[g.id][|versions[g.id]| - 1] == Version(g.sequence, g.theme)
  }

  predicate AllCurrent(slots: seq<Option<Graph>>, versions: map<nat, seq<Version>>) {
    forall i :: 0 <= i < |slots| && slots[i].Some? ==> IsCurrent(slots[i].value, versions)
  }

  predicate PluginInv(m: Manager, versions: map<nat, seq<Version>>) {
    SlotsInv(m) && HandlesInv(m, versions) && AllNumbered(versions) && AllCurrent(m.slots, versions)
  }

  predicate Carries(p: Stamped, versions: map<nat, seq<Version>>) {
    && p.msg.Config? && p.msg.id in versions && p.stamp < |versions[p.msg.id]|
    && versions[p.msg.id][p.stamp] == Version(p.msg.sequence, p.msg.theme)
  }

  predicate InOrder(p: Stamped, q: Stamped) {
    p.msg.id == q.msg.id && q.msg.Config? ==> p.msg.Config? && p.stamp <= q.stamp
  }

  /** Configurations travel in order, and none follows a close. */
  predicate Ordered(channel: seq<Stamped>) {
    forall i, j :: 0 <= i < j < |channel| ==> InOrder(channel[i], channel[j])
  }

  /** A packet under way carries a configuration no older than the one applied, for a
      window not yet closed; or it closes one. */
  predicate Timely(w: World, p: Stamped) {
    if p.msg.Close? then p.msg.id in w.bursts
    else
      && Carries(p, w.versions) && p.msg.id !in w.closed
      && (p.msg.id in w.applied ==> w.applied[p.msg.id] <= p.stamp)
  }

  predicate ChannelInv(w: World) {
    Ordered(w.channel) && forall i :: 0 <= i < |w.channel| ==> Timely(w, w.channel[i])
  }

  predicate AppliedInv(w: World) {
    forall id :: id in w.applied ==> id in w.versions && w.applied[id] < |w.versions[id]|
  }

  predicate WindowsInv(w: World)
    requires AppliedInv(w)
  {
    forall id :: id in w.windows ==>
      id in w.applied && w.versions[id][w.applied[id]].theme == w.windows[id]
  }

  predicate AcksInv(w: World)
    requires AppliedInv(w)
  {
    forall ack :: ack in w.acks ==>
      && ack.id in w.applied && ack.stamp <= w.applied[ack.id]
      && w.versions[ack.id][ack.stamp].sequence == ack.sequence
  }

  predicate ClosedInv(w: World) {
    forall id :: id in w.closed ==> id in w.bursts && id !in w.windows
  }

  predicate ViewerInv(w: World) {
    AppliedInv(w) && WindowsInv(w) && AcksInv(w) && ClosedInv(w)
  }

  /** What a graph's flags say about the viewer and the wire. */
  predicate Flags(w: World, g: Graph) {
    && (g.acked ==> g.id in w.applied && w.applied[g.id] == Current(w.versions, g.id))
    && (g.closeSent <==> g.id in w.bursts)
    && (g.closeSent ==> g.closeRequested)
  }

  predicate AllFlags(w: World) {
    forall i :: 0 <= i < |w.plugin.slots| && w.plugin.slots[i].Some? ==> Flags(w, w.plugin.slots[i].value)
  }

  predicate BurstsInv(w: World) {
    && (forall k :: 0 <= k < |w.bursts| ==> w.bursts[k] in w.versions)
    && (forall j, k :: 0 <= j < k < |w.bursts| ==> w.bursts[j] != w.bursts[k])
  }

  predicate FlagsInv(w: World) {
    AllFlags(w) && BurstsInv(w)
  }

  predicate WorldInv(w: World) {
    PluginInv(w.plugin, w.versions) && ChannelInv(w) && ViewerInv(w) && FlagsInv(w)
  }

  // ---------------------------------------------------------------- the plugin's steps

  /** Fewer than 2^63 configurations of one graph have different sequence numbers. */
  lemma SequencesDiffer(v: seq<Version>, j: nat, k: nat)
    requires Numbered(v) && |v| <= INT64_MAX + 1 && j < |v| && k < |v|
    requires v[j].sequence == v[k].sequence
    ensures j == k
  {
  }

  /** A new graph gets the next handle ever, so its handle was never used. */
  lemma FreshHandle(m: Manager, versions: map<nat, seq<Version>>, a: Action)
    requires PluginInv(m, versions) && a.CreateGraph? && Apply(m, a).serials <= MAX_HANDLE_ID
    ensures Register(m, a.domain, a.theme, a.time).0 == Registered ==>
      var slot := FirstFree(m.slots);
      && slot < |m.slots| && Apply(m, a).slots[slot].Some?
      && Apply(m, a).slots[slot].value == Graph(m.serials, m.serials + 1, a.domain, a.theme, a.time,
           false, None, false, false, false, NoStreams())
      && Apply(m, a) == m.(slots := m.slots[slot := Apply(m, a).slots[slot]], count := m.count + 1,
                           nextId := Apply(m, a).nextId, serials := m.serials + 1)
      && Apply(m, a).nextId == Successor(m.serials + 1)
    ensures Register(m, a.domain, a.theme, a.time).0 != Registered ==> Apply(m, a) == m
  {
    RegisterOutcome(m, a.domain, a.theme, a.time);
    assert m.serials < MAX_HANDLE_ID ==> Find(m.slots, m.nextId) == |m.slots|;
  }

  /** What a step of the plugin does to the configuration of the graph in one slot. */
  predicate ConfigEvolves(m: Manager, a: Action, i: nat, g: Graph, g': Graph) {
    && g'.id == g.id
    && (g'.closeSent <==> g.closeSent || (a.Visit? && a.slot == i && g.acked && g.closeRequested))
    && (g.closeRequested ==> g'.closeRequested)
    && if Changes(m, a) && a.id == g.id then
         g'.theme == a.theme && g'.sequence == NextSequence(g.sequence) && !g'.acked
       else
         && g'.theme == g.theme && g'.sequence == g.sequence
         && (g'.acked <==> g.acked || (a.ReceiveAck? && a.id == g.id && a.sequence == g.sequence))
  }

  lemma VisitConfig(m: Manager, a: Action, i: nat)
    requires SlotsInv(m) && i < |m.slots| && a.Visit?
    ensures Apply(m, a).slots[i].Some? ==>
      m.slots[i].Some? && ConfigEvolves(m, a, i, m.slots[i].value, Apply(m, a).slots[i].value)
  {
  }

  lemma CreateStreamConfig(m: Manager, a: Action, i: nat)
    requires i < |m.slots| && a.CreateStream?
    ensures Apply(m, a).slots[i].Some? <==> m.slots[i].Some?
    ensures m.slots[i].Some? ==> SameConfig(m.slots[i].value, Apply(m, a).slots[i].value)
  {
    ReleaseConfig(m, a.instance, i);
    var m1 := Release(m, a.instance);
    if a.hasMemory && Accepts(m1, a.id, a.first, a.second) {
      AttachConfig(m1, a.instance, a.id, a.first, a.second, i);
    }
    hide Release, Attach;
  }

  lemma SlotConfig(m: Manager, a: Action, i: nat)
    requires SlotsInv(m) && i < |m.slots| && !a.CreateGraph?
    ensures |Apply(m, a).slots| == |m.slots|
    ensures Apply(m, a).slots[i].Some? ==>
      m.slots[i].Some? && ConfigEvolves(m, a, i, m.slots[i].value, Apply(m, a).slots[i].value)
  {
    Unresized(m, a);
    match a
    case CreateStream(_, _, _, _, _) =>
      CreateStreamConfig(m, a, i);
      hide Apply;
    case ReleaseStream(instance) =>
      ReleaseConfig(m, instance, i);
      hide Release;
    case Visit(_, _, _) =>
      VisitConfig(m, a, i);
      hide Apply;
    case ForgetStream(_) =>
    case _ =>
      HandleConfig(m, a, i);
      hide Apply;
  }

  lemma HandleConfig(m: Manager, a: Action, i: nat)
    requires SlotsInv(m) && i < |m.slots| && (a.RequestDestroy? || a.ChangeTheme? || a.ReceiveAck?)
    ensures |Apply(m, a).slots| == |m.slots|
    ensures Apply(m, a).slots[i].Some? ==>
      m.slots[i].Some? && ConfigEvolves(m, a, i, m.slots[i].value, Apply(m, a).slots[i].value)
  {
    var at := Find(m.slots, a.id);
    assert at < |m.slots| && Has(m.slots[i], a.id) ==> i == at;
    hide SlotsInv, Find;
  }

  predicate SameConfig(g: Graph, g': Graph) {
    g' == g.(streams := g'.streams)
  }

  lemma ReleaseConfig(m: Manager, instance: nat, i: nat)
    requires i < |m.slots|
    ensures var m' := Release(m, instance);
      && |m'.slots| == |m.slots| && m'.serials == m.serials && m'.nextId == m.nextId
      && (m'.slots[i].Some? <==> m.slots[i].Some?)
      && (m.slots[i].Some? ==> SameConfig(m.slots[i].value, m'.slots[i].value))
  {
  }

  lemma AttachConfig(m: Manager, instance: nat, id: nat, first: Domain, second: Domain, i: nat)
    requires i < |m.slots| && Accepts(m, id, first, second)
    ensures var m' := Attach(m, instance, id);
      && |m'.slots| == |m.slots| && m'.serials == m.serials && m'.nextId == m.nextId
      && (m'.slots[i].Some? <==> m.slots[i].Some?)
      && (m.slots[i].Some? ==> SameConfig(m.slots[i].value, m'.slots[i].value))
  {
  }

  lemma CreateKeepsPlugin(m: Manager, versions: map<nat, seq<Version>>, a: Action)
    requires PluginInv(m, versions) && a.CreateGraph? && 0 <= a.time <= INT64_MAX
    requires Apply(m, a).serials <= MAX_HANDLE_ID
    ensures PluginInv(Apply(m, a), NewVersions(m, a, versions))
  {
    StepKeepsSlots(m, a);
    FreshHandle(m, versions, a);
    hide SlotsInv;
    if Register(m, a.domain, a.theme, a.time).0 == Registered {
      CreatedIsCurrent(m, versions, a);
      hide Register, AllCurrent, NoStreams;
    }
  }

  lemma CreatedIsCurrent(m: Manager, versions: map<nat, seq<Version>>, a: Action)
    requires PluginInv(m, versions) && a.CreateGraph? && Apply(m, a).serials <= MAX_HANDLE_ID
    requires Register(m, a.domain, a.theme, a.time).0 == Registered
    ensures AllCurrent(Apply(m, a).slots, NewVersions(m, a, versions))
  {
    FreshHandle(m, versions, a);
    hide SlotsInv, Register, AllNumbered;
    forall i | 0 <= i < |m.slots| && Apply(m, a).slots[i].Some?
      ensures IsCurrent(Apply(m, a).slots[i].value, NewVersions(m, a, versions))
    {
      assert i != FirstFree(m.slots) ==> IsCurrent(m.slots[i].value, versions);
    }
  }

  lemma OtherKeepsPlugin(m: Manager, versions: map<nat, seq<Version>>, a: Action)
    requires PluginInv(m, versions) && !a.CreateGraph?
    requires forall id :: id in NewVersions(m, a, versions) ==>
      |NewVersions(m, a, versions)[id]| <= INT64_MAX + 1
    ensures PluginInv(Apply(m, a), NewVersions(m, a, versions))
  {
    StepKeepsSlots(m, a);
    if Changes(m, a) {
      ChangeKeepsPlugin(m, versions, a);
    } else {
      UnchangedKeepsCurrent(m, versions, a);
      Unresized(m, a);
      hide Apply, SlotsInv, AllNumbered, AllCurrent;
    }
  }

  lemma UnchangedKeepsCurrent(m: Manager, versions: map<nat, seq<Version>>, a: Action)
    requires PluginInv(m, versions) && !a.CreateGraph? && !Changes(m, a)
    ensures AllCurrent(Apply(m, a).slots, versions)
  {
    SlotConfigs(m, a);
    hide Apply, SlotsInv, AllNumbered, HandlesInv;
  }

  lemma ChangeKeepsPlugin(m: Manager, versions: map<nat, seq<Version>>, a: Action)
    requires PluginInv(m, versions) && Changes(m, a)
    requires a.id in NewVersions(m, a, versions) && |NewVersions(m, a, versions)[a.id]| <= INT64_MAX + 1
    ensures PluginInv(Apply(m, a), NewVersions(m, a, versions))
  {
    StepKeepsSlots(m, a);
    SlotConfigs(m, a);
    assert IsCurrent(m.slots[Find(m.slots, a.id)].value, versions);
    ChangeNumbers(m, versions, a);
    hide Apply, SlotsInv, Numbered, NewVersions;
  }

  lemma Unresized(m: Manager, a: Action)
    requires !a.CreateGraph?
    ensures |Apply(m, a).slots| == |m.slots| && Apply(m, a).serials == m.serials
    ensures Apply(m, a).nextId == m.nextId
  {
  }

  lemma SlotConfigs(m: Manager, a: Action)
    requires SlotsInv(m) && !a.CreateGraph?
    ensures |Apply(m, a).slots| == |m.slots| && Apply(m, a).serials == m.serials
    ensures Apply(m, a).nextId == m.nextId
    ensures forall i :: 0 <= i < |m.slots| && Apply(m, a).slots[i].Some? ==>
      m.slots[i].Some? && ConfigEvolves(m, a, i, m.slots[i].value, Apply(m, a).slots[i].value)
  {
    Unresized(m, a);
    forall i | 0 <= i < |m.slots| && Apply(m, a).slots[i].Some?
      ensures m.slots[i].Some? && ConfigEvolves(m, a, i, m.slots[i].value, Apply(m, a).slots[i].value)
    {
      SlotConfig(m, a, i);
    }
  }

  lemma ChangeNumbers(m: Manager, versions: map<nat, seq<Version>>, a: Action)
    requires PluginInv(m, versions) && Changes(m, a) && |versions[a.id]| <= INT64_MAX
    ensures var next := versions[a.id]
        + [Version(NextSequence(m.slots[Find(m.slots, a.id)].value.sequence), a.theme)];
      NewVersions(m, a, versions) == versions[a.id := next] && Numbered(next)
  {
  }

  predicate Extends(versions: map<nat, seq<Version>>, versions': map<nat, seq<Version>>) {
    forall id :: id in versions ==> id in versions' && versions[id] <= versions'[id]
  }

  lemma VersionsExtend(m: Manager, versions: map<nat, seq<Version>>, a: Action)
    requires PluginInv(m, versions) && Apply(m, a).serials <= MAX_HANDLE_ID
    ensures Extends(versions, NewVersions(m, a, versions))
  {
    if a.CreateGraph? && Register(m, a.domain, a.theme, a.time).0 == Registered {
      RegisterOutcome(m, a.domain, a.theme, a.time);
      FreshHandle(m, versions, a);
    }
  }

  // ---------------------------------------------------------------- preservation

  lemma OrderedAppend(a: seq<Stamped>, b: seq<Stamped>)
    requires Ordered(a) && Ordered(b)
    requires forall i, j :: 0 <= i < |a| && 0 <= j < |b| ==> InOrder(a[i], b[j])
    ensures Ordered(a + b)
  {
  }

  /** What a visit sends comes after everything sent before. */
  lemma SentInOrder(w: World, g: Graph, now: nat)
    requires WorldInv(w) && Some(g) in w.plugin.slots
    ensures var out := Stamps(Emitted(g, now), w.versions);
      && Ordered(out)
      && (forall i, j :: 0 <= i < |w.channel| && 0 <= j < |out| ==> InOrder(w.channel[i], out[j]))
      && (forall j :: 0 <= j < |out| && out[j].msg.Config? ==> Timely(w, out[j]))
      && (forall j :: 0 <= j < |out| && out[j].msg.Close? ==>
            Bursts(Emitted(g, now)) && out[j].msg.id == Emitted(g, now)[0].id)
  {
    EmittedShape(g, now);
    hide Emitted;
    assert g.id in w.versions;
    forall i | 0 <= i < |w.channel|
      ensures !g.closeRequested ==>
        InOrder(w.channel[i], Stamped(Config(g.id, g.sequence, g.theme), Current(w.versions, g.id)))
    {
      assert Timely(w, w.channel[i]);
    }
  }

  lemma VisitKeepsChannel(w: World, a: Action)
    requires WorldInv(w) && a.Visit?
    ensures ChannelInv(PluginStep(w, a)) && ViewerInv(PluginStep(w, a))
  {
    var out := Emits(w.plugin, a);
    hide Apply, PluginInv, FlagsInv, Emitted;
    if out != [] {
      var g := w.plugin.slots[a.slot].value;
      SentInOrder(w, g, a.now);
      OrderedAppend(w.channel, Stamps(out, w.versions));
      hide Ordered, InOrder;
    } else {
      assert Stamps([], w.versions) == [];
      assert w.channel + [] == w.channel;
    }
  }

  lemma EmittedShape(g: Graph, now: nat)
    ensures Emitted(g, now) == []
      || (Emitted(g, now) == [Config(g.id, g.sequence, g.theme)] && !g.acked && !g.closeRequested)
      || (Emitted(g, now) == Closes(g.id, WATCH_GRAPH_CLOSE_REPETITIONS)
          && g.acked && g.closeRequested && !g.closeSent && Bursts(Emitted(g, now))
          && Emitted(g, now)[0].id == g.id)
  {
  }

  /** An opcode's step sends nothing. */
  lemma OpcodeKeepsChannel(w: World, a: Action)
    requires WorldInv(w) && !a.Visit? && Apply(w.plugin, a).serials <= MAX_HANDLE_ID
    ensures ChannelInv(PluginStep(w, a)) && ViewerInv(PluginStep(w, a))
  {
    OpcodeKeepsViewer(w, a);
    VersionsExtend(w.plugin, w.versions, a);
    hide Apply, NewVersions, PluginInv, FlagsInv, Ordered, ViewerInv;
    assert Stamps([], w.versions) == [];
    assert w.channel + [] == w.channel;
  }

  lemma OpcodeKeepsViewer(w: World, a: Action)
    requires WorldInv(w) && !a.Visit? && Apply(w.plugin, a).serials <= MAX_HANDLE_ID
    ensures ViewerInv(PluginStep(w, a))
  {
    VersionsExtend(w.plugin, w.versions, a);
    ViewerExtends(w, PluginStep(w, a));
    hide ViewerInv, WorldInv, Apply, NewVersions;
  }

  /** The viewer's side is not touched by newer configurations and further closes. */
  lemma ViewerExtends(w: World, w': World)
    requires ViewerInv(w) && Extends(w.versions, w'.versions)
    requires w'.applied == w.applied && w'.windows == w.windows && w'.acks == w.acks
    requires w'.closed == w.closed && w.bursts <= w'.bursts
    ensures ViewerInv(w')
  {
    assert AppliedInv(w') && WindowsInv(w');
    AcksExtend(w, w');
    hide AcksInv, WindowsInv, AppliedInv;
  }

  lemma AcksExtend(w: World, w': World)
    requires AppliedInv(w) && AcksInv(w) && AppliedInv(w') && Extends(w.versions, w'.versions)
    requires w'.applied == w.applied && w'.acks == w.acks
    ensures AcksInv(w')
  {
  }

  lemma CreateKeepsFlags(w: World, a: Action)
    requires WorldInv(w) && a.CreateGraph? && NoWrap(PluginStep(w, a))
    ensures FlagsInv(PluginStep(w, a))
  {
    VersionsExtend(w.plugin, w.versions, a);
    FreshHandle(w.plugin, w.versions, a);
    CreateKeepsAllFlags(w, a);
    hide Apply, NewVersions, PluginInv, ChannelInv, ViewerInv, AllFlags;
  }

  lemma CreateKeepsAllFlags(w: World, a: Action)
    requires WorldInv(w) && a.CreateGraph? && NoWrap(PluginStep(w, a))
    ensures AllFlags(PluginStep(w, a))
  {
    var w' := PluginStep(w, a);
    FreshHandle(w.plugin, w.versions, a);
    if Register(w.plugin, a.domain, a.theme, a.time).0 == Registered {
      hide Register, ChannelInv, SlotsInv;
      var slot := FirstFree(w.plugin.slots);
      assert w'.plugin.slots[slot].value.id !in w.versions;
      assert w'.plugin.slots[slot].value.id !in w.bursts;
      forall i | 0 <= i < |w'.plugin.slots| && w'.plugin.slots[i].Some?
        ensures Flags(w', w'.plugin.slots[i].value)
      {
        if i != slot {
          assert Flags(w, w.plugin.slots[i].value) && IsCurrent(w.plugin.slots[i].value, w.versions);
        }
      }
    }
  }

  lemma OtherKeepsFlags(w: World, a: Action)
    requires WorldInv(w) && Enabled(w, Plugin(a)) && !a.CreateGraph? && NoWrap(PluginStep(w, a))
    ensures FlagsInv(PluginStep(w, a))
  {
    VersionsExtend(w.plugin, w.versions, a);
    SlotConfigs(w.plugin, a);
    var w' := PluginStep(w, a);
    forall i | 0 <= i < |w'.plugin.slots| && w'.plugin.slots[i].Some?
      ensures Flags(w', w'.plugin.slots[i].value)
    {
      SlotKeepsFlags(w, a, i);
    }
    BurstsStayDistinct(w, a);
    hide *;
  }

  lemma SlotKeepsFlags(w: World, a: Action, i: nat)
    requires WorldInv(w) && !a.CreateGraph? && !a.ReceiveAck? && NoWrap(PluginStep(w, a))
    requires i < |PluginStep(w, a).plugin.slots| && PluginStep(w, a).plugin.slots[i].Some?
    ensures Flags(PluginStep(w, a), PluginStep(w, a).plugin.slots[i].value)
  {
    SlotConfigs(w.plugin, a);
    var g := w.plugin.slots[i].value;
    assert Flags(w, g) && IsCurrent(g, w.versions);
    BurstIsFromVisit(w, a);
    hide Apply, Emits, ChannelInv, ViewerInv, AllFlags, AllNumbered, HandlesInv;
  }

  /** A burst is sent exactly by the visit of an acknowledged graph whose closing is due. */
  lemma BurstIsFromVisit(w: World, a: Action)
    ensures Bursts(Emits(w.plugin, a)) <==>
      && a.Visit? && a.slot < |w.plugin.slots| && w.plugin.slots[a.slot].Some?
      && var g := w.plugin.slots[a.slot].value; g.acked && g.closeRequested && !g.closeSent
    ensures Bursts(Emits(w.plugin, a)) ==> Emits(w.plugin, a)[0].id == w.plugin.slots[a.slot].value.id
  {
    if a.Visit? && a.slot < |w.plugin.slots| && w.plugin.slots[a.slot].Some? {
      EmittedShape(w.plugin.slots[a.slot].value, a.now);
    }
  }

  lemma BurstsStayDistinct(w: World, a: Action)
    requires WorldInv(w) && Extends(w.versions, PluginStep(w, a).versions)
    ensures BurstsInv(PluginStep(w, a))
  {
    BurstIsFromVisit(w, a);
    if Bursts(Emits(w.plugin, a)) {
      var g := w.plugin.slots[a.slot].value;
      assert Flags(w, g) && IsCurrent(g, w.versions);
    }
    hide Apply, Emits, NewVersions, ChannelInv, ViewerInv, PluginInv, AllFlags;
  }

  lemma ConfigKeepsChannel(w: World, ok: bool)
    requires WorldInv(w) && w.channel != [] && w.channel[0].msg.Config?
    ensures ChannelInv(Step(w, Deliver(ok)))
  {
    hide PluginInv, ViewerInv, FlagsInv;
    assert forall j :: 1 <= j < |w.channel| ==>
      InOrder(w.channel[0], w.channel[j]) && Timely(w, w.channel[j]);
  }

  lemma ConfigArrives(w: World, ok: bool)
    requires WorldInv(w) && w.channel != [] && w.channel[0].msg.Config?
    ensures WorldInv(Step(w, Deliver(ok)))
  {
    ConfigKeepsChannel(w, ok);
    ConfigKeepsViewer(w, ok);
    ConfigKeepsFlags(w, ok);
    hide PluginInv, ChannelInv, ViewerInv, FlagsInv;
  }

  lemma ConfigKeepsFlags(w: World, ok: bool)
    requires WorldInv(w) && w.channel != [] && w.channel[0].msg.Config?
    ensures FlagsInv(Step(w, Deliver(ok)))
  {
    var w' := Step(w, Deliver(ok));
    assert Timely(w, w.channel[0]);
    hide PluginInv, Ordered, ViewerInv;
    forall i | 0 <= i < |w'.plugin.slots| && w'.plugin.slots[i].Some?
      ensures Flags(w', w'.plugin.slots[i].value)
    {
      assert Flags(w, w.plugin.slots[i].value);
    }
    hide Flags, ChannelInv;
  }

  lemma ConfigKeepsViewer(w: World, ok: bool)
    requires WorldInv(w) && w.channel != [] && w.channel[0].msg.Config?
    ensures ViewerInv(Step(w, Deliver(ok)))
  {
    assert Timely(w, w.channel[0]);
    hide PluginInv, ChannelInv, FlagsInv;
    assert AppliedInv(Step(w, Deliver(ok)));
    ConfigKeepsAcks(w, ok);
    hide AcksInv;
  }

  lemma ConfigKeepsAcks(w: World, ok: bool)
    requires w.channel != [] && w.channel[0].msg.Config? && Timely(w, w.channel[0])
    requires AppliedInv(w) && AcksInv(w)
    ensures AppliedInv(Step(w, Deliver(ok))) && AcksInv(Step(w, Deliver(ok)))
  {
  }

  lemma CloseArrives(w: World, ok: bool)
    requires WorldInv(w) && w.channel != [] && w.channel[0].msg.Close?
    ensures WorldInv(Step(w, Deliver(ok)))
  {
    var w', p := Step(w, Deliver(ok)), w.channel[0];
    assert Timely(w, p);
    assert ChannelInv(w') by {
      hide PluginInv, ViewerInv, FlagsInv;
      assert forall j :: 1 <= j < |w.channel| ==> InOrder(p, w.channel[j]) && Timely(w, w.channel[j]);
    }
    hide PluginInv, Ordered, ChannelInv;
  }

  lemma DropKeepsChannel(w: World, i: nat)
    requires ChannelInv(w) && i < |w.channel|
    ensures ChannelInv(Step(w, Drop(i)))
  {
    var w' := Step(w, Drop(i));
    assert forall j :: 0 <= j < |w'.channel| ==> w'.channel[j] == w.channel[if j < i then j else j + 1];
    assert forall p :: Timely(w', p) <==> Timely(w, p);
    hide InOrder, Timely;
  }

  lemma RepeatKeepsChannel(w: World, i: nat)
    requires ChannelInv(w) && i < |w.channel|
    ensures ChannelInv(Step(w, Repeat(i)))
  {
    var w' := Step(w, Repeat(i));
    assert forall j :: 0 <= j < |w'.channel| ==> w'.channel[j] == w.channel[if j <= i then j else j - 1];
    assert forall p :: Timely(w', p) <==> Timely(w, p);
    assert InOrder(w.channel[i], w.channel[i]);
    hide InOrder, Timely;
  }

  lemma ChannelStepKeepsInv(w: World, e: Event)
    requires WorldInv(w) && Enabled(w, e) && (e.Drop? || e.Repeat? || e.UserCloses?)
    ensures WorldInv(Step(w, e))
  {
    hide PluginInv;
    match e
    case Drop(i) =>
      DropKeepsChannel(w, i);
      hide ChannelInv;
    case Repeat(i) =>
      RepeatKeepsChannel(w, i);
      hide ChannelInv;
    case UserCloses(_) =>
      hide Ordered, FlagsInv, Carries;
  }

  lemma AckKeepsInv(w: World, ack: Ack)
    requires WorldInv(w) && Enabled(w, AckArrives(ack)) && NoWrap(w)
    ensures WorldInv(Step(w, AckArrives(ack)))
  {
    var a := ReceiveAck(ack.id, ack.sequence);
    OtherKeepsPlugin(w.plugin, w.versions, a);
    SlotConfigs(w.plugin, a);
    hide Apply;
    forall i | 0 <= i < |w.plugin.slots| && w.plugin.slots[i].Some?
      && w.plugin.slots[i].value.id == ack.id && w.plugin.slots[i].value.sequence == ack.sequence
      ensures ack.stamp == Current(w.versions, ack.id)
    {
      SequencesDiffer(w.versions[ack.id], ack.stamp, Current(w.versions, ack.id));
    }
  }

  /** Every step of either side or of the channels keeps the whole invariant. */
  lemma StepKeepsInv(w: World, e: Event)
    requires WorldInv(w) && Enabled(w, e) && NoWrap(w) && NoWrap(Step(w, e))
    ensures WorldInv(Step(w, e))
  {
    match e
    case Plugin(a) =>
      if a.CreateGraph? {
        CreateKeepsPlugin(w.plugin, w.versions, a);
      } else {
        OtherKeepsPlugin(w.plugin, w.versions, a);
      }
      if a.Visit? {
        VisitKeepsChannel(w, a);
      } else {
        OpcodeKeepsChannel(w, a);
      }
      if a.CreateGraph? {
        CreateKeepsFlags(w, a);
      } else {
        OtherKeepsFlags(w, a);
      }
    case AckArrives(ack) => AckKeepsInv(w, ack);
    case Deliver(ok) =>
      if w.channel[0].msg.Config? { ConfigArrives(w, ok); } else { CloseArrives(w, ok); }
    case _ => ChannelStepKeepsInv(w, e);
  }
}
