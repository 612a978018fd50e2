/** When configurations are sent, and sent again, over whole runs of the registry. */
module Retries {
  import opened Samples
  import opened Registry
  import opened Actions
  import Lifecycle

  /** The step sends the configuration of the graph in slot `i`. */
  predicate SendsConfig(m: Manager, a: Action, i: nat) {
    && a.Visit? && a.slot == i && i < |m.slots| && m.slots[i].Some?
    && var g := m.slots[i].value;
       Config(g.id, g.sequence, g.theme) in Emits(m, a)
  }

  /** The step gives the graph in slot `i` another theme. */
  predicate ChangesTheme(m: Manager, a: Action, i: nat) {
    && a.ChangeTheme? && i < |m.slots| && Has(m.slots[i], a.id) && m.slots[i].value.theme != a.theme
  }

  /** Neither an acknowledgement nor a request to close the window stands in the way. */
  predicate Unanswered(g: Graph) {
    !g.acked && !g.closeRequested
  }

  lemma SendsExactly(m: Manager, a: Action, i: nat)
    requires i < |m.slots| && m.slots[i].Some? && a.Visit? && a.slot == i
    ensures var g := m.slots[i].value;
      SendsConfig(m, a, i) <==>
        && Unanswered(g)
        && (g.lastSend == None || a.now < g.lastSend.value || a.now - g.lastSend.value >= 250)
  {
    VisitSends(m, i, a.now, a.complete);
  }

  /** Whoever is in slot `i` with this serial number was last sent at `last`. */
  predicate LastSent(m: Manager, i: nat, serial: nat, last: Option<nat>) {
    && i < |m.slots| && serial < m.serials
    && (m.slots[i].Some? && m.slots[i].value.serial == serial ==> m.slots[i].value.lastSend == last)
  }

  lemma StepKeepsLastSent(m: Manager, a: Action, i: nat, serial: nat, last: Option<nat>)
    requires Inv(m) && LastSent(m, i, serial, last)
    requires m.slots[i].Some? && m.slots[i].value.serial == serial ==>
      !SendsConfig(m, a, i) && !ChangesTheme(m, a, i)
    ensures LastSent(Apply(m, a), i, serial, last)
  {
    SlotStep(m, a, i);
    if m.slots[i].Some? && m.slots[i].value.serial == serial {
      KeepsLastSend(m, a, i);
    }
    hide Apply, Inv, SendsConfig, ChangesTheme;
  }

  /** A step that does not send a graph's configuration and does not change its theme keeps
      the time it was last sent. */
  lemma KeepsLastSend(m: Manager, a: Action, i: nat)
    requires Inv(m) && i < |m.slots| && m.slots[i].Some?
    requires !SendsConfig(m, a, i) && !ChangesTheme(m, a, i)
    ensures |Apply(m, a).slots| == |m.slots|
    ensures Apply(m, a).slots[i].Some? ==> Apply(m, a).slots[i].value.lastSend == m.slots[i].value.lastSend
  {
    match a
    case CreateGraph(domain, theme, time) => RegisterExactly(m, domain, theme, time);
    case RequestDestroy(id, close) => DestroyExactly(m, id, close, i);
    case CreateStream(instance, id, first, second, hasMemory) => CreateKeepsLastSend(m, a, i);
    case ReleaseStream(instance) => ReleaseExactly(m, instance, i);
    case ForgetStream(_) =>
    case ChangeTheme(id, theme) => ThemeExactly(m, id, theme, i);
    case ReceiveAck(id, sequence) => AckExactly(m, id, sequence, i);
    case Visit(slot, now, complete) => VisitKeepsLastSend(m, a, i);
  }

  lemma CreateKeepsLastSend(m: Manager, a: Action, i: nat)
    requires Inv(m) && i < |m.slots| && m.slots[i].Some? && a.CreateStream?
    ensures |Apply(m, a).slots| == |m.slots|
    ensures Apply(m, a).slots[i].Some? ==> Apply(m, a).slots[i].value.lastSend == m.slots[i].value.lastSend
  {
    ReleaseExactly(m, a.instance, i);
    CreateStreamExactly(m, a.instance, a.id, a.first, a.second, a.hasMemory);
    if Instance(a.instance) in Apply(m, a).refs {
      CreateStreamPlaces(m, a.instance, a.id, a.first, a.second);
    }
    hide Apply, Inv, Takes;
  }

  lemma VisitKeepsLastSend(m: Manager, a: Action, i: nat)
    requires i < |m.slots| && m.slots[i].Some? && a.Visit? && !SendsConfig(m, a, i)
    ensures |Apply(m, a).slots| == |m.slots|
    ensures Apply(m, a).slots[i].Some? ==> Apply(m, a).slots[i].value.lastSend == m.slots[i].value.lastSend
  {
    if a.slot < |m.slots| && m.slots[a.slot].Some? {
      VisitExactly(m, a.slot, a.now, a.complete);
      if a.slot == i {
        SendsExactly(m, a, i);
      }
      hide Apply, SendsConfig;
    }
  }

  /** Between `j` and `k` the graph in slot `i` is neither sent nor given another theme. */
  predicate QuietBetween(states: seq<Manager>, actions: seq<Action>, j: nat, k: nat, i: nat)
    requires Lifecycle.IsRun(states, actions) && k <= |actions|
  {
    forall f :: j <= f < k ==> !SendsConfig(states[f], actions[f], i) && !ChangesTheme(states[f], actions[f], i)
  }

  lemma {:induction false} QuietKeepsLastSent(states: seq<Manager>, actions: seq<Action>, j: nat, k: nat,
                                              i: nat, serial: nat, last: Option<nat>)
    requires Lifecycle.IsRun(states, actions) && Lifecycle.IsInitial(states[0]) && j <= k <= |actions|
    requires QuietBetween(states, actions, j, k, i) && LastSent(states[j], i, serial, last)
    ensures LastSent(states[k], i, serial, last)
  {
    hide Lifecycle.IsInitial, LastSent, SendsConfig, ChangesTheme, Apply;
    if j < k {
      QuietKeepsLastSent(states, actions, j, k - 1, i, serial, last);
      Lifecycle.RunKeepsInv(states, actions, k - 1);
      StepKeepsLastSent(states[k - 1], actions[k - 1], i, serial, last);
    }
  }

  /** The graph in slot `i` at `k` is the one that was there at `j`. */
  predicate SameGraph(before: Manager, after: Manager, i: nat) {
    && i < |before.slots| && i < |after.slots| && before.slots[i].Some? && after.slots[i].Some?
    && before.slots[i].value.serial == after.slots[i].value.serial
  }

  /** A configuration that was sent and not answered is sent again exactly when a quarter of
      a second has passed: in every run, after a visit that sent it at time `t`, the next to
      send it is the first visit of that graph at least 250 ms later, or by a clock that went
      back, for as long as it is neither acknowledged, closed nor changed. */
  lemma RetriesExactly(states: seq<Manager>, actions: seq<Action>, j: nat, k: nat, i: nat)
    requires Lifecycle.IsRun(states, actions) && Lifecycle.IsInitial(states[0]) && j < k < |actions|
    requires SendsConfig(states[j], actions[j], i) && QuietBetween(states, actions, j + 1, k, i)
    requires SameGraph(states[j], states[k], i) && actions[k].Visit? && actions[k].slot == i
    ensures var t, now := actions[j].now, actions[k].now;
      SendsConfig(states[k], actions[k], i) <==>
        Unanswered(states[k].slots[i].value) && (now < t || now - t >= 250)
  {
    var m, a := states[j], actions[j];
    var serial := m.slots[i].value.serial;
    Lifecycle.RunKeepsInv(states, actions, j);
    SendsExactly(m, a, i);
    VisitExactly(m, i, a.now, a.complete);
    assert states[j + 1] == Apply(m, a);
    hide Apply, SendsConfig, Lifecycle.IsInitial;
    assert LastSent(states[j + 1], i, serial, Some(a.now)) by {
      SlotStep(m, a, i);
    }
    QuietKeepsLastSent(states, actions, j + 1, k, i, serial, Some(a.now));
    SendsExactly(states[k], actions[k], i);
  }

  /** A new graph is sent at its first visit, unless it was answered or closed before that. */
  lemma NewGraphIsSent(states: seq<Manager>, actions: seq<Action>, j: nat, k: nat, i: nat)
    requires Lifecycle.IsRun(states, actions) && Lifecycle.IsInitial(states[0]) && j < k < |actions|
    requires actions[j].CreateGraph? && i < |states[j].slots| && states[j].slots[i] == None
    requires SameGraph(states[j + 1], states[k], i) && actions[k].Visit? && actions[k].slot == i
    requires QuietBetween(states, actions, j + 1, k, i)
    ensures SendsConfig(states[k], actions[k], i) <==> Unanswered(states[k].slots[i].value)
  {
    var m, a := states[j], actions[j];
    Lifecycle.RunKeepsInv(states, actions, j);
    RegisterExactly(m, a.domain, a.theme, a.time);
    assert states[j + 1] == Apply(m, a);
    hide Apply, SendsConfig, Lifecycle.IsInitial;
    QuietKeepsLastSent(states, actions, j + 1, k, i, m.serials, None);
    SendsExactly(states[k], actions[k], i);
  }

  /** So is a graph that was given another theme. */
  lemma NewThemeIsSent(states: seq<Manager>, actions: seq<Action>, j: nat, k: nat, i: nat)
    requires Lifecycle.IsRun(states, actions) && Lifecycle.IsInitial(states[0]) && j < k < |actions|
    requires ChangesTheme(states[j], actions[j], i)
    requires SameGraph(states[j], states[k], i) && actions[k].Visit? && actions[k].slot == i
    requires QuietBetween(states, actions, j + 1, k, i)
    ensures SendsConfig(states[k], actions[k], i) <==> Unanswered(states[k].slots[i].value)
  {
    var m, a := states[j], actions[j];
    Lifecycle.RunKeepsInv(states, actions, j);
    ThemeExactly(m, a.id, a.theme, i);
    assert states[j + 1] == Apply(m, a);
    hide Apply, SendsConfig, Lifecycle.IsInitial;
    QuietKeepsLastSent(states, actions, j + 1, k, i, m.slots[i].value.serial, None);
    SendsExactly(states[k], actions[k], i);
  }
}
