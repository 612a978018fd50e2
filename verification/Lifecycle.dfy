/** Whole runs of the registry: what is freed, when, and what never is. */
module Lifecycle {
  import opened Samples
  import opened StreamOps
  import opened Registry

  predicate IsInitial(m: Manager) {
    && 0 < |m.slots| < MAX_HANDLE_ID
    && (forall i :: 0 <= i < |m.slots| ==> m.slots[i] == None)
    && m.count == 0 && m.nextId == 1 && m.refs == map[] && m.serials == 0 && m.keys == 0
  }

  predicate IsRun(states: seq<Manager>, actions: seq<Action>) {
    && |states| == |actions| + 1
    && forall i :: 0 <= i < |actions| ==> states[i + 1] == Apply(states[i], actions[i])
  }

  /** In every reachable state the slot count is exact, live handles are distinct and in
      range, and every pointer an instance holds is good. */
  lemma {:induction false} RunKeepsInv(states: seq<Manager>, actions: seq<Action>, k: nat)
    requires IsRun(states, actions) && IsInitial(states[0]) && k < |states|
    ensures Inv(states[k])
  {
    if k == 0 {
      NothingOccupied(states[0].slots);
    } else {
      RunKeepsInv(states, actions, k - 1);
      StepKeepsInv(states[k - 1], actions[k - 1]);
    }
  }

  predicate Touches(a: Action, o: Owner) {
    (a.CreateStream? || a.ReleaseStream? || a.ForgetStream?) && o == Instance(a.instance)
  }

  lemma PointerStays(m: Manager, a: Action, o: Owner)
    requires Inv(m) && o in m.refs && !Touches(a, o)
    ensures o in Apply(m, a).refs && Apply(m, a).refs[o] == m.refs[o]
  {
    hide SlotsInv, SetStream, Register, Live, SameCell, FreedByVisit, Visited;
    if a.CreateGraph? {
      CreateKeepsPointers(m, a);
      hide Apply;
    }
  }

  lemma CreateKeepsPointers(m: Manager, a: Action)
    requires SlotsInv(m) && a.CreateGraph?
    ensures Apply(m, a).refs == m.refs
  {
    RegisterOutcome(m, a.domain, a.theme, a.time);
  }

  /** Whatever others do, the stream an opcode instance holds stays where it is, unreleased,
      until that instance lets go of it. */
  lemma HeldStreamIsNeverFreed(m: Manager, a: Action, instance: nat)
    requires Inv(m) && Instance(instance) in m.refs
    ensures var o := Instance(instance);
      && Live(m.slots, m.refs[o])
      && (!Touches(a, o) ==>
            o in Apply(m, a).refs && Apply(m, a).refs[o] == m.refs[o]
            && Live(Apply(m, a).slots, m.refs[o]))
  {
    StepKeepsRefs(m, a);
    hide Live, Apply, SlotsInv;
    if !Touches(a, Instance(instance)) {
      PointerStays(m, a, Instance(instance));
    }
  }

  /** The graph allocation `serial`, once in slot `i`, is in that slot or nowhere. */
  predicate Since(m: Manager, i: nat, serial: nat) {
    && i < |m.slots| && serial < m.serials
    && (m.slots[i].Some? ==> m.slots[i].value.serial >= serial)
  }

  predicate IsAt(m: Manager, i: nat, serial: nat) {
    i < |m.slots| && m.slots[i].Some? && m.slots[i].value.serial == serial
  }

  function KeysOf(g: Graph): set<nat> {
    set j | 0 <= j < |g.streams| && g.streams[j].Some? :: g.streams[j].value.key
  }

  /** From the moment its destruction is requested, a graph loses streams and never gains
      one, and the request stands, for as long as the graph lives. */
  lemma {:induction false} StreamsOnlyShrink(states: seq<Manager>, actions: seq<Action>,
                                             from: nat, later: nat, i: nat)
    requires IsRun(states, actions) && IsInitial(states[0]) && from <= later < |states|
    requires i < |states[from].slots| && states[from].slots[i].Some?
    requires states[from].slots[i].value.destroyRequested
    ensures Since(states[later], i, states[from].slots[i].value.serial)
    ensures IsAt(states[later], i, states[from].slots[i].value.serial) ==>
      && states[later].slots[i].value.destroyRequested
      && KeysOf(states[later].slots[i].value) <= KeysOf(states[from].slots[i].value)
    decreases later
  {
    RunKeepsInv(states, actions, from);
    if from < later {
      StreamsOnlyShrink(states, actions, from, later - 1, i);
      RunKeepsInv(states, actions, later - 1);
      SlotStep(states[later - 1], actions[later - 1], i);
    }
  }

  /** A graph leaves the registry only in a visit of the sender, after its destruction was
      requested, with every stream it still had released; each of those had sent
      everything unless the graph was abandoned. Nothing anybody holds goes with it. */
  lemma FreedOnlyWhenFinished(m: Manager, a: Action, i: nat)
    requires Inv(m) && i < |m.slots| && m.slots[i].Some?
    requires !IsAt(Apply(m, a), i, m.slots[i].value.serial)
    ensures a.Visit? && a.slot == i && m.slots[i].value.destroyRequested
    ensures forall j :: 0 <= j < |m.slots[i].value.streams| && m.slots[i].value.streams[j].Some? ==>
      && m.slots[i].value.streams[j].value.released
      && (Abandoned(m.slots[i].value) || m.slots[i].value.streams[j].value.key in a.complete)
    ensures forall o :: o in m.refs ==> m.refs[o].slot != i
  {
    SlotStep(m, a, i);
    FreedExactly(m.slots[i].value, a.now, a.complete);
    forall o | o in m.refs
      ensures m.refs[o].slot != i
    {
      assert Live(m.slots, m.refs[o]);
    }
  }

  /** A stream whose only pointer was overwritten (a spectral reinit clears it before it is
      released) is never freed, and its graph never leaves the registry. */
  lemma {:induction false} LostStreamPinsGraph(states: seq<Manager>, actions: seq<Action>,
                                               from: nat, later: nat, n: nat)
    requires IsRun(states, actions) && IsInitial(states[0]) && from <= later < |states|
    requires Lost(n) in states[from].refs
    ensures Lost(n) in states[later].refs && states[later].refs[Lost(n)] == states[from].refs[Lost(n)]
    ensures Live(states[from].slots, states[from].refs[Lost(n)])
    ensures Live(states[later].slots, states[from].refs[Lost(n)])
    ensures var i := states[from].refs[Lost(n)].slot;
      IsAt(states[later], i, states[from].slots[i].value.serial)
    decreases later
  {
    RunKeepsInv(states, actions, from);
    if from < later {
      LostStreamPinsGraph(states, actions, from, later - 1, n);
      RunKeepsInv(states, actions, later - 1);
      LostStep(states[later - 1], actions[later - 1], n);
    }
  }

  lemma LostStep(m: Manager, a: Action, n: nat)
    requires Inv(m) && Lost(n) in m.refs
    ensures Lost(n) in Apply(m, a).refs && Apply(m, a).refs[Lost(n)] == m.refs[Lost(n)]
    ensures Live(Apply(m, a).slots, m.refs[Lost(n)])
    ensures IsAt(Apply(m, a), m.refs[Lost(n)].slot, m.slots[m.refs[Lost(n)].slot].value.serial)
  {
    StepKeepsRefs(m, a);
    assert Live(m.slots, m.refs[Lost(n)]);
    SlotStep(m, a, m.refs[Lost(n)].slot);
    PointerStays(m, a, Lost(n));
    assert Live(Apply(m, a).slots, Apply(m, a).refs[Lost(n)]);
    hide Apply, Inv;
  }

  /** An acknowledged or abandoned graph whose destruction was requested and whose streams
      are all released and drained is gone after the next visit. */
  lemma FinishedGraphIsFreed(m: Manager, i: nat, now: nat, complete: set<nat>)
    requires Inv(m) && i < |m.slots| && m.slots[i].Some?
    requires m.slots[i].value.destroyRequested
    requires m.slots[i].value.acked || Abandoned(m.slots[i].value)
    requires forall j :: 0 <= j < |m.slots[i].value.streams| && m.slots[i].value.streams[j].Some? ==>
      m.slots[i].value.streams[j].value.released && m.slots[i].value.streams[j].value.key in complete
    ensures Apply(m, Visit(i, now, complete)).slots[i] == None
    ensures Apply(m, Visit(i, now, complete)).count == m.count - 1
  {
    FreedExactly(m.slots[i].value, now, complete);
    CountIsPositive(m.slots, i);
  }

  // ---------------------------------------------------------------- what keeps a graph

  predicate Unreleased(slots: seq<Option<Graph>>, i: nat, j: nat) {
    && i < |slots| && slots[i].Some?
    && j < |slots[i].value.streams| && slots[i].value.streams[j].Some?
    && !slots[i].value.streams[j].value.released
  }

  predicate PointsAt(m: Manager, o: Owner, i: nat, j: nat) {
    o in m.refs && m.refs[o].slot == i && m.refs[o].index == j
  }

  ghost predicate HasOwner(m: Manager, i: nat, j: nat) {
    exists o :: PointsAt(m, o, i, j)
  }

  /** Every stream not yet released is held by an instance, or its pointer was lost. */
  ghost predicate OwnedInv(m: Manager) {
    forall i, j :: Unreleased(m.slots, i, j) ==> HasOwner(m, i, j)
  }

  lemma ReleaseKeepsOwned(m: Manager, instance: nat)
    requires RefsInv(m) && OwnedInv(m)
    ensures OwnedInv(Release(m, instance))
  {
    var m' := Release(m, instance);
    forall i, j | Unreleased(m'.slots, i, j)
      ensures HasOwner(m', i, j)
    {
      assert Unreleased(m.slots, i, j);
      var o :| PointsAt(m, o, i, j);
      assert o == Instance(instance) ==> Live(m.slots, m.refs[o]);
      assert PointsAt(m', o, i, j);
    }
  }

  lemma AttachKeepsOwned(m: Manager, instance: nat, id: nat, first: Domain, second: Domain)
    requires OwnedInv(m) && Instance(instance) !in m.refs && Accepts(m, id, first, second)
    ensures OwnedInv(Attach(m, instance, id))
  {
    var m' := Attach(m, instance, id);
    forall i, j | Unreleased(m'.slots, i, j)
      ensures HasOwner(m', i, j)
    {
      if PointsAt(m', Instance(instance), i, j) {
      } else {
        assert Unreleased(m.slots, i, j);
        var o :| PointsAt(m, o, i, j);
        assert PointsAt(m', o, i, j);
      }
    }
  }

  lemma ForgetKeepsOwned(m: Manager, instance: nat)
    requires RefsInv(m) && OwnedInv(m)
    ensures OwnedInv(Apply(m, ForgetStream(instance)))
  {
    var m' := Apply(m, ForgetStream(instance));
    forall i, j | Unreleased(m'.slots, i, j)
      ensures HasOwner(m', i, j)
    {
      var o :| PointsAt(m, o, i, j);
      assert PointsAt(m', if o == Instance(instance) then Lost(m.keys) else o, i, j);
    }
  }

  /** Actions that touch no pointer and unrelease no stream. */
  lemma OthersKeepOwned(m: Manager, a: Action)
    requires Inv(m) && OwnedInv(m) && !(a.CreateStream? || a.ReleaseStream? || a.ForgetStream?)
    ensures OwnedInv(Apply(m, a))
  {
    var m' := Apply(m, a);
    forall i, j | Unreleased(m'.slots, i, j)
      ensures HasOwner(m', i, j)
    {
      StillUnreleased(m, a, i, j);
      hide Apply, Inv;
      var o :| PointsAt(m, o, i, j);
      PointerStays(m, a, o);
      assert PointsAt(m', o, i, j);
    }
  }

  lemma StillUnreleased(m: Manager, a: Action, i: nat, j: nat)
    requires Inv(m) && !(a.CreateStream? || a.ReleaseStream? || a.ForgetStream?)
    requires Unreleased(Apply(m, a).slots, i, j)
    ensures Unreleased(m.slots, i, j)
  {
    hide RefsInv;
    if a.CreateGraph? {
      RegisterOutcome(m, a.domain, a.theme, a.time);
    }
  }

  lemma StepKeepsOwned(m: Manager, a: Action)
    requires Inv(m) && OwnedInv(m)
    ensures OwnedInv(Apply(m, a))
  {
    hide OwnedInv, RefsInv, SlotsInv;
    match a
    case CreateStream(instance, id, first, second, hasMemory) =>
      ReleaseKeepsOwned(m, instance);
      ReleaseKeepsRefs(m, instance);
      var m1 := Release(m, instance);
      if hasMemory && Accepts(m1, id, first, second) {
        AttachKeepsOwned(m1, instance, id, first, second);
      }
    case ReleaseStream(instance) => ReleaseKeepsOwned(m, instance);
    case ForgetStream(instance) => ForgetKeepsOwned(m, instance);
    case _ => OthersKeepOwned(m, a);
  }

  lemma {:induction false} RunKeepsOwned(states: seq<Manager>, actions: seq<Action>, k: nat)
    requires IsRun(states, actions) && IsInitial(states[0]) && k < |states|
    ensures OwnedInv(states[k])
  {
    if k > 0 {
      RunKeepsOwned(states, actions, k - 1);
      RunKeepsInv(states, actions, k - 1);
      StepKeepsOwned(states[k - 1], actions[k - 1]);
    }
  }

  /** In every reachable state: a visit frees a graph whose destruction was requested, which
      is acknowledged or abandoned and whose released streams are drained if they must be,
      exactly when no instance holds a stream of it and no pointer into it was lost. */
  lemma PinnedExactly(states: seq<Manager>, actions: seq<Action>, k: nat, i: nat, now: nat,
                      complete: set<nat>)
    requires IsRun(states, actions) && IsInitial(states[0]) && k < |states|
    requires i < |states[k].slots| && states[k].slots[i].Some?
    requires var g := states[k].slots[i].value;
      && g.destroyRequested && (g.acked || Abandoned(g))
      && forall j :: 0 <= j < |g.streams| && g.streams[j].Some? && g.streams[j].value.released ==>
           Abandoned(g) || g.streams[j].value.key in complete
    ensures Apply(states[k], Visit(i, now, complete)).slots[i] == None
      <==> forall o :: o in states[k].refs ==> states[k].refs[o].slot != i
  {
    var m := states[k];
    var g := m.slots[i].value;
    RunKeepsInv(states, actions, k);
    RunKeepsOwned(states, actions, k);
    FreedExactly(g, now, complete);
    hide SlotsInv, Apply;
    forall o | o in m.refs && m.refs[o].slot == i
      ensures !g.streams[m.refs[o].index].value.released
    {
      assert Live(m.slots, m.refs[o]);
    }
    forall j | 0 <= j < |g.streams| && g.streams[j].Some? && !g.streams[j].value.released
      ensures exists o :: o in m.refs && m.refs[o].slot == i
    {
      assert Unreleased(m.slots, i, j);
      var o :| PointsAt(m, o, i, j);
    }
    FreedMeansGone(m, i, now, complete);
  }

  lemma FreedMeansGone(m: Manager, i: nat, now: nat, complete: set<nat>)
    requires i < |m.slots| && m.slots[i].Some?
    ensures Apply(m, Visit(i, now, complete)).slots[i] == None
      <==> FreedByVisit(m.slots[i].value, now, complete)
  {
  }

  // ---------------------------------------------------------------- a lost pointer

  function ReinitCells(n: nat): seq<Option<Stream>> {
    var cells := NoStreams();
    if n == 0 then cells
    else if n == 1 then cells[0 := Some(Stream(0, false))]
    else cells[0 := Some(Stream(0, false))][1 := Some(Stream(2, false))]
  }

  function ReinitState(n: nat, refs: map<Owner, Ref>, keys: nat): Manager {
    Manager([Some(Graph(0, 1, SpectrumDomain, Light, 0, false, None, false, false, false, ReinitCells(n)))],
            1, 2, refs, 1, keys)
  }

  function ReinitStates(): seq<Manager> {
    [Manager([None], 0, 1, map[], 0, 0),
     ReinitState(0, map[], 0),
     ReinitState(1, map[Instance(7) := Ref(0, 0, 0)], 1),
     ReinitState(1, map[Lost(1) := Ref(0, 0, 0)], 2),
     ReinitState(2, map[Lost(1) := Ref(0, 0, 0), Instance(7) := Ref(0, 1, 2)], 3)]
  }

  function ReinitActions(): seq<Action> {
    var add := CreateStream(7, 1, SpectrumDomain, SpectrogramDomain, true);
    [CreateGraph(SpectrumDomain, Light, 0), add, ForgetStream(7), add]
  }

  lemma ReinitCreates()
    ensures Apply(ReinitStates()[0], ReinitActions()[0]) == ReinitStates()[1]
  {
    RegisterOutcome(ReinitStates()[0], SpectrumDomain, Light, 0);
  }

  lemma ReinitAdds()
    ensures Apply(ReinitStates()[1], ReinitActions()[1]) == ReinitStates()[2]
  {
  }

  lemma ReinitAddsAgain()
    ensures Apply(ReinitStates()[3], ReinitActions()[3]) == ReinitStates()[4]
  {
  }

  lemma ReinitForgets()
    ensures Apply(ReinitStates()[2], ReinitActions()[2]) == ReinitStates()[3]
  {
    hide NoStreams;
  }

  /** A spectral instance that is reinitialized inside its note: the second pass clears the
      pointer and adds another stream, and the first stream is lost. */
  lemma ReinitLosesStream()
    ensures IsRun(ReinitStates(), ReinitActions()) && IsInitial(ReinitStates()[0])
    ensures Lost(1) in ReinitStates()[4].refs && Instance(7) in ReinitStates()[4].refs
    ensures ReinitStates()[4].refs[Lost(1)].slot == ReinitStates()[4].refs[Instance(7)].slot == 0
  {
    ReinitCreates();
    ReinitAdds();
    ReinitForgets();
    ReinitAddsAgain();
    hide Apply, ReinitCells;
  }
}
