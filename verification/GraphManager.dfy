/** The plugin's graph manager: the registry array and the code that runs under its lock,
    each method doing exactly what `Registry` says of its action. */
module GraphManager {
  import opened Samples
  import opened StreamOps
  import opened Registry
  import opened Actions

  lemma FindIs(slots: seq<Option<Graph>>, id: nat, i: nat)
    requires i <= |slots| && forall j :: 0 <= j < i ==> !Has(slots[j], id)
    requires i < |slots| ==> Has(slots[i], id)
    ensures Find(slots, id) == i
  {
  }

  lemma FirstFreeIs<T>(cells: seq<Option<T>>, i: nat)
    requires i <= |cells| && forall j :: 0 <= j < i ==> cells[j].Some?
    requires i < |cells| ==> cells[i].None?
    ensures FirstFree(cells) == i
  {
  }

  /** The first `n` slots visited in one pass, and what was sent. */
  function Passed(m: Manager, n: nat, now: nat, complete: set<nat>): (Manager, seq<Message>)
    requires n <= |m.slots|
  {
    if n == 0 then (m, [])
    else
      var (before, sent) := Passed(m, n - 1, now, complete);
      (Apply(before, Visit(n - 1, now, complete)), sent + Emits(before, Visit(n - 1, now, complete)))
  }

  /** A visit changes its own slot, by what that slot holds, and the count. */
  lemma VisitIsLocal(m: Manager, m': Manager, i: nat, now: nat, complete: set<nat>)
    requires i < |m.slots| == |m'.slots| && m.slots[i] == m'.slots[i]
    ensures Emits(m, Visit(i, now, complete)) == Emits(m', Visit(i, now, complete))
    ensures var a := Visit(i, now, complete);
      && Apply(m', a) == m'.(slots := m'.slots[i := Apply(m, a).slots[i]], count := Apply(m', a).count)
      && |Apply(m, a).slots| == |m.slots|
  {
  }

  /** After a pass every slot is what its own visit makes of it; nothing else changes but the
      count. */
  lemma {:induction false} PassedSlots(m: Manager, n: nat, now: nat, complete: set<nat>)
    requires n <= |m.slots|
    ensures var after := Passed(m, n, now, complete).0;
      && |after.slots| == |m.slots|
      && after == m.(slots := after.slots, count := after.count)
      && forall i :: 0 <= i < |m.slots| ==>
           |Apply(m, Visit(i, now, complete)).slots| == |m.slots|
           && after.slots[i] == if i < n then Apply(m, Visit(i, now, complete)).slots[i] else m.slots[i]
  {
    hide Apply;
    forall i | 0 <= i < |m.slots|
      ensures |Apply(m, Visit(i, now, complete)).slots| == |m.slots|
    {
      VisitIsLocal(m, m, i, now, complete);
    }
    if n > 0 {
      PassedSlots(m, n - 1, now, complete);
      VisitIsLocal(m, Passed(m, n - 1, now, complete).0, n - 1, now, complete);
    }
  }

  /** What each slot's own visit sends. */
  function Sends(m: Manager, n: nat, now: nat, complete: set<nat>): (r: seq<seq<Message>>)
    ensures |r| == n && forall i :: 0 <= i < n ==> r[i] == Emits(m, Visit(i, now, complete))
  {
    seq(n, i requires 0 <= i < n => Emits(m, Visit(i, now, complete)))
  }

  lemma SendsSnoc(m: Manager, n: nat, now: nat, complete: set<nat>)
    requires n > 0
    ensures Sends(m, n, now, complete)
      == Sends(m, n - 1, now, complete) + [Emits(m, Visit(n - 1, now, complete))]
  {
  }

  /** A pass sends what the visits of all slots send, in slot order. */
  lemma {:induction false} PassedSends(m: Manager, n: nat, now: nat, complete: set<nat>)
    requires n <= |m.slots|
    ensures Passed(m, n, now, complete).1 == Concat(Sends(m, n, now, complete))
  {
    hide Apply, Emits;
    if n > 0 {
      PassedSlots(m, n - 1, now, complete);
      PassedSends(m, n - 1, now, complete);
      var before := Passed(m, n - 1, now, complete).0;
      VisitIsLocal(m, before, n - 1, now, complete);
      SendsSnoc(m, n, now, complete);
      hide Sends, Concat;
      ConcatSnoc(Sends(m, n - 1, now, complete), Emits(m, Visit(n - 1, now, complete)));
    }
  }

  class GraphRegistry {
    const graphs: array<Option<Graph>>
    var graphCount: nat
    var nextGraphId: nat
    var refs: map<Owner, Ref>
    var serials: nat
    var keys: nat

    ghost function State(): Manager
      reads this, graphs
    {
      Manager(graphs[..], graphCount, nextGraphId, refs, serials, keys)
    }

    ghost predicate Valid()
      reads this, graphs
    {
      Inv(State())
    }

    constructor (capacity: nat)
      requires 0 < capacity < MAX_HANDLE_ID
      ensures Valid() && fresh(graphs) && graphs.Length == capacity
      ensures State() == Manager(seq(capacity, i => None), 0, 1, map[], 0, 0)
    {
      graphs := new Option<Graph>[capacity](_ => None);
      graphCount, nextGraphId, refs, serials, keys := 0, 1, map[], 0, 0;
      new;
      NothingOccupied(graphs[..]);
      assert graphs[..] == seq(capacity, i => None);
    }

    method FindGraph(id: nat) returns (i: nat)
      ensures i == Find(graphs[..], id)
    {
      i := 0;
      while i < graphs.Length
        invariant i <= graphs.Length && forall j :: 0 <= j < i ==> !Has(graphs[j], id)
      {
        if graphs[i].Some? && graphs[i].value.id == id {
          break;
        }
        i := i + 1;
      }
      FindIs(graphs[..], id, i);
    }

    /** Tries at most one handle more than there are slots. */
    method AllocateGraphId() returns (id: nat)
      modifies this`nextGraphId
      ensures (id, nextGraphId) == Allocate(graphs[..], old(nextGraphId), graphs.Length + 1)
    {
      for attempt := 0 to graphs.Length + 1
        invariant Allocate(graphs[..], old(nextGraphId), graphs.Length + 1)
          == Allocate(graphs[..], nextGraphId, graphs.Length + 1 - attempt)
      {
        var candidate := nextGraphId;
        nextGraphId := nextGraphId + 1;
        if nextGraphId == INVALID_HANDLE || nextGraphId > MAX_HANDLE_ID {
          nextGraphId := 1;
        }
        var i := FindGraph(candidate);
        if i == graphs.Length {
          return candidate;
        }
      }
      return INVALID_HANDLE;
    }

    method FirstFreeSlot() returns (i: nat)
      ensures i == FirstFree(graphs[..])
    {
      i := 0;
      while i < graphs.Length && graphs[i].Some?
        invariant i <= graphs.Length && forall j :: 0 <= j < i ==> graphs[j].Some?
      {
        i := i + 1;
      }
      FirstFreeIs(graphs[..], i);
    }

    /** `register_graph` as a computation. */
    method AddGraph(domain: Domain, theme: Theme, time: int) returns (result: RegisterResult, id: nat)
      modifies this, graphs
      ensures (result, State()) == Register(old(State()), domain, theme, time)
      ensures result == Registered ==>
        var slot := FirstFree(old(graphs[..])); slot < graphs.Length && Has(graphs[slot], id)
    {
      hide FirstFree, Allocate;
      id := INVALID_HANDLE;
      if graphCount >= graphs.Length {
        return RegistryFull, id;
      }
      var slot := FirstFreeSlot();
      if slot == graphs.Length {
        return RegistryInconsistent, id;
      }
      id := AllocateGraphId();
      if id == INVALID_HANDLE {
        return HandleUnavailable, id;
      }
      PutGraph(slot, Graph(serials, id, domain, theme, time, false, None, false, false, false, NoStreams()));
      result := Registered;
    }

    /** `register_graph`: only a full registry refuses a graph. */
    method RegisterGraph(domain: Domain, theme: Theme, time: int) returns (result: RegisterResult, id: nat)
      requires Valid()
      modifies this, graphs
      ensures Valid() && (result, State()) == Register(old(State()), domain, theme, time)
      ensures result in {Registered, RegistryFull}
      ensures result == RegistryFull <==> forall i :: 0 <= i < graphs.Length ==> old(graphs[i]).Some?
      ensures result == Registered ==> 1 <= id <= MAX_HANDLE_ID && !old(InUse(graphs[..], id))
      ensures result == Registered ==> Find(graphs[..], id) < graphs.Length
    {
      RegisterOutcome(State(), domain, theme, time);
      StepKeepsInv(State(), CreateGraph(domain, theme, time));
      hide Inv, Allocate, InUse, Occupied, Register, FirstFree;
      result, id := AddGraph(domain, theme, time);
      if result == Registered {
        assert Has(graphs[..][FirstFree(old(graphs[..]))], id);
      }
    }

    /** A new graph in an empty slot. */
    method PutGraph(slot: nat, g: Graph)
      requires slot < graphs.Length
      modifies this`graphCount, this`serials, graphs
      ensures graphs[..] == old(graphs[..])[slot := Some(g)]
      ensures graphCount == old(graphCount) + 1 && serials == old(serials) + 1
    {
      graphs[slot] := Some(g);
      graphCount := graphCount + 1;
      serials := serials + 1;
    }

    /** Writes a graph back to the slot `Find` gave. */
    method UpdateGraph(i: nat, g: Graph)
      requires i < graphs.Length
      modifies graphs
      ensures graphs[..] == old(graphs[..])[i := Some(g)]
    {
      graphs[i] := Some(g);
    }

    method RequestDestroy(id: nat, close: bool)
      requires Valid()
      modifies graphs
      ensures Valid() && State() == Apply(old(State()), Registry.RequestDestroy(id, close))
    {
      StepKeepsInv(State(), Registry.RequestDestroy(id, close));
      hide Inv;
      if id == INVALID_HANDLE {
        return;
      }
      var i := FindGraph(id);
      if i < graphs.Length {
        var g := graphs[i].value;
        UpdateGraph(i, g.(destroyRequested := true,
                          closeRequested := if close then true else g.closeRequested));
      }
    }

    method ChangeTheme(id: nat, theme: Theme) returns (ok: bool)
      requires Valid()
      modifies graphs
      ensures Valid() && State() == Apply(old(State()), Registry.ChangeTheme(id, theme))
      ensures ok <==> old(InUse(graphs[..], id))
    {
      StepKeepsInv(State(), Registry.ChangeTheme(id, theme));
      hide Inv;
      var i := FindGraph(id);
      if i == graphs.Length {
        return false;
      }
      assert Has(graphs[..][i], id);
      var g := graphs[i].value;
      if g.theme != theme {
        UpdateGraph(i, g.(theme := theme, acked := false, lastSend := None,
                          sequence := if g.sequence == INT64_MAX then 0 else g.sequence + 1));
      }
      return true;
    }

    method ReceiveAck(id: nat, sequence: int)
      requires Valid()
      modifies graphs
      ensures Valid() && State() == Apply(old(State()), Registry.ReceiveAck(id, sequence))
    {
      StepKeepsInv(State(), Registry.ReceiveAck(id, sequence));
      hide Inv;
      var i := FindGraph(id);
      if i < graphs.Length && graphs[i].value.sequence == sequence {
        UpdateGraph(i, graphs[i].value.(acked := true));
      }
    }

    /** Through the instance's pointer, which is known to be good. */
    method ReleaseStream(instance: nat)
      requires Valid()
      modifies this`refs, graphs
      ensures Valid() && State() == Apply(old(State()), Registry.ReleaseStream(instance))
      ensures Instance(instance) !in refs
    {
      StepKeepsInv(State(), Registry.ReleaseStream(instance));
      var o := Instance(instance);
      if o in refs {
        var ref := refs[o];
        assert Live(graphs[..], ref);
        hide Inv;
        var g := graphs[ref.slot].value;
        UpdateGraph(ref.slot, g.(streams := g.streams[ref.index := Some(Stream(ref.key, true))]));
        refs := refs - {o};
      }
    }

    method FirstFreeStream(i: nat) returns (index: nat)
      requires i < graphs.Length && graphs[i].Some?
      ensures index == FirstFree(graphs[i].value.streams)
    {
      var streams := graphs[i].value.streams;
      index := 0;
      while index < |streams| && streams[index].Some?
        invariant index <= |streams| && forall j :: 0 <= j < index ==> streams[j].Some?
      {
        index := index + 1;
      }
      FirstFreeIs(streams, index);
    }

    /** Puts a new stream into the first free cell of the graph, if the checks pass. */
    method AttachStream(instance: nat, id: nat, first: Domain, second: Domain) returns (ok: bool)
      modifies this`refs, this`keys, graphs
      ensures ok <==> Accepts(old(State()), id, first, second)
      ensures State() == if ok then Attach(old(State()), instance, id) else old(State())
      ensures ok ==> Instance(instance) in refs
    {
      hide Find, FirstFree, SetStream, Accepts, Attach;
      var i, index;
      ok, i, index := FindPlace(id, first, second);
      if ok {
        ghost var before := State();
        PutStream(instance, i, index);
        AttachedIs(before, instance, id, first, second, i, index);
      }
    }

    /** The checks on the handle, and the cell a new stream would go into. */
    method FindPlace(id: nat, first: Domain, second: Domain) returns (ok: bool, i: nat, index: nat)
      ensures ok <==> Accepts(State(), id, first, second)
      ensures ok ==> i == Find(graphs[..], id) < graphs.Length && graphs[i].Some?
      ensures ok ==> index == FirstFree(graphs[i].value.streams) < |graphs[i].value.streams|
    {
      hide Find, FirstFree, Has;
      i := FindGraph(id);
      FoundIsTaken(graphs[..], id);
      index := 0;
      if i < graphs.Length && !graphs[i].value.destroyRequested && graphs[i].value.domain in {first, second} {
        index := FirstFreeStream(i);
        return index < |graphs[i].value.streams|, i, index;
      }
      return false, i, index;
    }

    lemma FoundIsTaken(slots: seq<Option<Graph>>, id: nat)
      ensures Find(slots, id) < |slots| ==> slots[Find(slots, id)].Some?
    {
    }

    lemma AttachedIs(m: Manager, instance: nat, id: nat, first: Domain, second: Domain, i: nat, index: nat)
      requires Accepts(m, id, first, second)
      requires i == Find(m.slots, id) && index == FirstFree(m.slots[i].value.streams)
      ensures Attach(m, instance, id)
        == m.(slots := SetStream(m.slots, i, index, Some(Stream(m.keys, false))),
              refs := m.refs[Instance(instance) := Ref(i, index, m.keys)], keys := m.keys + 1)
    {
    }

    /** A new stream in a cell, and the instance's pointer to it. */
    method PutStream(instance: nat, i: nat, index: nat)
      requires i < graphs.Length && graphs[i].Some? && index < |graphs[i].value.streams|
      modifies this`refs, this`keys, graphs
      ensures graphs[..] == SetStream(old(graphs[..]), i, index, Some(Stream(old(keys), false)))
      ensures refs == old(refs)[Instance(instance) := Ref(i, index, old(keys))] && keys == old(keys) + 1
    {
      var g := graphs[i].value;
      UpdateGraph(i, g.(streams := g.streams[index := Some(Stream(keys, false))]));
      refs := refs[Instance(instance) := Ref(i, index, keys)];
      keys := keys + 1;
    }

    /** `create_stream`: lets go of the instance's old stream first, then refuses a handle
        that is unknown or being destroyed, a wrong domain, and a full graph. */
    method CreateStream(instance: nat, id: nat, first: Domain, second: Domain, hasMemory: bool)
      returns (ok: bool)
      requires Valid()
      modifies this`refs, this`keys, graphs
      ensures Valid()
      ensures State() == Apply(old(State()), Registry.CreateStream(instance, id, first, second, hasMemory))
      ensures ok <==> Instance(instance) in refs
      ensures ok <==> hasMemory && Accepts(Release(old(State()), instance), id, first, second)
      ensures ok <==> hasMemory && SomeTakes(old(State()), id, first, second)
    {
      hide Inv, Release, Accepts, Attach, SomeTakes, Apply;
      CreateStreamIs(State(), instance, id, first, second, hasMemory);
      CreateStreamExactly(State(), instance, id, first, second, hasMemory);
      StepKeepsInv(State(), Registry.CreateStream(instance, id, first, second, hasMemory));
      ReleaseStream(instance);
      if !hasMemory {
        return false;
      }
      ok := AttachStream(instance, id, first, second);
    }

    /** `release_finished_streams`, one cell after the other. */
    method ReleaseFinishedStreams(streams: seq<Option<Stream>>, drain: bool, complete: set<nat>)
      returns (left: seq<Option<Stream>>)
      ensures left == ReleaseFinished(streams, drain, complete)
    {
      left := streams;
      for j := 0 to |streams|
        invariant |left| == |streams|
        invariant forall k :: 0 <= k < j ==> left[k] == ReleaseFinished(streams, drain, complete)[k]
        invariant forall k :: j <= k < |streams| ==> left[k] == streams[k]
      {
        if left[j].None? || !left[j].value.released || (drain && left[j].value.key !in complete) {
          continue;
        }
        left := left[j := None];
      }
    }

    method GraphHasStreams(g: Graph) returns (has: bool)
      ensures has <==> HasStreams(g)
    {
      for j := 0 to |g.streams|
        invariant forall k :: 0 <= k < j ==> g.streams[k].None?
      {
        if g.streams[j].Some? {
          return true;
        }
      }
      return false;
    }

    /** What the sender does with one graph, the streams' own packets apart. */
    method VisitGraph(i: nat, now: nat, complete: set<nat>) returns (sent: seq<Message>)
      requires Valid() && i < graphs.Length
      modifies this`graphCount, graphs
      ensures Valid() && State() == Apply(old(State()), Visit(i, now, complete))
      ensures sent == Emits(old(State()), Visit(i, now, complete))
    {
      StepKeepsInv(State(), Visit(i, now, complete));
      hide Inv, HasStreams, ReleaseFinished, Closes, Due;
      sent := [];
      if graphs[i].None? {
        return;
      }
      var g := graphs[i].value;
      VisitIs(State(), i, now, complete);
      hide Apply, Emits;
      var abandoned := !g.acked && g.closeRequested;
      if g.acked {
        if g.closeRequested && !g.closeSent {
          sent := Closes(g.id, WATCH_GRAPH_CLOSE_REPETITIONS);
          g := g.(closeSent := true);
        }
      } else if !abandoned {
        if Due(g, now) {
          sent := [Config(g.id, g.sequence, g.theme)];
          g := g.(lastSend := Some(now));
        }
        UpdateGraph(i, g);
        return;
      }
      var left := ReleaseFinishedStreams(g.streams, !abandoned, complete);
      FreeIfDone(i, g.(streams := left));
    }

    lemma VisitIs(m: Manager, i: nat, now: nat, complete: set<nat>)
      requires i < |m.slots| && m.slots[i].Some?
      ensures var g := m.slots[i].value;
        && Emits(m, Visit(i, now, complete)) == Emitted(g, now)
        && Apply(m, Visit(i, now, complete)) ==
          if FreedByVisit(g, now, complete)
          then m.(slots := m.slots[i := None], count := if m.count > 0 then m.count - 1 else 0)
          else m.(slots := m.slots[i := Some(Visited(g, now, complete))])
    {
    }

    /** The end of a visit: the graph goes if nothing is left of it that anybody wants. */
    method FreeIfDone(i: nat, g: Graph)
      requires i < graphs.Length
      modifies this`graphCount, graphs
      ensures graphs[..] == old(graphs[..])[i := if g.destroyRequested && !HasStreams(g) then None else Some(g)]
      ensures graphCount == if g.destroyRequested && !HasStreams(g) && old(graphCount) > 0
                            then old(graphCount) - 1 else old(graphCount)
    {
      var has := GraphHasStreams(g);
      if g.destroyRequested && !has {
        graphs[i] := None;
        if graphCount > 0 {
          graphCount := graphCount - 1;
        }
      } else {
        UpdateGraph(i, g);
      }
    }

    /** One pass of the sender over the registry. */
    method SenderPass(now: nat, complete: set<nat>) returns (sent: seq<Message>)
      requires Valid()
      modifies this`graphCount, graphs
      ensures Valid() && (State(), sent) == Passed(old(State()), graphs.Length, now, complete)
      ensures forall i :: 0 <= i < graphs.Length ==>
        |Apply(old(State()), Visit(i, now, complete)).slots| == graphs.Length
        && graphs[i] == Apply(old(State()), Visit(i, now, complete)).slots[i]
      ensures sent == Concat(Sends(old(State()), graphs.Length, now, complete))
    {
      hide Inv, Apply, Emits;
      PassedSlots(State(), graphs.Length, now, complete);
      PassedSends(State(), graphs.Length, now, complete);
      sent := [];
      for i := 0 to graphs.Length
        invariant Valid() && (State(), sent) == Passed(old(State()), i, now, complete)
      {
        var out := VisitGraph(i, now, complete);
        sent := sent + out;
      }
    }
  }
}
