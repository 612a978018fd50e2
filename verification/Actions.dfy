/** What each action of the registry does to every slot, spelt out. */
module Actions {
  import opened Samples
  import opened Wire
  import opened StreamOps
  import opened Registry

  /** The search finds the one slot that has the handle. */
  lemma FoundExactly(m: Manager, id: nat, i: nat)
    requires SlotsInv(m) && i < |m.slots|
    ensures Has(m.slots[i], id) <==> i == Find(m.slots, id)
  {
  }

  /** `request_graph_destroy`: the graph with the handle is marked, its window too if asked
      for now or before, and nothing else changes. */
  lemma DestroyExactly(m: Manager, id: nat, close: bool, i: nat)
    requires SlotsInv(m) && i < |m.slots|
    ensures var m' := Apply(m, RequestDestroy(id, close));
      && |m'.slots| == |m.slots| && m' == m.(slots := m'.slots)
      && m'.slots[i] ==
        if Has(m.slots[i], id)
        then Some(m.slots[i].value.(destroyRequested := true,
                                    closeRequested := close || m.slots[i].value.closeRequested))
        else m.slots[i]
  {
    FoundExactly(m, id, i);
    hide Find, Occupied;
  }

  /** `change_graph_theme`: a graph that gets another theme gets the next sequence number,
      loses its acknowledgement, and counts as never sent. */
  lemma ThemeExactly(m: Manager, id: nat, theme: Theme, i: nat)
    requires SlotsInv(m) && i < |m.slots|
    ensures var m' := Apply(m, ChangeTheme(id, theme));
      && |m'.slots| == |m.slots| && m' == m.(slots := m'.slots)
      && m'.slots[i] ==
        if Has(m.slots[i], id) && m.slots[i].value.theme != theme
        then Some(m.slots[i].value.(theme := theme, acked := false, lastSend := None,
                                    sequence := if m.slots[i].value.sequence == INT64_MAX then 0
                                                else m.slots[i].value.sequence + 1))
        else m.slots[i]
  {
    FoundExactly(m, id, i);
    hide Find, Occupied;
  }

  /** An acknowledgement counts for the graph whose handle and sequence number it names. */
  lemma AckExactly(m: Manager, id: nat, sequence: int, i: nat)
    requires SlotsInv(m) && i < |m.slots|
    ensures var m' := Apply(m, ReceiveAck(id, sequence));
      && |m'.slots| == |m.slots| && m' == m.(slots := m'.slots)
      && m'.slots[i] ==
        if Has(m.slots[i], id) && m.slots[i].value.sequence == sequence
        then Some(m.slots[i].value.(acked := true)) else m.slots[i]
  {
    FoundExactly(m, id, i);
    hide Find, Occupied;
  }

  /** `release_stream`: the stream the instance points to is marked, the pointer goes. */
  lemma ReleaseExactly(m: Manager, instance: nat, i: nat)
    requires RefsInv(m) && i < |m.slots|
    ensures var m', o := Apply(m, ReleaseStream(instance)), Instance(instance);
      && |m'.slots| == |m.slots| && m' == m.(slots := m'.slots, refs := m.refs - {o})
      && (o in m.refs ==> Live(m.slots, m.refs[o]))
      && m'.slots[i] ==
        if o in m.refs && m.refs[o].slot == i
        then Some(m.slots[i].value.(
          streams := m.slots[i].value.streams[m.refs[o].index := Some(Stream(m.refs[o].key, true))]))
        else m.slots[i]
  {
  }

  predicate HasRoom(g: Graph) {
    exists j :: 0 <= j < |g.streams| && g.streams[j] == None
  }

  /** A graph `create_stream` may attach to. */
  predicate Takes(cell: Option<Graph>, id: nat, first: Domain, second: Domain) {
    && Has(cell, id) && !cell.value.destroyRequested
    && (cell.value.domain == first || cell.value.domain == second)
    && HasRoom(cell.value)
  }

  predicate SomeTakes(m: Manager, id: nat, first: Domain, second: Domain) {
    exists i :: 0 <= i < |m.slots| && Takes(m.slots[i], id, first, second)
  }

  /** `create_stream`: the instance lets go of its old stream, and gets a new one exactly
      when there is memory and a graph with the handle that is not being destroyed, is of one
      of the two domains and has a free cell. */
  lemma CreateStreamExactly(m: Manager, instance: nat, id: nat, first: Domain, second: Domain, hasMemory: bool)
    requires Inv(m)
    ensures var m', o := Apply(m, CreateStream(instance, id, first, second, hasMemory)), Instance(instance);
      && (o in m'.refs <==> hasMemory && SomeTakes(m, id, first, second))
      && (o !in m'.refs ==> m' == Apply(m, ReleaseStream(instance)))
  {
    hide *;
    var released := Release(m, instance);
    CreateStreamIs(m, instance, id, first, second, hasMemory);
    StepKeepsInv(m, ReleaseStream(instance));
    ReleasedTakeSame(m, instance, id, first, second);
    AcceptsExactly(released, id, first, second);
    if hasMemory && Accepts(released, id, first, second) {
      AttachPlaces(released, instance, id, first, second);
    }
  }

  lemma ReleasedTakeSame(m: Manager, instance: nat, id: nat, first: Domain, second: Domain)
    requires Inv(m)
    ensures |Release(m, instance).slots| == |m.slots|
    ensures forall i :: 0 <= i < |m.slots| ==>
      (Takes(m.slots[i], id, first, second) <==> Takes(Release(m, instance).slots[i], id, first, second))
    ensures SomeTakes(m, id, first, second) <==> SomeTakes(Release(m, instance), id, first, second)
  {
    var released := Release(m, instance);
    assert |released.slots| == |m.slots|;
    forall i | 0 <= i < |m.slots|
      ensures Takes(m.slots[i], id, first, second) <==> Takes(released.slots[i], id, first, second)
    {
      ReleaseKeepsTaking(m, instance, i, id, first, second);
    }
    hide Takes, Release;
  }

  /** Two registries that differ in one cell of one graph, which now holds a new stream. */
  predicate Placed(before: Manager, after: Manager, ref: Ref) {
    && ref.slot < |before.slots| && before.slots[ref.slot].Some?
    && var g := before.slots[ref.slot].value;
       && ref.index < |g.streams| && g.streams[ref.index] == None
       && after.slots == before.slots[
            ref.slot := Some(g.(streams := g.streams[ref.index := Some(Stream(ref.key, false))]))]
  }

  /** The new stream goes into a free cell of the graph with the handle, and the instance
      points to it. */
  lemma CreateStreamPlaces(m: Manager, instance: nat, id: nat, first: Domain, second: Domain)
    requires Inv(m)
    requires SomeTakes(m, id, first, second)
    ensures var m', o := Apply(m, CreateStream(instance, id, first, second, true)), Instance(instance);
      var released := Apply(m, ReleaseStream(instance));
      && o in m'.refs
      && var ref := m'.refs[o];
         && ref.key == m.keys && ref.slot < |m.slots| && Takes(m.slots[ref.slot], id, first, second)
         && Placed(released, m', ref)
         && m' == released.(refs := released.refs[o := ref], keys := m.keys + 1, slots := m'.slots)
  {
    hide *;
    var released := Release(m, instance);
    CreateStreamIs(m, instance, id, first, second, true);
    StepKeepsInv(m, ReleaseStream(instance));
    ReleasedTakeSame(m, instance, id, first, second);
    AcceptsExactly(released, id, first, second);
    AttachPlaces(released, instance, id, first, second);
  }

  lemma CreateStreamIs(m: Manager, instance: nat, id: nat, first: Domain, second: Domain, hasMemory: bool)
    ensures var released := Release(m, instance);
      && Apply(m, ReleaseStream(instance)) == released
      && Instance(instance) !in released.refs && released.keys == m.keys
      && Apply(m, CreateStream(instance, id, first, second, hasMemory))
        == if hasMemory && Accepts(released, id, first, second) then Attach(released, instance, id) else released
  {
    hide Accepts, SetStream, AtCell;
  }

  lemma AttachPlaces(m: Manager, instance: nat, id: nat, first: Domain, second: Domain)
    requires Accepts(m, id, first, second)
    ensures var m', o := Attach(m, instance, id), Instance(instance);
      && o in m'.refs && m'.refs[o].slot == Find(m.slots, id) && m'.refs[o].key == m.keys
      && Placed(m, m', m'.refs[o])
      && m' == m.(refs := m.refs[o := m'.refs[o]], keys := m.keys + 1, slots := m'.slots)
  {
  }

  lemma ReleaseKeepsCells(m: Manager, instance: nat, i: nat)
    requires RefsInv(m) && i < |m.slots|
    ensures var after := Release(m, instance).slots;
      && |after| == |m.slots| && (after[i].Some? <==> m.slots[i].Some?)
      && (after[i].Some? ==>
            && after[i].value == m.slots[i].value.(streams := after[i].value.streams)
            && |after[i].value.streams| == |m.slots[i].value.streams|
            && forall j :: 0 <= j < |m.slots[i].value.streams| ==>
                 (after[i].value.streams[j] == None <==> m.slots[i].value.streams[j] == None))
  {
  }

  lemma ReleaseKeepsTaking(m: Manager, instance: nat, i: nat, id: nat, first: Domain, second: Domain)
    requires RefsInv(m) && i < |m.slots|
    ensures |Release(m, instance).slots| == |m.slots|
    ensures Has(m.slots[i], id) <==> Has(Release(m, instance).slots[i], id)
    ensures Takes(m.slots[i], id, first, second) <==> Takes(Release(m, instance).slots[i], id, first, second)
  {
    hide RefsInv, Release, HasRoom;
    ReleaseKeepsCells(m, instance, i);
    if m.slots[i].Some? {
      SameRoom(m.slots[i].value, Release(m, instance).slots[i].value);
    }
  }

  lemma SameRoom(g: Graph, h: Graph)
    requires |g.streams| == |h.streams|
    requires forall j :: 0 <= j < |g.streams| ==> (g.streams[j] == None <==> h.streams[j] == None)
    ensures HasRoom(g) <==> HasRoom(h)
  {
    if HasRoom(g) {
      var j :| 0 <= j < |g.streams| && g.streams[j] == None;
      assert h.streams[j] == None;
    }
    if HasRoom(h) {
      var j :| 0 <= j < |h.streams| && h.streams[j] == None;
      assert g.streams[j] == None;
    }
  }

  lemma AcceptsExactly(m: Manager, id: nat, first: Domain, second: Domain)
    requires Inv(m)
    ensures Accepts(m, id, first, second) <==> SomeTakes(m, id, first, second)
    ensures Accepts(m, id, first, second) ==>
      Find(m.slots, id) < |m.slots| && Takes(m.slots[Find(m.slots, id)], id, first, second)
  {
    assert SlotsInv(m);
    hide Inv, SlotsInv, FirstFree, HasRoom, SomeTakes;
    var at := Find(m.slots, id);
    if at < |m.slots| {
      RoomExactly(m.slots[at].value);
    }
    OnlyFoundTakes(m, id, first, second);
  }

  lemma OnlyFoundTakes(m: Manager, id: nat, first: Domain, second: Domain)
    requires SlotsInv(m)
    ensures SomeTakes(m, id, first, second) <==>
      Find(m.slots, id) < |m.slots| && Takes(m.slots[Find(m.slots, id)], id, first, second)
  {
    hide SlotsInv, HasRoom;
    if SomeTakes(m, id, first, second) {
      var i :| 0 <= i < |m.slots| && Takes(m.slots[i], id, first, second);
      FoundExactly(m, id, i);
    }
  }

  lemma RoomExactly(g: Graph)
    ensures FirstFree(g.streams) < |g.streams| <==> HasRoom(g)
  {
    if FirstFree(g.streams) < |g.streams| {
      assert g.streams[FirstFree(g.streams)] == None;
    }
  }

  /** `register_graph`: unless every slot is taken, the first empty slot gets a graph that is
      not acknowledged, was never sent, is not to go, and has no stream. */
  lemma RegisterExactly(m: Manager, domain: Domain, theme: Theme, time: int)
    requires SlotsInv(m)
    ensures var m' := Apply(m, CreateGraph(domain, theme, time));
      if forall i :: 0 <= i < |m.slots| ==> m.slots[i].Some? then m' == m
      else
        var slot := FirstFree(m.slots);
        && slot < |m.slots| && m.slots[slot] == None
        && (forall i :: 0 <= i < slot ==> m.slots[i].Some?)
        && slot < |m'.slots| && m'.slots[slot].Some?
        && var g := m'.slots[slot].value;
           && 1 <= g.id <= MAX_HANDLE_ID && !InUse(m.slots, g.id)
           && g.serial == m.serials && g.domain == domain && g.theme == theme && g.sequence == time
           && !g.acked && g.lastSend == None
           && !g.destroyRequested && !g.closeRequested && !g.closeSent
           && |g.streams| == MAX_STREAMS && (forall j :: 0 <= j < MAX_STREAMS ==> g.streams[j] == None)
           && m' == m.(slots := m.slots[slot := Some(g)], count := m.count + 1,
                       nextId := m'.nextId, serials := m.serials + 1)
  {
    RegisterOutcome(m, domain, theme, time);
    hide Allocate, InUse, SlotsInv;
  }

  /** Whether a visit would clear a stream's cell. */
  predicate Goes(g: Graph, j: nat, complete: set<nat>)
    requires j < |g.streams|
  {
    g.streams[j].Some? && g.streams[j].value.released && (g.acked ==> g.streams[j].value.key in complete)
  }

  /** One visit of the sender. An unacknowledged graph whose window is not to go has its
      configuration sent when it never was or that is 250 ms ago, and is otherwise left
      alone. Any other graph has its finished streams cleared, the close sent three times if
      it is acknowledged and that was not done, and goes itself if it is to be destroyed and
      no stream is left. */
  lemma VisitExactly(m: Manager, i: nat, now: nat, complete: set<nat>)
    requires i < |m.slots| && m.slots[i].Some?
    ensures var g, a := m.slots[i].value, Visit(i, now, complete);
      var due := g.lastSend == None || now < g.lastSend.value || now - g.lastSend.value >= 250;
      var m' := Apply(m, a);
      && |m'.slots| == |m.slots| && m' == m.(slots := m.slots[i := m'.slots[i]], count := m'.count)
      && (!g.acked && !g.closeRequested ==>
            && m'.slots[i] == Some(if due then g.(lastSend := Some(now)) else g)
            && Emits(m, a) == if due then [Config(g.id, g.sequence, g.theme)] else [])
      && (g.acked || g.closeRequested ==>
            && Emits(m, a) == (if g.acked && g.closeRequested && !g.closeSent
                               then [Close(g.id), Close(g.id), Close(g.id)] else [])
            && (m'.slots[i] == None <==>
                  g.destroyRequested && forall j :: 0 <= j < |g.streams| && g.streams[j].Some? ==> Goes(g, j, complete))
            && (m'.slots[i].Some? ==>
                  var left := m'.slots[i].value;
                  && left == g.(streams := left.streams, closeSent := g.closeSent || (g.acked && g.closeRequested))
                  && |left.streams| == |g.streams|
                  && forall j :: 0 <= j < |g.streams| ==>
                       left.streams[j] == if Goes(g, j, complete) then None else g.streams[j]))
  {
    VisitSends(m, i, now, complete);
    hide Emits;
    var g := m.slots[i].value;
    if !Waiting(g) {
      assert forall j :: 0 <= j < |g.streams| ==>
        (Goes(g, j, complete) <==> Finished(g.streams[j], !Abandoned(g), complete));
      FreedExactly(g, now, complete);
    }
  }

  lemma VisitSends(m: Manager, i: nat, now: nat, complete: set<nat>)
    requires i < |m.slots| && m.slots[i].Some?
    ensures var g := m.slots[i].value;
      var due := g.lastSend == None || now < g.lastSend.value || now - g.lastSend.value >= 250;
      Emits(m, Visit(i, now, complete)) ==
        if !g.acked && !g.closeRequested then (if due then [Config(g.id, g.sequence, g.theme)] else [])
        else if g.acked && g.closeRequested && !g.closeSent then [Close(g.id), Close(g.id), Close(g.id)]
        else []
  {
    assert Closes(m.slots[i].value.id, WATCH_GRAPH_CLOSE_REPETITIONS)
      == [Close(m.slots[i].value.id), Close(m.slots[i].value.id), Close(m.slots[i].value.id)];
  }
}
