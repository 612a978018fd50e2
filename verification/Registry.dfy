/** The plugin's registry of graphs and streams, as a state machine over the opcode calls
    and the sender's visits. Each action is what runs under the registry lock. */
module Registry {
  import opened Samples
  import opened Wire
  import opened StreamOps

  const INVALID_HANDLE: nat := 0
  const MAX_HANDLE_ID: nat := 0x00FF_FFFF
  const INT64_MAX: nat := 0x7fff_ffff_ffff_ffff
  const WATCH_CONFIG_RETRY_MS: nat := 250
  const WATCH_GRAPH_CLOSE_REPETITIONS: nat := 3

  datatype Theme = Light | Dark

  /** A stream as the registry sees it. `key` tells one allocation from another. */
  datatype Stream = Stream(key: nat, released: bool)

  /** `serial` tells one allocation from another; `lastSend == None` means never sent. */
  datatype Graph = Graph(
    serial: nat,
    id: nat,
    domain: Domain,
    theme: Theme,
    sequence: int,
    acked: bool,
    lastSend: Option<nat>,
    destroyRequested: bool,
    closeRequested: bool,
    closeSent: bool,
    streams: seq<Option<Stream>>)

  /** Who keeps a pointer to a stream: an opcode instance, or nobody any more. */
  datatype Owner = Instance(n: nat) | Lost(n: nat)

  /** A pointer: the cell of the stream, and the allocation it was taken for. */
  datatype Ref = Ref(slot: nat, index: nat, key: nat)

  datatype Manager = Manager(
    slots: seq<Option<Graph>>,
    count: nat,
    nextId: nat,
    refs: map<Owner, Ref>,
    serials: nat,
    keys: nat)

  datatype Action =
    | CreateGraph(domain: Domain, theme: Theme, time: int)
    | RequestDestroy(id: nat, close: bool)
    | CreateStream(instance: nat, id: nat, first: Domain, second: Domain, hasMemory: bool)
    | ReleaseStream(instance: nat)
    | ForgetStream(instance: nat)
    | ChangeTheme(id: nat, theme: Theme)
    | ReceiveAck(id: nat, sequence: int)
    | Visit(slot: nat, now: nat, complete: set<nat>)

  /** What the sender puts on the wire about a graph. */
  datatype Message = Config(id: nat, sequence: int, theme: Theme) | Close(id: nat)

  // ---------------------------------------------------------------- searching

  /** The first empty cell. */
  function FirstFree<T>(cells: seq<Option<T>>): (i: nat)
    ensures i <= |cells|
    ensures forall j :: 0 <= j < i ==> cells[j].Some?
    ensures i < |cells| ==> cells[i].None?
  {
    if cells == [] || cells[0].None? then 0 else 1 + FirstFree(cells[1..])
  }

  predicate Has(cell: Option<Graph>, id: nat) {
    cell.Some? && cell.value.id == id
  }

  /** `find_graph`. */
  function Find(slots: seq<Option<Graph>>, id: nat): (i: nat)
    ensures i <= |slots|
    ensures forall j :: 0 <= j < i ==> !Has(slots[j], id)
    ensures i < |slots| ==> Has(slots[i], id)
  {
    if slots == [] || Has(slots[0], id) then 0 else 1 + Find(slots[1..], id)
  }

  function Occupied<T>(cells: seq<Option<T>>): (n: nat)
    ensures n <= |cells|
  {
    if cells == [] then 0 else (if cells[0].Some? then 1 else 0) + Occupied(cells[1..])
  }

  lemma {:induction false} OccupiedUpdate<T>(cells: seq<Option<T>>, i: nat, cell: Option<T>)
    requires i < |cells|
    ensures Occupied(cells[i := cell])
      == Occupied(cells) - (if cells[i].Some? then 1 else 0) + (if cell.Some? then 1 else 0)
  {
    if i == 0 {
      assert cells[i := cell][1..] == cells[1..];
    } else {
      OccupiedUpdate(cells[1..], i - 1, cell);
      assert cells[i := cell][1..] == cells[1..][i - 1 := cell];
    }
  }

  /** A registry that is not full has an empty slot, and the other way round. */
  lemma {:induction false} NotFullHasRoom<T>(cells: seq<Option<T>>)
    ensures Occupied(cells) < |cells| <==> FirstFree(cells) < |cells|
  {
    if cells != [] {
      NotFullHasRoom(cells[1..]);
    }
  }

  lemma {:induction false} NothingOccupied<T>(cells: seq<Option<T>>)
    requires forall i :: 0 <= i < |cells| ==> cells[i] == None
    ensures Occupied(cells) == 0
  {
    if cells != [] {
      NothingOccupied(cells[1..]);
    }
  }

  // ---------------------------------------------------------------- handles

  function Successor(id: nat): nat {
    if id + 1 > MAX_HANDLE_ID then 1 else id + 1
  }

  predicate InUse(slots: seq<Option<Graph>>, id: nat) {
    exists i :: 0 <= i < |slots| && Has(slots[i], id)
  }

  /** `allocate_graph_id`: tries handles from `next` on; also says where to start next time. */
  function Allocate(slots: seq<Option<Graph>>, next: nat, attempts: nat): (nat, nat)
    decreases attempts
  {
    if attempts == 0 then (INVALID_HANDLE, next)
    else if Find(slots, next) == |slots| then (next, Successor(next))
    else Allocate(slots, Successor(next), attempts - 1)
  }

  /** The handles `Allocate` would try. */
  function Tried(next: nat, attempts: nat): set<nat>
    decreases attempts
  {
    if attempts == 0 then {} else {next} + Tried(Successor(next), attempts - 1)
  }

  function HandlesOf(slots: seq<Option<Graph>>): (r: set<nat>)
    ensures |r| <= Occupied(slots)
    ensures forall id :: id in r <==> InUse(slots, id)
  {
    if slots == [] then {}
    else
      var rest := HandlesOf(slots[1..]);
      assert forall i :: 1 <= i < |slots| ==> slots[i] == slots[1..][i - 1];
      assert forall id :: InUse(slots[1..], id) ==> InUse(slots, id);
      if slots[0].Some? then
        assert Has(slots[0], slots[0].value.id);
        rest + {slots[0].value.id}
      else rest
  }

  predicate Cyclic(next: nat, attempts: nat, id: nat) {
    next <= id < next + attempts || id + MAX_HANDLE_ID < next + attempts
  }

  lemma CyclicNext(next: nat, attempts: nat, id: nat)
    requires 1 <= next <= MAX_HANDLE_ID && 0 < attempts <= MAX_HANDLE_ID && 1 <= id <= MAX_HANDLE_ID
    requires Cyclic(Successor(next), attempts - 1, id)
    ensures id != next && Cyclic(next, attempts, id)
  {
  }

  lemma {:induction false} TriedAreCyclic(next: nat, attempts: nat, id: nat)
    requires 1 <= next <= MAX_HANDLE_ID && attempts <= MAX_HANDLE_ID && id in Tried(next, attempts)
    ensures 1 <= id <= MAX_HANDLE_ID && Cyclic(next, attempts, id)
    decreases attempts
  {
    if id != next {
      TriedAreCyclic(Successor(next), attempts - 1, id);
      CyclicNext(next, attempts, id);
    }
  }

  /** Fewer than `MAX_HANDLE_ID` successive handles are all different. */
  lemma {:induction false} TriedAreDistinct(next: nat, attempts: nat)
    requires 1 <= next <= MAX_HANDLE_ID && attempts <= MAX_HANDLE_ID
    ensures |Tried(next, attempts)| == attempts
    ensures forall id :: id in Tried(next, attempts) ==>
      1 <= id <= MAX_HANDLE_ID && Cyclic(next, attempts, id)
    decreases attempts
  {
    hide Cyclic;
    forall id | id in Tried(next, attempts)
      ensures 1 <= id <= MAX_HANDLE_ID && Cyclic(next, attempts, id)
    {
      TriedAreCyclic(next, attempts, id);
    }
    if attempts > 0 {
      var rest := Tried(Successor(next), attempts - 1);
      TriedAreDistinct(Successor(next), attempts - 1);
      if next in rest {
        CyclicNext(next, attempts, next);
      }
    }
  }

  lemma {:induction false} AllocateOutcome(slots: seq<Option<Graph>>, next: nat, attempts: nat)
    requires 1 <= next <= MAX_HANDLE_ID
    ensures var (id, next') := Allocate(slots, next, attempts);
      && 1 <= next' <= MAX_HANDLE_ID
      && (id == INVALID_HANDLE ==> forall h :: h in Tried(next, attempts) ==> InUse(slots, h))
      && (id != INVALID_HANDLE ==>
            1 <= id <= MAX_HANDLE_ID && !InUse(slots, id) && next' == Successor(id))
    decreases attempts
  {
    if attempts > 0 && Find(slots, next) != |slots| {
      AllocateOutcome(slots, Successor(next), attempts - 1);
    }
  }

  lemma {:induction false} SubsetSize(a: set<nat>, b: set<nat>)
    requires a <= b
    ensures |a| <= |b|
  {
    if a != {} {
      var x :| x in a;
      SubsetSize(a - {x}, b - {x});
    }
  }

  /** `capacity + 1` attempts always find a free handle, wrap-around included. */
  lemma AllocateFindsFree(slots: seq<Option<Graph>>, next: nat)
    requires 1 <= next <= MAX_HANDLE_ID && |slots| < MAX_HANDLE_ID
    ensures var (id, next') := Allocate(slots, next, |slots| + 1);
      && 1 <= id <= MAX_HANDLE_ID && !InUse(slots, id)
      && next' == Successor(id)
  {
    AllocateOutcome(slots, next, |slots| + 1);
    if Allocate(slots, next, |slots| + 1).0 == INVALID_HANDLE {
      TriedAreDistinct(next, |slots| + 1);
      SubsetSize(Tried(next, |slots| + 1), HandlesOf(slots));
    }
  }

  // ---------------------------------------------------------------- steps

  function NextSequence(s: int): int {
    if s == INT64_MAX then 0 else s + 1
  }

  datatype RegisterResult = Registered | RegistryFull | RegistryInconsistent | HandleUnavailable

  function NoStreams(): seq<Option<Stream>> {
    seq(MAX_STREAMS, i => None)
  }

  /** `register_graph`. */
  function Register(m: Manager, domain: Domain, theme: Theme, time: int): (RegisterResult, Manager) {
    if m.count >= |m.slots| then (RegistryFull, m)
    else
      var slot := FirstFree(m.slots);
      if slot == |m.slots| then (RegistryInconsistent, m)
      else
        var (id, next) := Allocate(m.slots, m.nextId, |m.slots| + 1);
        if id == INVALID_HANDLE then (HandleUnavailable, m.(nextId := next))
        else
          var g := Graph(m.serials, id, domain, theme, time, false, None, false, false, false, NoStreams());
          (Registered,
           m.(slots := m.slots[slot := Some(g)], count := m.count + 1, nextId := next,
              serials := m.serials + 1))
  }

  predicate AtCell(slots: seq<Option<Graph>>, ref: Ref) {
    && ref.slot < |slots| && slots[ref.slot].Some?
    && ref.index < |slots[ref.slot].value.streams|
    && slots[ref.slot].value.streams[ref.index].Some?
  }

  /** The pointer is good: the stream it was taken for is still there, and not released. */
  predicate Live(slots: seq<Option<Graph>>, ref: Ref) {
    && AtCell(slots, ref)
    && slots[ref.slot].value.streams[ref.index] == Some(Stream(ref.key, false))
  }

  function SetStream(slots: seq<Option<Graph>>, slot: nat, index: nat, cell: Option<Stream>)
    : seq<Option<Graph>>
    requires slot < |slots| && slots[slot].Some? && index < |slots[slot].value.streams|
  {
    slots[slot := Some(slots[slot].value.(streams := slots[slot].value.streams[index := cell]))]
  }

  /** `release_stream` writes through the instance's pointer and clears it. */
  function Release(m: Manager, instance: nat): Manager {
    var o := Instance(instance);
    if o !in m.refs then m
    else
      var ref := m.refs[o];
      m.(refs := m.refs - {o},
         slots := if AtCell(m.slots, ref)
                  then SetStream(m.slots, ref.slot, ref.index,
                                 Some(m.slots[ref.slot].value.streams[ref.index].value.(released := true)))
                  else m.slots)
  }

  /** Whether `create_stream` gets past its checks, after it has let go of the old stream. */
  predicate Accepts(m: Manager, id: nat, first: Domain, second: Domain) {
    var i := Find(m.slots, id);
    && i < |m.slots|
    && !m.slots[i].value.destroyRequested
    && m.slots[i].value.domain in {first, second}
    && FirstFree(m.slots[i].value.streams) < |m.slots[i].value.streams|
  }

  function Attach(m: Manager, instance: nat, id: nat): Manager
    requires exists first, second :: Accepts(m, id, first, second)
  {
    var i := Find(m.slots, id);
    var index := FirstFree(m.slots[i].value.streams);
    m.(slots := SetStream(m.slots, i, index, Some(Stream(m.keys, false))),
       refs := m.refs[Instance(instance) := Ref(i, index, m.keys)],
       keys := m.keys + 1)
  }

  predicate Abandoned(g: Graph) {
    !g.acked && g.closeRequested
  }

  /** Time to send the configuration; an unsigned difference, so a clock that went back counts. */
  predicate Due(g: Graph, now: nat) {
    match g.lastSend
    case None => true
    case Some(last) => now < last || now - last >= WATCH_CONFIG_RETRY_MS
  }

  predicate Finished(cell: Option<Stream>, drain: bool, complete: set<nat>) {
    cell.Some? && cell.value.released && (drain ==> cell.value.key in complete)
  }

  /** `release_finished_streams`. */
  function ReleaseFinished(streams: seq<Option<Stream>>, drain: bool, complete: set<nat>)
    : (r: seq<Option<Stream>>)
    ensures |r| == |streams|
    ensures forall j :: 0 <= j < |r| ==>
      r[j] == if Finished(streams[j], drain, complete) then None else streams[j]
  {
    seq(|streams|, j requires 0 <= j < |streams| =>
      if Finished(streams[j], drain, complete) then None else streams[j])
  }

  predicate HasStreams(g: Graph) {
    exists j :: 0 <= j < |g.streams| && g.streams[j].Some?
  }

  predicate Waiting(g: Graph) {
    !g.acked && !g.closeRequested
  }

  /** What one visit of the sender leaves of a graph. */
  function Visited(g: Graph, now: nat, complete: set<nat>): Graph {
    if Waiting(g) then g.(lastSend := if Due(g, now) then Some(now) else g.lastSend)
    else
      g.(closeSent := g.closeSent || (g.acked && g.closeRequested),
         streams := ReleaseFinished(g.streams, !Abandoned(g), complete))
  }

  predicate FreedByVisit(g: Graph, now: nat, complete: set<nat>) {
    !Waiting(g) && g.destroyRequested && !HasStreams(Visited(g, now, complete))
  }

  function Closes(id: nat, n: nat): (r: seq<Message>)
    ensures |r| == n && forall i :: 0 <= i < n ==> r[i] == Close(id)
  {
    seq(n, i => Close(id))
  }

  /** What the visit puts on the wire, streams apart. */
  function Emitted(g: Graph, now: nat): seq<Message> {
    if Waiting(g) then (if Due(g, now) then [Config(g.id, g.sequence, g.theme)] else [])
    else if g.acked && g.closeRequested && !g.closeSent then Closes(g.id, WATCH_GRAPH_CLOSE_REPETITIONS)
    else []
  }

  function OnGraph(m: Manager, id: nat, g: Graph): Manager
    requires Find(m.slots, id) < |m.slots|
  {
    m.(slots := m.slots[Find(m.slots, id) := Some(g)])
  }

  function Apply(m: Manager, a: Action): Manager {
    match a
    case CreateGraph(domain, theme, time) => Register(m, domain, theme, time).1
    case RequestDestroy(id, close) =>
      var i := Find(m.slots, id);
      if id == INVALID_HANDLE || i == |m.slots| then m
      else
        var g := m.slots[i].value;
        OnGraph(m, id, g.(destroyRequested := true, closeRequested := g.closeRequested || close))
    case CreateStream(instance, id, first, second, hasMemory) =>
      var m1 := Release(m, instance);
      if hasMemory && Accepts(m1, id, first, second) then Attach(m1, instance, id) else m1
    case ReleaseStream(instance) => Release(m, instance)
    case ForgetStream(instance) =>
      var o := Instance(instance);
      if o !in m.refs then m
      else m.(refs := (m.refs - {o})[Lost(m.keys) := m.refs[o]], keys := m.keys + 1)
    case ChangeTheme(id, theme) =>
      var i := Find(m.slots, id);
      if i == |m.slots| || m.slots[i].value.theme == theme then m
      else
        var g := m.slots[i].value;
        OnGraph(m, id, g.(theme := theme, sequence := NextSequence(g.sequence), acked := false,
                          lastSend := None))
    case ReceiveAck(id, sequence) =>
      var i := Find(m.slots, id);
      if i == |m.slots| || m.slots[i].value.sequence != sequence then m
      else OnGraph(m, id, m.slots[i].value.(acked := true))
    case Visit(slot, now, complete) =>
      if slot >= |m.slots| || m.slots[slot] == None then m
      else
        var g := m.slots[slot].value;
        if FreedByVisit(g, now, complete)
        then m.(slots := m.slots[slot := None], count := if m.count > 0 then m.count - 1 else 0)
        else m.(slots := m.slots[slot := Some(Visited(g, now, complete))])
  }

  function Emits(m: Manager, a: Action): seq<Message> {
    if a.Visit? && a.slot < |m.slots| && m.slots[a.slot].Some?
    then Emitted(m.slots[a.slot].value, a.now) else []
  }

  // ---------------------------------------------------------------- invariants

  /** The count is exact; live handles are distinct and in range. */
  predicate SlotsInv(m: Manager) {
    && |m.slots| < MAX_HANDLE_ID
    && m.count == Occupied(m.slots)
    && 1 <= m.nextId <= MAX_HANDLE_ID
    && (forall i :: 0 <= i < |m.slots| && m.slots[i].Some? ==>
          1 <= m.slots[i].value.id <= MAX_HANDLE_ID && m.slots[i].value.serial < m.serials)
    && (forall i, j :: 0 <= i < j < |m.slots| && m.slots[i].Some? && m.slots[j].Some? ==>
          m.slots[i].value.id != m.slots[j].value.id)
  }

  predicate SameCell(a: Ref, b: Ref) {
    a.slot == b.slot && a.index == b.index
  }

  /** Every pointer kept, or lost without being released, is good, and no two agree. */
  predicate RefsInv(m: Manager) {
    && (forall o :: o in m.refs ==> Live(m.slots, m.refs[o]))
    && (forall o, p :: o in m.refs && p in m.refs && o != p ==> !SameCell(m.refs[o], m.refs[p]))
    && (forall o :: o in m.refs && o.Lost? ==> o.n < m.keys)
  }

  predicate Inv(m: Manager) {
    SlotsInv(m) && RefsInv(m)
  }

  /** What can become of the graph in a slot in one step. */
  predicate Evolves(g: Graph, g': Graph) {
    && g'.serial == g.serial && g'.id == g.id && g'.domain == g.domain
    && |g'.streams| == |g.streams|
    && (g.destroyRequested ==> g'.destroyRequested)
    && (g.closeRequested ==> g'.closeRequested)
    && (g.closeSent ==> g'.closeSent)
    && (g.destroyRequested ==> forall j :: 0 <= j < |g.streams| && g'.streams[j].Some? ==>
          g.streams[j].Some? && g.streams[j].value.key == g'.streams[j].value.key)
  }

  /** A visit closes the window exactly when the graph is acknowledged,
      its closing was requested and not yet sent, and sends the configuration exactly when
      nothing was acknowledged, no closing is requested and it is time. */
  lemma EmittedExactly(g: Graph, now: nat)
    ensures Close(g.id) in Emitted(g, now) <==> g.acked && g.closeRequested && !g.closeSent
    ensures Config(g.id, g.sequence, g.theme) in Emitted(g, now)
      <==> !g.acked && !g.closeRequested && Due(g, now)
    ensures Visited(g, now, {}).closeSent <==> g.closeSent || Close(g.id) in Emitted(g, now)
  {
    assert Close(g.id) == Closes(g.id, WATCH_GRAPH_CLOSE_REPETITIONS)[0];
  }

  /** A visit frees a graph exactly when its destruction was requested, it is acknowledged
      or abandoned, and every stream was released and, unless abandoned, has sent
      everything. */
  lemma FreedExactly(g: Graph, now: nat, complete: set<nat>)
    ensures FreedByVisit(g, now, complete) <==>
      && g.destroyRequested && (g.acked || Abandoned(g))
      && forall j :: 0 <= j < |g.streams| && g.streams[j].Some? ==>
           g.streams[j].value.released && (!Abandoned(g) ==> g.streams[j].value.key in complete)
  {
    var after := Visited(g, now, complete).streams;
    if !Waiting(g) {
      assert forall j :: 0 <= j < |g.streams| ==>
        after[j] == if Finished(g.streams[j], !Abandoned(g), complete) then None else g.streams[j];
    }
  }

  // ---------------------------------------------------------------- preservation

  /** Registration never reports an inconsistent registry or runs out of handles, and
      reports a full one exactly when every slot is taken. */
  lemma RegisterOutcome(m: Manager, domain: Domain, theme: Theme, time: int)
    requires SlotsInv(m)
    ensures var (result, m') := Register(m, domain, theme, time);
      && result in {Registered, RegistryFull}
      && (result == RegistryFull <==> forall i :: 0 <= i < |m.slots| ==> m.slots[i].Some?)
      && (result == Registered ==>
            var slot := FirstFree(m.slots);
            && slot < |m.slots| && m'.slots[slot].Some?
            && m' == m.(slots := m.slots[slot := m'.slots[slot]], count := m.count + 1,
                        nextId := m'.nextId, serials := m.serials + 1)
            && !InUse(m.slots, m'.slots[slot].value.id)
            && 1 <= m'.slots[slot].value.id <= MAX_HANDLE_ID
            && m'.nextId == Successor(m'.slots[slot].value.id)
            && m'.slots[slot].value.serial == m.serials)
      && (result == RegistryFull ==> m' == m)
  {
    NotFullHasRoom(m.slots);
    AllocateFindsFree(m.slots, m.nextId);
  }

  lemma RegisterKeepsSlots(m: Manager, domain: Domain, theme: Theme, time: int)
    requires SlotsInv(m)
    ensures SlotsInv(Register(m, domain, theme, time).1)
  {
    RegisterOutcome(m, domain, theme, time);
    var slot, m' := FirstFree(m.slots), Register(m, domain, theme, time).1;
    if slot < |m.slots| {
      OccupiedUpdate(m.slots, slot, m'.slots[slot]);
      assert forall i :: 0 <= i < |m.slots| && m.slots[i].Some? ==> Has(m.slots[i], m.slots[i].value.id);
    }
  }

  /** Replacing a graph by one with the same handle, or clearing its slot. */
  lemma UpdateKeepsSlots(m: Manager, m': Manager, i: nat)
    requires SlotsInv(m) && i < |m.slots| && m.slots[i].Some?
    requires |m'.slots| == |m.slots| && m'.slots == m.slots[i := m'.slots[i]]
    requires m'.nextId == m.nextId && m'.serials == m.serials
    requires m'.count == m.count - if m'.slots[i].Some? then 0 else 1
    requires m'.slots[i].Some? ==>
      && m'.slots[i].value.id == m.slots[i].value.id
      && m'.slots[i].value.serial == m.slots[i].value.serial
    ensures SlotsInv(m')
  {
    OccupiedUpdate(m.slots, i, m'.slots[i]);
  }

  lemma ReleaseKeepsSlots(m: Manager, instance: nat)
    requires SlotsInv(m)
    ensures SlotsInv(Release(m, instance))
  {
    var o := Instance(instance);
    if o in m.refs && AtCell(m.slots, m.refs[o]) {
      UpdateKeepsSlots(m, Release(m, instance), m.refs[o].slot);
    }
  }

  lemma CreateStreamKeepsSlots(m: Manager, a: Action)
    requires SlotsInv(m) && a.CreateStream?
    ensures SlotsInv(Apply(m, a))
  {
    ReleaseKeepsSlots(m, a.instance);
    var m1 := Release(m, a.instance);
    hide Release, SlotsInv;
    if a.hasMemory && Accepts(m1, a.id, a.first, a.second) {
      UpdateKeepsSlots(m1, Attach(m1, a.instance, a.id), Find(m1.slots, a.id));
    }
  }

  lemma VisitKeepsSlots(m: Manager, a: Action)
    requires SlotsInv(m) && a.Visit?
    ensures SlotsInv(Apply(m, a))
  {
    if a.slot < |m.slots| && m.slots[a.slot].Some? {
      CountIsPositive(m.slots, a.slot);
      hide SlotsInv, FreedByVisit, ReleaseFinished;
      UpdateKeepsSlots(m, Apply(m, a), a.slot);
    }
  }

  /** Actions on the graph a handle names. */
  lemma HandleKeepsSlots(m: Manager, a: Action)
    requires SlotsInv(m) && (a.RequestDestroy? || a.ChangeTheme? || a.ReceiveAck?)
    ensures SlotsInv(Apply(m, a))
  {
    var i := Find(m.slots, a.id);
    if i < |m.slots| && Apply(m, a) != m {
      hide SlotsInv;
      UpdateKeepsSlots(m, Apply(m, a), i);
    }
  }

  lemma StepKeepsSlots(m: Manager, a: Action)
    requires SlotsInv(m)
    ensures SlotsInv(Apply(m, a))
  {
    match a
    case CreateGraph(domain, theme, time) => RegisterKeepsSlots(m, domain, theme, time);
    case CreateStream(_, _, _, _, _) => CreateStreamKeepsSlots(m, a);
    case ReleaseStream(instance) => ReleaseKeepsSlots(m, instance);
    case Visit(_, _, _) => VisitKeepsSlots(m, a);
    case ForgetStream(_) =>
    case _ => HandleKeepsSlots(m, a);
  }

  lemma {:induction false} CountIsPositive<T>(cells: seq<Option<T>>, i: nat)
    requires i < |cells| && cells[i].Some?
    ensures Occupied(cells) > 0
  {
    if i > 0 {
      CountIsPositive(cells[1..], i - 1);
    }
  }

  lemma ReleaseKeepsRefs(m: Manager, instance: nat)
    requires RefsInv(m)
    ensures RefsInv(Release(m, instance)) && Instance(instance) !in Release(m, instance).refs
  {
    var m' := Release(m, instance);
    forall o | o in m'.refs
      ensures Live(m'.slots, m'.refs[o])
    {
      assert Live(m.slots, m.refs[o]);
      if Instance(instance) in m.refs {
        assert !SameCell(m.refs[o], m.refs[Instance(instance)]);
      }
    }
  }

  lemma AttachKeepsRefs(m: Manager, instance: nat, id: nat, first: Domain, second: Domain)
    requires RefsInv(m) && Instance(instance) !in m.refs && Accepts(m, id, first, second)
    ensures RefsInv(Attach(m, instance, id))
  {
    var m' := Attach(m, instance, id);
    AttachIsLive(m, instance, id, first, second);
    hide Live, AtCell, Accepts, SetStream, SameCell;
    var new' := m'.refs[Instance(instance)];
    forall o | o in m.refs
      ensures Live(m'.slots, m.refs[o]) && !SameCell(m.refs[o], new')
    {
      AttachKeepsLive(m, instance, id, first, second, m.refs[o]);
    }
    forall o | o in m.refs
      ensures !SameCell(new', m.refs[o])
    {
      SameCellSwaps(m.refs[o], new');
    }
  }

  lemma SameCellSwaps(a: Ref, b: Ref)
    ensures SameCell(a, b) <==> SameCell(b, a)
  {
  }

  lemma AttachIsLive(m: Manager, instance: nat, id: nat, first: Domain, second: Domain)
    requires Accepts(m, id, first, second)
    ensures var m' := Attach(m, instance, id);
      Live(m'.slots, m'.refs[Instance(instance)])
  {
  }

  lemma AttachKeepsLive(m: Manager, instance: nat, id: nat, first: Domain, second: Domain, ref: Ref)
    requires Accepts(m, id, first, second) && Live(m.slots, ref)
    ensures Live(Attach(m, instance, id).slots, ref)
    ensures !SameCell(ref, Attach(m, instance, id).refs[Instance(instance)])
  {
  }

  lemma VisitKeepsRefs(m: Manager, slot: nat, now: nat, complete: set<nat>)
    requires RefsInv(m) && slot < |m.slots| && m.slots[slot].Some?
    ensures RefsInv(Apply(m, Visit(slot, now, complete)))
  {
    var g := m.slots[slot].value;
    FreedExactly(g, now, complete);
    var m' := Apply(m, Visit(slot, now, complete));
    forall o | o in m.refs
      ensures Live(m'.slots, m.refs[o])
    {
      assert Live(m.slots, m.refs[o]);
    }
  }

  lemma RefsUnderGraphUpdate(m: Manager, i: nat, g: Graph)
    requires RefsInv(m) && i < |m.slots| && m.slots[i].Some?
    requires g.streams == m.slots[i].value.streams
    ensures RefsInv(m.(slots := m.slots[i := Some(g)]))
  {
    var m' := m.(slots := m.slots[i := Some(g)]);
    forall o | o in m.refs
      ensures Live(m'.slots, m.refs[o])
    {
      assert Live(m.slots, m.refs[o]);
    }
  }

  /** No pointer an opcode instance still holds ever dangles. */
  lemma StepKeepsRefs(m: Manager, a: Action)
    requires Inv(m)
    ensures RefsInv(Apply(m, a))
  {
    hide Live, Occupied, Allocate;
    match a
    case CreateGraph(domain, theme, time) =>
      RegisterOutcome(m, domain, theme, time);
      RefsAfterRegister(m, domain, theme, time);
    case CreateStream(instance, id, first, second, hasMemory) =>
      ReleaseKeepsRefs(m, instance);
      var m1 := Release(m, instance);
      if hasMemory && Accepts(m1, id, first, second) {
        AttachKeepsRefs(m1, instance, id, first, second);
      }
    case ReleaseStream(instance) => ReleaseKeepsRefs(m, instance);
    case ForgetStream(instance) => ForgetKeepsRefs(m, instance);
    case Visit(slot, now, complete) =>
      if slot < |m.slots| && m.slots[slot].Some? {
        VisitKeepsRefs(m, slot, now, complete);
      }
    case _ =>
      var i := Find(m.slots, a.id);
      if i < |m.slots| {
        var after := Apply(m, a).slots[i].value;
        RefsUnderGraphUpdate(m, i, after);
        assert Apply(m, a) == m || Apply(m, a) == m.(slots := m.slots[i := Some(after)]);
      }
  }

  lemma ForgetKeepsRefs(m: Manager, instance: nat)
    requires RefsInv(m)
    ensures RefsInv(Apply(m, ForgetStream(instance)))
  {
  }

  lemma RefsAfterRegister(m: Manager, domain: Domain, theme: Theme, time: int)
    requires Inv(m)
    ensures RefsInv(Register(m, domain, theme, time).1)
  {
    RegisterOutcome(m, domain, theme, time);
    var m' := Register(m, domain, theme, time).1;
    forall o | o in m.refs
      ensures Live(m'.slots, m.refs[o])
    {
      assert Live(m.slots, m.refs[o]);
    }
  }

  lemma StepKeepsInv(m: Manager, a: Action)
    requires Inv(m)
    ensures Inv(Apply(m, a))
  {
    StepKeepsSlots(m, a);
    StepKeepsRefs(m, a);
  }

  /** One step on one slot: the graph in it evolves, or the sender frees it for the reasons
      `FreedExactly` gives; an empty slot may get a graph never seen before. */
  lemma SlotStep(m: Manager, a: Action, i: nat)
    requires Inv(m) && i < |m.slots|
    ensures |Apply(m, a).slots| == |m.slots| && Apply(m, a).serials >= m.serials
    ensures var after := Apply(m, a).slots[i];
      match m.slots[i]
      case Some(g) =>
        if after.Some? then Evolves(g, after.value)
        else a.Visit? && a.slot == i && FreedByVisit(g, a.now, a.complete)
      case None => after.Some? ==> a.CreateGraph? && after.value.serial == m.serials
  {
    match a
    case CreateGraph(domain, theme, time) =>
      RegisterOutcome(m, domain, theme, time);
      hide Register, InUse, RefsInv;
    case CreateStream(_, _, _, _, _) => CreateStreamEvolves(m, a, i);
    case ReleaseStream(instance) =>
      ReleaseEvolves(m, instance, i);
      hide Release;
    case Visit(_, _, _) => VisitEvolves(m, a, i);
    case _ =>
      hide RefsInv, FreedByVisit;
  }

  lemma CreateStreamEvolves(m: Manager, a: Action, i: nat)
    requires i < |m.slots| && a.CreateStream?
    ensures |Apply(m, a).slots| == |m.slots| && Apply(m, a).serials == m.serials
    ensures m.slots[i] == None <==> Apply(m, a).slots[i] == None
    ensures m.slots[i].Some? ==> Evolves(m.slots[i].value, Apply(m, a).slots[i].value)
  {
    ReleaseEvolves(m, a.instance, i);
    var m1 := Release(m, a.instance);
    if a.hasMemory && Accepts(m1, a.id, a.first, a.second) {
      AttachEvolves(m1, a.instance, a.id, a.first, a.second, i);
    }
    hide Release, Attach;
  }

  lemma VisitEvolves(m: Manager, a: Action, i: nat)
    requires i < |m.slots| && a.Visit?
    ensures |Apply(m, a).slots| == |m.slots| && Apply(m, a).serials == m.serials
    ensures m.slots[i] == None ==> Apply(m, a).slots[i] == None
    ensures m.slots[i].Some? ==>
      if Apply(m, a).slots[i].Some? then Evolves(m.slots[i].value, Apply(m, a).slots[i].value)
      else a.slot == i && FreedByVisit(m.slots[i].value, a.now, a.complete)
  {
  }

  lemma ReleaseEvolves(m: Manager, instance: nat, i: nat)
    requires i < |m.slots|
    ensures var m' := Release(m, instance);
      && |m'.slots| == |m.slots| && m'.serials == m.serials
      && (m.slots[i] == None <==> m'.slots[i] == None)
      && (m.slots[i].Some? ==>
            && Evolves(m.slots[i].value, m'.slots[i].value)
            && m'.slots[i].value.destroyRequested == m.slots[i].value.destroyRequested)
  {
  }

  lemma AttachEvolves(m: Manager, instance: nat, id: nat, first: Domain, second: Domain, i: nat)
    requires i < |m.slots| && Accepts(m, id, first, second)
    ensures var m' := Attach(m, instance, id);
      && |m'.slots| == |m.slots| && m'.serials == m.serials
      && (m.slots[i] == None <==> m'.slots[i] == None)
      && (m.slots[i].Some? ==> Evolves(m.slots[i].value, m'.slots[i].value))
  {
  }
}
