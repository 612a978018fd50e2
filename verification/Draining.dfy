/** The registry together with the packet ring and the table of every stream in it: what has
    been sent of a stream by the time it is freed. */
module Draining {
  import opened Samples
  import opened Wire
  import opened Items
  import Ring = StreamRing
  import StreamRuns
  import opened Registry
  import Lifecycle
  import StreamOps
  import TC = TableChunks

  /** A table being sent, with the number of its chunks the socket has accepted. */
  datatype Table = Table(origin: TC.Origin, snapshot: seq<Float>, accepted: nat)

  /** What a stream of the registry feeds on. */
  datatype Feed = Feed(params: Ring.Params, ring: Ring.Ring, table: Option<Table>)

  datatype Joint = Joint(m: Manager, feeds: map<nat, Feed>)

  predicate TableSent(f: Feed) {
    f.table.Some? ==>
      TC.NextSample(|f.table.value.snapshot|, f.table.value.accepted) >= |f.table.value.snapshot|
  }

  /** `stream_transfer_complete` */
  predicate TransferComplete(f: Feed) {
    StreamRuns.TransferComplete(f.ring) && TableSent(f)
  }

  function CompleteKeys(j: Joint): set<nat> {
    set k | k in j.feeds && TransferComplete(j.feeds[k])
  }

  /** `made` is the ring of the stream that `CreateStream` may attach. */
  datatype Event =
    | Act(a: Action, made: Feed)
    | RingStep(key: nat, step: Ring.Action)
    | SetTable(key: nat, table: Table)
    | SendChunk(key: nat, ok: bool)

  // ---------------------------------------------------------------- steps

  function CellAt(m: Manager, i: nat, c: nat): Option<Stream> {
    if i < |m.slots| && m.slots[i].Some? && c < |m.slots[i].value.streams|
    then m.slots[i].value.streams[c] else None
  }

  /** No opcode call of this instance is under way on its stream. */
  predicate BetweenCalls(j: Joint, instance: nat) {
    var o := Instance(instance);
    o in j.m.refs && j.m.refs[o].key in j.feeds ==> j.feeds[j.m.refs[o].key].ring.producer == Ring.Free
  }

  predicate Fresh(f: Feed) {
    Ring.WellFormed(f.params) && StreamRuns.IsInitial(f.params, f.ring) && f.table == None
  }

  predicate Enabled(j: Joint, e: Event) {
    match e
    case Act(a, made) =>
      && (a.Visit? ==> a.complete == CompleteKeys(j))
      && (a.CreateStream? || a.ReleaseStream? ==> BetweenCalls(j, a.instance))
      && Fresh(made)
    case RingStep(key, step) =>
      && key in j.feeds && !step.MarkReleased?
      && Ring.Enabled(j.feeds[key].params, j.feeds[key].ring, step)
    case SetTable(key, t) =>
      key in j.feeds && j.feeds[key].table == None && t.snapshot != [] && t.accepted == 0
    case SendChunk(key, _) =>
      && key in j.feeds && j.feeds[key].table.Some?
      && j.feeds[key].table.value.accepted < TC.ChunkCount(|j.feeds[key].table.value.snapshot|)
  }

  /** What `release_stream` does to the ring, under the lock that keeps the sender out. */
  function ReleasedRing(p: Ring.Params, r: Ring.Ring): Ring.Ring {
    var closed := if Ring.Enabled(p, r, Ring.Close) then Ring.Apply(p, r, Ring.Close) else r;
    var queued := if Ring.Enabled(p, closed, Ring.Publish) then Ring.Apply(p, closed, Ring.Publish) else closed;
    if Ring.Enabled(p, queued, Ring.MarkReleased) then Ring.Apply(p, queued, Ring.MarkReleased) else queued
  }

  function ReleaseFeed(j: Joint, instance: nat): Joint {
    var o := Instance(instance);
    Joint(Release(j.m, instance),
          if o in j.m.refs && j.m.refs[o].key in j.feeds then
            var key := j.m.refs[o].key;
            j.feeds[key := j.feeds[key].(ring := ReleasedRing(j.feeds[key].params, j.feeds[key].ring))]
          else j.feeds)
  }

  function ActStep(j: Joint, a: Action, made: Feed): Joint {
    if a.ReleaseStream? then ReleaseFeed(j, a.instance)
    else if a.CreateStream? then
      var j1 := ReleaseFeed(j, a.instance);
      if a.hasMemory && Accepts(j1.m, a.id, a.first, a.second)
      then Joint(Attach(j1.m, a.instance, a.id), j1.feeds[j1.m.keys := made])
      else j1
    else j.(m := Apply(j.m, a))
  }

  function Step(j: Joint, e: Event): Joint
    requires Enabled(j, e)
  {
    match e
    case Act(a, made) => ActStep(j, a, made)
    case RingStep(key, step) =>
      var f := j.feeds[key];
      j.(feeds := j.feeds[key := f.(ring := Ring.Apply(f.params, f.ring, step))])
    case SetTable(key, t) => j.(feeds := j.feeds[key := j.feeds[key].(table := Some(t))])
    case SendChunk(key, ok) =>
      var f := j.feeds[key];
      if ok then j.(feeds := j.feeds[key := f.(table := Some(f.table.value.(accepted := f.table.value.accepted + 1)))])
      else j
  }

  /** The registry's part of a joint step is the registry's own step. */
  lemma StepIsRegistryStep(j: Joint, e: Event)
    requires Enabled(j, e)
    ensures Step(j, e).m == if e.Act? then Apply(j.m, e.a) else j.m
  {
  }

  predicate IsRun(states: seq<Joint>, events: seq<Event>) {
    && |states| == |events| + 1
    && Lifecycle.IsInitial(states[0].m) && states[0].feeds == map[]
    && forall k :: 0 <= k < |events| ==>
         Enabled(states[k], events[k]) && states[k + 1] == Step(states[k], events[k])
  }

  // ---------------------------------------------------------------- invariant

  predicate SameKey(m: Manager, i: nat, c: nat, i': nat, c': nat) {
    && CellAt(m, i, c).Some? && CellAt(m, i', c').Some?
    && CellAt(m, i, c).value.key == CellAt(m, i', c').value.key
  }

  predicate HasFeed(j: Joint, s: Stream) {
    s.key < j.m.keys && s.key in j.feeds && j.feeds[s.key].ring.released == s.released
  }

  /** Each stream in a cell has a feed, which is released when it is. */
  ghost predicate Fed(j: Joint) {
    forall i: nat, c: nat :: CellAt(j.m, i, c).Some? ==> HasFeed(j, CellAt(j.m, i, c).value)
  }

  ghost predicate KeysDiffer(m: Manager) {
    forall i: nat, c: nat, i': nat, c': nat :: SameKey(m, i, c, i', c') ==> i == i' && c == c'
  }

  predicate FeedInv(f: Feed) {
    && Ring.WellFormed(f.params) && Ring.Inv(f.params, f.ring)
    && (f.table.Some? ==> f.table.value.accepted <= TC.ChunkCount(|f.table.value.snapshot|))
  }

  predicate FeedsInv(feeds: map<nat, Feed>) {
    forall k :: k in feeds ==> FeedInv(feeds[k])
  }

  ghost predicate JointInv(j: Joint) {
    Inv(j.m) && Fed(j) && KeysDiffer(j.m) && FeedsInv(j.feeds)
  }

  /** Releasing queues the residual packet, loses nothing, and marks the ring. */
  lemma ReleasedRingIs(p: Ring.Params, r: Ring.Ring)
    requires Ring.WellFormed(p) && Ring.Inv(p, r) && r.producer == Ring.Free
    ensures Ring.Inv(p, ReleasedRing(p, r))
    ensures ReleasedRing(p, r).released && ReleasedRing(p, r).log == r.log
  {
    var queued := r;
    if r.pending > 0 {
      Ring.StepKeepsInv(p, r, Ring.Close);
      var closed := Ring.Apply(p, r, Ring.Close);
      Ring.StepKeepsInv(p, closed, Ring.Publish);
      queued := Ring.Apply(p, closed, Ring.Publish);
    }
    Ring.StepKeepsInv(p, queued, Ring.MarkReleased);
    hide Ring.HistoryInv, Ring.SenderInv;
  }

  lemma FreshIsFine(f: Feed)
    requires Fresh(f)
    ensures FeedInv(f) && !f.ring.released
  {
    StreamRuns.RunKeepsInv(f.params, [f.ring], [], 0);
  }

  /** Releasing changes the one cell the instance points at. */
  lemma ReleasedCells(m: Manager, instance: nat, i: nat, c: nat)
    requires RefsInv(m)
    ensures Release(m, instance).keys == m.keys
    ensures var o := Instance(instance);
      CellAt(Release(m, instance), i, c) ==
        if o in m.refs && m.refs[o].slot == i && m.refs[o].index == c
        then Some(Stream(m.refs[o].key, true)) else CellAt(m, i, c)
    ensures Instance(instance) in m.refs ==>
      CellAt(m, m.refs[Instance(instance)].slot, m.refs[Instance(instance)].index)
        == Some(Stream(m.refs[Instance(instance)].key, false))
  {
    if Instance(instance) in m.refs {
      assert Live(m.slots, m.refs[Instance(instance)]);
    }
  }

  lemma ReleaseKeepsKeys(m: Manager, instance: nat)
    requires RefsInv(m) && KeysDiffer(m)
    ensures KeysDiffer(Release(m, instance))
  {
    hide CellAt, Release, RefsInv;
    forall i: nat, c: nat, i': nat, c': nat | SameKey(Release(m, instance), i, c, i', c')
      ensures i == i' && c == c'
    {
      ReleasedCells(m, instance, i, c);
      ReleasedCells(m, instance, i', c');
      assert SameKey(m, i, c, i', c');
    }
  }

  lemma ReleasedFeedIs(f: Feed)
    requires FeedInv(f) && f.ring.producer == Ring.Free
    ensures FeedInv(f.(ring := ReleasedRing(f.params, f.ring))) && ReleasedRing(f.params, f.ring).released
  {
    ReleasedRingIs(f.params, f.ring);
  }

  /** The stream an instance points at has a feed. */
  lemma HeldHasFeed(j: Joint, instance: nat)
    requires RefsInv(j.m) && Fed(j) && Instance(instance) in j.m.refs
    ensures j.m.refs[Instance(instance)].key in j.feeds
  {
    var ref := j.m.refs[Instance(instance)];
    ReleasedCells(j.m, instance, ref.slot, ref.index);
    assert HasFeed(j, CellAt(j.m, ref.slot, ref.index).value);
  }

  lemma ReleaseKeepsFeeds(j: Joint, instance: nat)
    requires RefsInv(j.m) && Fed(j) && FeedsInv(j.feeds) && BetweenCalls(j, instance)
    ensures FeedsInv(ReleaseFeed(j, instance).feeds)
    ensures var o := Instance(instance); o in j.m.refs ==>
      && j.m.refs[o].key in j.feeds
      && ReleaseFeed(j, instance).feeds[j.m.refs[o].key].ring.released
  {
    if Instance(instance) in j.m.refs {
      HeldHasFeed(j, instance);
      ReleasedFeedIs(j.feeds[j.m.refs[Instance(instance)].key]);
    }
    hide Release, ReleasedRing, RefsInv, FeedInv, Fed;
  }

  lemma ReleasedCellIsFed(j: Joint, instance: nat, i: nat, c: nat)
    requires RefsInv(j.m) && Fed(j) && KeysDiffer(j.m) && FeedsInv(j.feeds) && BetweenCalls(j, instance)
    requires CellAt(ReleaseFeed(j, instance).m, i, c).Some?
    ensures HasFeed(ReleaseFeed(j, instance), CellAt(ReleaseFeed(j, instance).m, i, c).value)
  {
    hide CellAt, Release, ReleasedRing, RefsInv, FeedsInv, BetweenCalls, KeysDiffer;
    ReleasedCells(j.m, instance, i, c);
    ReleaseKeepsFeeds(j, instance);
    if Instance(instance) in j.m.refs && CellAt(j.m, i, c).Some?
       && CellAt(j.m, i, c).value.key == j.m.refs[Instance(instance)].key {
      OnlyHeldKey(j.m, instance, i, c);
    }
    assert HasFeed(j, CellAt(j.m, i, c).value);
    hide Fed;
  }

  /** No other cell has the key of the stream the instance holds. */
  lemma OnlyHeldKey(m: Manager, instance: nat, i: nat, c: nat)
    requires RefsInv(m) && KeysDiffer(m)
    requires Instance(instance) in m.refs && CellAt(m, i, c).Some?
      && CellAt(m, i, c).value.key == m.refs[Instance(instance)].key
    ensures i == m.refs[Instance(instance)].slot && c == m.refs[Instance(instance)].index
  {
    ReleasedCells(m, instance, i, c);
    assert SameKey(m, i, c, m.refs[Instance(instance)].slot, m.refs[Instance(instance)].index);
  }

  lemma ReleaseKeepsFed(j: Joint, instance: nat)
    requires RefsInv(j.m) && Fed(j) && KeysDiffer(j.m) && FeedsInv(j.feeds) && BetweenCalls(j, instance)
    ensures Fed(ReleaseFeed(j, instance)) && ReleaseFeed(j, instance).m.keys == j.m.keys
  {
    var j' := ReleaseFeed(j, instance);
    ReleasedCells(j.m, instance, 0, 0);
    forall i: nat, c: nat | CellAt(j'.m, i, c).Some?
      ensures HasFeed(j', CellAt(j'.m, i, c).value)
    {
      ReleasedCellIsFed(j, instance, i, c);
    }
    hide CellAt, HasFeed, RefsInv, FeedsInv, KeysDiffer, Release, ReleaseFeed;
  }

  lemma AttachedCells(m: Manager, instance: nat, id: nat, first: StreamOps.Domain, second: StreamOps.Domain,
                      i: nat, c: nat)
    requires Accepts(m, id, first, second)
    ensures Attach(m, instance, id).keys == m.keys + 1
    ensures CellAt(Attach(m, instance, id), i, c) == CellAt(m, i, c)
      || (CellAt(Attach(m, instance, id), i, c) == Some(Stream(m.keys, false))
          && i == Find(m.slots, id) && c == FirstFree(m.slots[i].value.streams))
  {
  }

  lemma AttachKeepsKeys(j: Joint, instance: nat, id: nat, first: StreamOps.Domain, second: StreamOps.Domain)
    requires Fed(j) && KeysDiffer(j.m) && Accepts(j.m, id, first, second)
    ensures KeysDiffer(Attach(j.m, instance, id))
  {
    var m' := Attach(j.m, instance, id);
    hide CellAt, Attach;
    forall i: nat, c: nat, i': nat, c': nat | SameKey(m', i, c, i', c')
      ensures i == i' && c == c'
    {
      AttachedCells(j.m, instance, id, first, second, i, c);
      AttachedCells(j.m, instance, id, first, second, i', c');
      assert SameKey(j.m, i, c, i', c') || CellAt(m', i, c).value.key == j.m.keys;
    }
  }

  lemma AttachKeepsFed(j: Joint, instance: nat, id: nat, first: StreamOps.Domain, second: StreamOps.Domain,
                       made: Feed)
    requires Fed(j) && FeedsInv(j.feeds) && Accepts(j.m, id, first, second) && Fresh(made)
    ensures Fed(Joint(Attach(j.m, instance, id), j.feeds[j.m.keys := made]))
    ensures FeedsInv(j.feeds[j.m.keys := made])
  {
    var j' := Joint(Attach(j.m, instance, id), j.feeds[j.m.keys := made]);
    FreshIsFine(made);
    hide FeedInv, Fresh;
    assert FeedsInv(j'.feeds);
    hide FeedsInv;
    forall i: nat, c: nat | CellAt(j'.m, i, c).Some?
      ensures HasFeed(j', CellAt(j'.m, i, c).value)
    {
      AttachedCells(j.m, instance, id, first, second, i, c);
      hide CellAt, Attach, Accepts;
      assert CellAt(j.m, i, c).Some? ==> HasFeed(j, CellAt(j.m, i, c).value);
    }
    hide *;
  }

  /** No other action makes a stream or changes one that stays. */
  lemma OtherCells(m: Manager, a: Action, i: nat, c: nat)
    requires Inv(m) && !a.CreateStream? && !a.ReleaseStream?
    ensures Apply(m, a).keys >= m.keys
    ensures CellAt(Apply(m, a), i, c).Some? ==> CellAt(Apply(m, a), i, c) == CellAt(m, i, c)
  {
    if a.CreateGraph? {
      RegisterOutcome(m, a.domain, a.theme, a.time);
    }
    hide Register, SlotsInv, RefsInv, Find;
  }

  lemma OtherKeepsCells(j: Joint, a: Action)
    requires JointInv(j) && !a.CreateStream? && !a.ReleaseStream?
    ensures Fed(j.(m := Apply(j.m, a))) && KeysDiffer(Apply(j.m, a))
  {
    var j' := j.(m := Apply(j.m, a));
    hide CellAt, Apply, Inv, FeedsInv;
    forall i: nat, c: nat | CellAt(j'.m, i, c).Some?
      ensures HasFeed(j', CellAt(j'.m, i, c).value)
    {
      OtherCells(j.m, a, i, c);
    }
    forall i: nat, c: nat, i': nat, c': nat | SameKey(j'.m, i, c, i', c')
      ensures i == i' && c == c'
    {
      OtherCells(j.m, a, i, c);
      OtherCells(j.m, a, i', c');
      assert SameKey(j.m, i, c, i', c');
    }
  }

  lemma ActKeepsCells(j: Joint, a: Action, made: Feed)
    requires JointInv(j) && Enabled(j, Act(a, made))
    ensures var j' := ActStep(j, a, made); Fed(j') && KeysDiffer(j'.m) && FeedsInv(j'.feeds)
  {
    hide Fed, KeysDiffer, FeedsInv;
    if a.ReleaseStream? || a.CreateStream? {
      ReleaseKeepsFed(j, a.instance);
      ReleaseKeepsFeeds(j, a.instance);
      ReleaseKeepsKeys(j.m, a.instance);
      var j1 := ReleaseFeed(j, a.instance);
      if a.CreateStream? && a.hasMemory && Accepts(j1.m, a.id, a.first, a.second) {
        AttachKeepsFed(j1, a.instance, a.id, a.first, a.second, made);
        AttachKeepsKeys(j1, a.instance, a.id, a.first, a.second);
      }
    } else {
      OtherKeepsCells(j, a);
    }
  }

  /** A feed may be replaced by any sound one that is released when it was. */
  lemma FeedReplaced(j: Joint, key: nat, f: Feed)
    requires JointInv(j) && key in j.feeds && FeedInv(f)
    requires f.ring.released == j.feeds[key].ring.released
    ensures JointInv(j.(feeds := j.feeds[key := f]))
  {
    var j' := j.(feeds := j.feeds[key := f]);
    hide CellAt, Inv, FeedInv;
    forall i: nat, c: nat | CellAt(j'.m, i, c).Some?
      ensures HasFeed(j', CellAt(j'.m, i, c).value)
    {
      assert HasFeed(j, CellAt(j.m, i, c).value);
    }
  }

  /** A step of one stream's own. */
  lemma FeedStepKeepsInv(j: Joint, e: Event)
    requires JointInv(j) && Enabled(j, e) && !e.Act?
    ensures JointInv(Step(j, e))
  {
    assert FeedInv(j.feeds[e.key]);
    if e.RingStep? {
      Ring.StepKeepsInv(j.feeds[e.key].params, j.feeds[e.key].ring, e.step);
      RingStepKeepsReleased(j.feeds[e.key].params, j.feeds[e.key].ring, e.step);
    }
    hide Ring.Inv, Ring.Apply, Ring.Enabled, JointInv;
    if Step(j, e) != j {
      FeedReplaced(j, e.key, Step(j, e).feeds[e.key]);
    }
  }

  lemma RingStepKeepsReleased(p: Ring.Params, r: Ring.Ring, a: Ring.Action)
    requires Ring.Enabled(p, r, a) && !a.MarkReleased?
    ensures Ring.Apply(p, r, a).released == r.released
  {
  }

  lemma StepKeepsJoint(j: Joint, e: Event)
    requires JointInv(j) && Enabled(j, e)
    ensures JointInv(Step(j, e))
  {
    if e.Act? {
      ActKeepsCells(j, e.a, e.made);
      StepIsRegistryStep(j, e);
      StepKeepsInv(j.m, e.a);
      hide Fed, KeysDiffer, FeedsInv, Inv, ActStep, Apply;
    } else {
      FeedStepKeepsInv(j, e);
    }
  }

  lemma {:induction false} RunKeepsJoint(states: seq<Joint>, events: seq<Event>, k: nat)
    requires IsRun(states, events) && k < |states|
    ensures JointInv(states[k])
  {
    if k == 0 {
      Lifecycle.RunKeepsInv([states[0].m], [], 0);
    } else {
      hide JointInv, Step, Enabled;
      RunKeepsJoint(states, events, k - 1);
      StepKeepsJoint(states[k - 1], events[k - 1]);
    }
  }

  // ---------------------------------------------------------------- what a freed stream has sent

  /** Everything the stream did not count as dropped is on the wire, and every chunk of its
      table was accepted. */
  predicate SentAll(f: Feed) {
    && f.ring.released
    && Flat(f.params.floatsPerSample, f.ring.wire) == Kept(f.ring.log)
    && |Flat(f.params.floatsPerSample, f.ring.wire)| + f.ring.dropped == |f.ring.log|
    && (f.table.Some? ==> f.table.value.accepted == TC.ChunkCount(|f.table.value.snapshot|))
  }

  lemma CompleteSentAll(f: Feed)
    requires FeedInv(f) && TransferComplete(f) && f.ring.released
    ensures SentAll(f)
  {
    StreamRuns.DrainedSentAll(f.params, f.ring);
    if f.table.Some? {
      TC.NothingLeftToSend(|f.table.value.snapshot|, f.table.value.accepted);
    }
  }

  lemma ClearedByVisit(m: Manager, i: nat, c: nat, now: nat, complete: set<nat>)
    requires CellAt(m, i, c).Some? && CellAt(Apply(m, Visit(i, now, complete)), i, c) == None
    ensures CellAt(m, i, c).value.released
    ensures m.slots[i].value.acked ==> CellAt(m, i, c).value.key in complete
  {
    FreedExactly(m.slots[i].value, now, complete);
  }

  /** Over every run of opcodes, producers and sender: when the sender frees a stream of an
      acknowledged graph, the stream has sent every sample it did not count as dropped, in
      order, and its whole table. Only an abandoned graph frees streams undrained. */
  lemma FreedStreamSentAll(states: seq<Joint>, events: seq<Event>, k: nat, i: nat, c: nat)
    requires IsRun(states, events) && k < |events|
    requires CellAt(states[k].m, i, c).Some? && CellAt(states[k + 1].m, i, c) == None
    ensures events[k].Act? && events[k].a.Visit? && events[k].a.slot == i
    ensures states[k].m.slots[i].value.acked || Abandoned(states[k].m.slots[i].value)
    ensures var key := CellAt(states[k].m, i, c).value.key;
      states[k].m.slots[i].value.acked ==> key in states[k].feeds && SentAll(states[k].feeds[key])
  {
    var j, e, s := states[k], events[k], CellAt(states[k].m, i, c).value;
    RunKeepsJoint(states, events, k);
    StepIsRegistryStep(j, e);
    OnlyVisitsClear(j.m, e, i, c);
    ClearedByVisit(j.m, i, c, e.a.now, e.a.complete);
    assert HasFeed(j, s);
    hide Apply, CellAt, Inv;
    if j.m.slots[i].value.acked {
      assert FeedInv(j.feeds[s.key]);
      CompleteSentAll(j.feeds[s.key]);
    }
  }

  lemma OnlyVisitsClear(m: Manager, e: Event, i: nat, c: nat)
    requires Inv(m) && CellAt(m, i, c).Some?
    requires CellAt(if e.Act? then Apply(m, e.a) else m, i, c) == None
    ensures e.Act? && e.a.Visit? && e.a.slot == i
    ensures m.slots[i].value.acked || Abandoned(m.slots[i].value)
  {
    if e.Act? && e.a.CreateGraph? {
      RegisterOutcome(m, e.a.domain, e.a.theme, e.a.time);
    } else if e.Act? && e.a.ReleaseStream? {
      ReleasedCells(m, e.a.instance, i, c);
    } else if e.Act? && e.a.CreateStream? {
      ReleasedCells(m, e.a.instance, i, c);
      var m1 := Release(m, e.a.instance);
      if e.a.hasMemory && Accepts(m1, e.a.id, e.a.first, e.a.second) {
        AttachedCells(m1, e.a.instance, e.a.id, e.a.first, e.a.second, i, c);
      }
    }
  }
}
