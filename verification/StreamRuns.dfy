/** What the ring guarantees over whole runs: every interleaving of producer and
    sender steps, with snapshots of any age. */
module StreamRuns {
  import opened Wire
  import opened Items
  import opened StreamRing

  /** A stream as `create_stream` leaves it; the slots may hold anything. */
  predicate IsInitial(p: Params, s: Ring) {
    && |s.slots| == p.capacity
    && s.writePos == s.readPos == s.pending == s.dropped == s.freed == 0
    && !s.released && s.producer == Free && s.sender == Resting
    && s.published == [] && s.wire == [] && s.log == []
  }

  predicate IsRun(p: Params, states: seq<Ring>, actions: seq<Action>) {
    && |states| == |actions| + 1
    && IsInitial(p, states[0])
    && forall k :: 0 <= k < |actions| ==>
         Enabled(p, states[k], actions[k]) && states[k + 1] == Apply(p, states[k], actions[k])
  }

  lemma {:induction false} RunKeepsInv(p: Params, states: seq<Ring>, actions: seq<Action>, k: nat)
    requires WellFormed(p) && IsRun(p, states, actions) && k < |states|
    ensures Inv(p, states[k])
  {
    if k == 0 {
      assert PendingItems(p, states[0]) == [];
    } else {
      RunKeepsInv(p, states, actions, k - 1);
      StepKeepsInv(p, states[k - 1], actions[k - 1]);
    }
  }

  /** The packets handed to the socket so far are a prefix of the packets published:
      sent in order, none skipped, repeated or torn, and none oversize. */
  lemma SentInOrder(p: Params, states: seq<Ring>, actions: seq<Action>, k: nat)
    requires WellFormed(p) && IsRun(p, states, actions) && k < |states|
    ensures states[k].wire <= states[k].published
    ensures forall i :: 0 <= i < |states[k].wire| ==>
      Sealed(p, states[k].wire[i]) && !Oversize(states[k].wire[i])
  {
    RunKeepsInv(p, states, actions, k);
    forall i | 0 <= i < |states[k].wire|
      ensures Sealed(p, states[k].wire[i]) && !Oversize(states[k].wire[i])
    {
      assert states[k].wire[i] == states[k].published[i];
      SealedFits(p, states[k].published[i]);
    }
  }

  /** While the sender holds or has just sent a slot, no producer step changes that
      slot: the producer writes only outside `[read, write)`. */
  lemma HeldSlotIsStable(p: Params, s: Ring, a: Action)
    requires WellFormed(p) && Inv(p, s) && Enabled(p, s, a) && !s.sender.Resting?
    requires !(a.LoadWrite? || a.Send? || a.FreeSlot?)
    ensures s.sender.read != s.writePos
    ensures Apply(p, s, a).slots[s.sender.read] == s.slots[s.sender.read]
    ensures Apply(p, s, a).sender == s.sender
  {
  }

  /** Publishing a pending packet without looking at the read position never makes a
      full ring look empty: the slot after it is still free. */
  lemma PendingReservesRoom(p: Params, s: Ring)
    requires WellFormed(p) && Inv(p, s) && s.pending > 0
    ensures Next(s.writePos, p.capacity) != s.readPos
    ensures Enabled(p, s, Close)
    ensures Enabled(p, Apply(p, s, Close), Publish)
    ensures var s' := Apply(p, Apply(p, s, Close), Publish);
      s'.writePos != s'.readPos && QueueLength(s') == QueueLength(s) + 1 < p.capacity
  {
  }

  /** A stale snapshot errs on the safe side: if it shows room there is room, and if
      the ring is really full it shows a full ring. */
  lemma StaleSnapshotIsSafe(p: Params, s: Ring)
    requires WellFormed(p) && Inv(p, s) && s.producer.Snapshot?
    ensures Next(s.writePos, p.capacity) == s.readPos ==>
      Next(s.writePos, p.capacity) == s.producer.read
    ensures Next(s.writePos, p.capacity) != s.producer.read ==> QueueLength(s) + 1 < p.capacity
  {
  }

  // ---------------------------------------------------------------- conservation

  function Unsent(s: Ring): seq<Packet>
    requires |s.wire| <= |s.published|
  {
    s.published[|s.wire|..]
  }

  /** Kept samples are, in order, those sent, those queued and those pending; and every
      offered sample is kept or counted as dropped. */
  lemma Conservation(p: Params, states: seq<Ring>, actions: seq<Action>, k: nat)
    requires WellFormed(p) && IsRun(p, states, actions) && k < |states|
    ensures Shape(p, states[k]) && |states[k].wire| <= |states[k].published|
    ensures var s, f := states[k], p.floatsPerSample;
      && Kept(s.log) == Flat(f, s.wire) + Flat(f, Unsent(s)) + PendingItems(p, s)
      && |s.log| == |Flat(f, s.wire)| + |Flat(f, Unsent(s))| + PendingCount(s) + s.dropped
  {
    RunKeepsInv(p, states, actions, k);
    var s, f := states[k], p.floatsPerSample;
    assert s.published == s.wire + Unsent(s);
    FlatAppend(f, s.wire, Unsent(s));
  }

  /** What `stream_transfer_complete` tests on the ring. */
  predicate TransferComplete(s: Ring) {
    s.readPos == s.writePos && s.pending == 0
  }

  /** A released stream that passes the drain test has sent every sample it did not
      count as dropped, and nothing will be added to it any more. */
  lemma DrainedSentAll(p: Params, s: Ring)
    requires WellFormed(p) && Inv(p, s) && s.released && TransferComplete(s)
    ensures Flat(p.floatsPerSample, s.wire) == Kept(s.log)
    ensures |Flat(p.floatsPerSample, s.wire)| + s.dropped == |s.log|
    ensures forall a :: Enabled(p, s, a) ==>
      Apply(p, s, a).log == s.log && Apply(p, s, a).wire == s.wire
  {
    EmptyExactly(p, s);
    assert s.wire == s.published;
    assert PendingItems(p, s) == [];
  }

  lemma DrainedStreamSentAll(p: Params, states: seq<Ring>, actions: seq<Action>, k: nat)
    requires WellFormed(p) && IsRun(p, states, actions) && k < |states|
    requires states[k].released && TransferComplete(states[k])
    ensures Flat(p.floatsPerSample, states[k].wire) == Kept(states[k].log)
    ensures |Flat(p.floatsPerSample, states[k].wire)| + states[k].dropped == |states[k].log|
    ensures forall a :: Enabled(p, states[k], a) ==>
      Apply(p, states[k], a).log == states[k].log && Apply(p, states[k], a).wire == states[k].wire
  {
    RunKeepsInv(p, states, actions, k);
    DrainedSentAll(p, states[k]);
  }

  // ---------------------------------------------------------------- faithfulness

  predicate Offered(log: seq<Logged>, item: Item) {
    exists j :: 0 <= j < |log| && log[j].item == item
  }

  /** The producer offered its samples at strictly increasing positions. */
  predicate Increasing(log: seq<Logged>) {
    forall i, j :: 0 <= i < j < |log| ==> log[i].item.position < log[j].item.position
  }

  lemma {:induction false} KeptWasOffered(log: seq<Logged>, item: Item)
    requires item in Kept(log)
    ensures Offered(log, item)
  {
    var last := log[|log| - 1];
    if last.kept && last.item == item {
    } else {
      KeptWasOffered(log[..|log| - 1], item);
    }
  }

  lemma {:induction false} FlatContains(f: nat, packets: seq<Packet>, k: nat, item: Item)
    requires k < |packets| && item in PacketItems(f, packets[k])
    ensures item in Flat(f, packets)
  {
    if k < |packets| - 1 {
      FlatContains(f, packets[..|packets| - 1], k, item);
    }
  }

  /** Each sample of each packet on the wire is a sample the producer offered at exactly
      that position. */
  lemma WireIsFaithful(p: Params, states: seq<Ring>, actions: seq<Action>, k: nat, w: nat, i: nat)
    requires WellFormed(p) && IsRun(p, states, actions) && k < |states|
    requires w < |states[k].wire| && states[k].wire[w].Time?
    requires i < states[k].wire[w].sampleCount
    ensures var packet := states[k].wire[w];
      Offered(states[k].log,
              Item(packet.header.sequence + i, Cell(packet.samples, p.floatsPerSample, i)))
  {
    RunKeepsInv(p, states, actions, k);
    var s, f := states[k], p.floatsPerSample;
    var packet := s.wire[w];
    var item := Item(packet.header.sequence + i, Cell(packet.samples, f, i));
    assert packet == s.published[w];
    assert PacketItems(f, packet)[i] == item;
    FlatContains(f, s.published, w, item);
    assert item in Kept(s.log);
    KeptWasOffered(s.log, item);
  }
}
