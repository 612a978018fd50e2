/** From the opcode that offers a sample to the sample the viewer draws. */
module EndToEnd {
  import opened Samples
  import opened Wire
  import opened Items
  import opened StreamRing
  import opened StreamRuns
  import opened Timeline
  import opened WireAgreement
  import opened TableTransfer
  import TC = TableChunks

  /** The audio and control samples offered, by position. */
  function OfferedAt(log: seq<Logged>): map<int, Float>
    requires Increasing(log)
  {
    map j | 0 <= j < |log| && |log[j].item.cell| == 1 :: log[j].item.position := log[j].item.cell[0]
  }

  lemma OfferedHas(log: seq<Logged>, item: Item)
    requires Increasing(log) && Offered(log, item) && |item.cell| == 1
    ensures item.position in OfferedAt(log) && OfferedAt(log)[item.position] == item.cell[0]
  {
  }

  /** What the channel hands to the viewer: packets lost, repeated and reordered at will. */
  function Picked(wire: seq<Packet>, order: seq<nat>): (r: seq<Packet>)
    requires forall j :: 0 <= j < |order| ==> order[j] < |wire|
    ensures |r| == |order| && forall j :: 0 <= j < |r| ==> r[j] == wire[order[j]]
  {
    seq(|order|, j requires 0 <= j < |order| => wire[order[j]])
  }

  /** A run of an audio, control or point stream that has sent time packets only. */
  predicate TimeRun(p: Params, states: seq<Ring>, actions: seq<Action>, k: nat) {
    && TimeStream(p)
    && StreamRuns.IsRun(p, states, actions) && k < |states|
    && Increasing(states[k].log)
    && forall w :: 0 <= w < |states[k].wire| ==> states[k].wire[w].Time?
  }

  /** A run of an audio or control stream. */
  predicate ScopeRun(p: Params, states: seq<Ring>, actions: seq<Action>, k: nat) {
    TimeRun(p, states, actions, k) && p.kind == Data
  }

  /** Every packet sent is a sealed one of this stream. */
  lemma SentIsSealed(p: Params, states: seq<Ring>, actions: seq<Action>, k: nat, w: nat)
    requires TimeRun(p, states, actions, k) && w < |states[k].wire|
    ensures var packet := states[k].wire[w];
      && packet.Time? && Sealed(p, packet)
      && 1 <= packet.sampleCount && |packet.samples| == MAX_STREAM_SAMPLES
      && Stride(packet.sampleCount, p.floatsPerSample) <= MAX_STREAM_SAMPLES
      && packet.graphId == p.graphId && packet.streamId == p.streamId && packet.sampleRate == p.sampleRate
  {
    StreamRuns.SentInOrder(p, states, actions, k);
    SealedFits(p, states[k].wire[w]);
  }

  lemma SentSample(p: Params, states: seq<Ring>, actions: seq<Action>, k: nat, w: nat, i: nat)
    requires ScopeRun(p, states, actions, k) && w < |states[k].wire|
    requires i < states[k].wire[w].sampleCount <= |states[k].wire[w].samples|
    ensures TrueSample(states[k].wire[w], OfferedAt(states[k].log), i)
  {
    var packet := states[k].wire[w];
    WireIsFaithful(p, states, actions, k, w, i);
    StrideOfSamples(i);
    var item := Item(packet.header.sequence + i, Cell(packet.samples, 1, i));
    assert item.cell == [packet.samples[i]];
    OfferedHas(states[k].log, item);
  }

  lemma SentIsFaithful(p: Params, states: seq<Ring>, actions: seq<Action>, k: nat, w: nat)
    requires ScopeRun(p, states, actions, k) && w < |states[k].wire|
    ensures var packet := states[k].wire[w];
      && packet.Time? && 1 <= packet.sampleCount <= |packet.samples| == MAX_STREAM_SAMPLES
      && packet.graphId == p.graphId && packet.streamId == p.streamId && packet.sampleRate == p.sampleRate
      && Faithful(packet, OfferedAt(states[k].log))
  {
    SentIsSealed(p, states, actions, k, w);
    var packet := states[k].wire[w];
    StrideOfSamples(packet.sampleCount);
    forall i: nat | i < packet.sampleCount
      ensures TrueSample(packet, OfferedAt(states[k].log), i)
    {
      SentSample(p, states, actions, k, w, i);
    }
  }

  lemma PickedIsFaithful(p: Params, states: seq<Ring>, actions: seq<Action>, k: nat, order: seq<nat>)
    requires ScopeRun(p, states, actions, k)
    requires forall j :: 0 <= j < |order| ==> order[j] < |states[k].wire|
    ensures var packets := Picked(states[k].wire, order);
      && Readable(packets)
      && forall j :: 0 <= j < |packets| ==>
           packets[j].sampleCount >= 1 && Faithful(packets[j], OfferedAt(states[k].log))
  {
    forall j | 0 <= j < |order|
      ensures states[k].wire[order[j]].Time?
      ensures 1 <= states[k].wire[order[j]].sampleCount <= |states[k].wire[order[j]].samples|
      ensures Faithful(states[k].wire[order[j]], OfferedAt(states[k].log))
    {
      SentIsFaithful(p, states, actions, k, order[j]);
    }
  }

  /** Whatever the interleaving of producer and sender, and however packets are lost,
      repeated or reordered: the sample the viewer reads from its ring for any position in
      its valid window is the sample offered at that position, or zero. */
  lemma ShownSampleIsTrueOrZero(p: Params, states: seq<Ring>, actions: seq<Action>, k: nat,
                                order: seq<nat>, s: ScopeStream, first: int, i: nat)
    requires ScopeRun(p, states, actions, k) && order != []
    requires forall j :: 0 <= j < |order| ==> order[j] < |states[k].wire|
    requires Readable(Picked(states[k].wire, order))
    requires s.Valid() && s.Timeline() == Replay(Picked(states[k].wire, order))
    requires s.nextSequence - s.validSamples <= first && first + i < s.nextSequence
    ensures s.capacity > 0 && s.buffer != null
    ensures (s.ScopeBufferIndex(first) + i) % s.capacity < s.buffer.Length
    ensures var shown := s.buffer[(s.ScopeBufferIndex(first) + i) % s.capacity];
      var offered := OfferedAt(states[k].log);
      shown == 0.0 || (first + i in offered && offered[first + i] == Finite(shown))
  {
    PickedIsFaithful(p, states, actions, k, order);
    ReplayIsFaithful(Picked(states[k].wire, order), OfferedAt(states[k].log));
    s.ReadBack(first, i);
  }

  // ---------------------------------------------------------------- loss without reordering

  predicate Rising(items: seq<Item>) {
    forall i, j :: 0 <= i < j < |items| ==> items[i].position < items[j].position
  }

  lemma {:induction false} KeptRises(log: seq<Logged>)
    requires Increasing(log)
    ensures Rising(Kept(log))
  {
    if log != [] {
      var init, last := log[..|log| - 1], log[|log| - 1];
      KeptRises(init);
      forall item | item in Kept(init)
        ensures item.position < last.item.position
      {
        KeptWasOffered(init, item);
      }
    }
  }

  /** Packets that hold rising samples cover stretches that do not overlap, in order. */
  lemma {:induction false} PacketsRise(f: nat, packets: seq<Packet>, a: nat, b: nat)
    requires a < b < |packets| && Rising(Flat(f, packets))
    requires packets[a].Time? && packets[b].Time?
    requires packets[a].sampleCount >= 1 && packets[b].sampleCount >= 1
    ensures packets[a].header.sequence + packets[a].sampleCount <= packets[b].header.sequence
  {
    var n := |packets| - 1;
    var init := packets[..n];
    var before, own := Flat(f, init), PacketItems(f, packets[n]);
    assert Flat(f, packets) == before + own;
    hide Rising, Flat, PacketItems;
    if b < n {
      RisingPrefix(before, own);
      PacketsRise(f, init, a, b);
    } else {
      LastRises(f, packets, a);
    }
  }

  lemma LastRises(f: nat, packets: seq<Packet>, a: nat)
    requires a + 1 < |packets| && Rising(Flat(f, packets))
    requires packets[a].Time? && packets[|packets| - 1].Time?
    requires packets[a].sampleCount >= 1 && packets[|packets| - 1].sampleCount >= 1
    ensures packets[a].header.sequence + packets[a].sampleCount <= packets[|packets| - 1].header.sequence
  {
    var n := |packets| - 1;
    var init := packets[..n];
    assert Flat(f, packets) == Flat(f, init) + PacketItems(f, packets[n]);
    hide Rising, Flat, PacketItems;
    FlatContains(f, init, a, Newest(f, packets[a]));
    NewestAndOldest(f, packets[n]);
    RisesAcross(Flat(f, init), PacketItems(f, packets[n]), Newest(f, packets[a]));
  }

  function Newest(f: nat, packet: Packet): (item: Item)
    requires packet.Time? && packet.sampleCount >= 1
    ensures item in PacketItems(f, packet)
    ensures item.position == packet.header.sequence + packet.sampleCount - 1
  {
    PacketItems(f, packet)[packet.sampleCount - 1]
  }

  lemma NewestAndOldest(f: nat, packet: Packet)
    requires packet.Time? && packet.sampleCount >= 1
    ensures PacketItems(f, packet) != []
    ensures PacketItems(f, packet)[0].position == packet.header.sequence
  {
  }

  lemma RisesAcross(before: seq<Item>, after: seq<Item>, x: Item)
    requires Rising(before + after) && x in before && after != []
    ensures x.position < after[0].position
  {
    var i :| 0 <= i < |before| && before[i] == x;
    assert (before + after)[i] == x && (before + after)[|before|] == after[0];
  }

  lemma RisingPrefix(before: seq<Item>, after: seq<Item>)
    requires Rising(before + after)
    ensures Rising(before)
  {
    assert forall i :: 0 <= i < |before| ==> (before + after)[i] == before[i];
  }

  lemma FirstPartRises(before: seq<Item>, mid: seq<Item>, after: seq<Item>)
    requires Rising(before + mid + after)
    ensures Rising(before)
  {
    assert before + mid + after == before + (mid + after);
    RisingPrefix(before, mid + after);
  }

  lemma WireRises(p: Params, states: seq<Ring>, actions: seq<Action>, k: nat)
    requires TimeRun(p, states, actions, k)
    ensures Rising(Flat(p.floatsPerSample, states[k].wire))
  {
    hide Shape, StreamRuns.IsRun, Increasing, Rising, Kept, Flat, PendingItems, Unsent, PendingCount;
    var f, s := p.floatsPerSample, states[k];
    Conservation(p, states, actions, k);
    KeptRises(s.log);
    FirstPartRises(Flat(f, s.wire), Flat(f, Unsent(s)), PendingItems(p, s));
  }

  lemma SentRises(p: Params, states: seq<Ring>, actions: seq<Action>, k: nat, a: nat, b: nat)
    requires TimeRun(p, states, actions, k) && a < b < |states[k].wire|
    ensures var wire := states[k].wire;
      wire[a].header.sequence + wire[a].sampleCount <= wire[b].header.sequence
  {
    WireRises(p, states, actions, k);
    SentIsSealed(p, states, actions, k, a);
    SentIsSealed(p, states, actions, k, b);
    hide *;
    PacketsRise(p.floatsPerSample, states[k].wire, a, b);
  }

  predicate Delivered(packets: seq<Packet>, s: int)
    requires Readable(packets)
  {
    exists j :: 0 <= j < |packets| && Covers(packets[j], s)
  }

  lemma {:induction false} SampledIsOffered(packets: seq<Packet>, offered: map<int, Float>, s: int)
    requires Readable(packets) && forall j :: 0 <= j < |packets| ==> Faithful(packets[j], offered)
    ensures Delivered(packets, s) ==> s in offered
    ensures Sampled(packets, s) == if Delivered(packets, s) then Sanitize(offered[s]) else 0.0
  {
    if packets != [] {
      var init, last := packets[..|packets| - 1], packets[|packets| - 1];
      SampledIsOffered(init, offered, s);
      if Covers(last, s) {
        assert TrueSample(last, offered, s - last.header.sequence);
        assert Delivered(packets, s);
      } else if Delivered(packets, s) {
        var j :| 0 <= j < |packets| && Covers(packets[j], s);
        assert init[j] == packets[j];
      } else {
        assert forall j :: 0 <= j < |init| ==> init[j] == packets[j];
      }
    }
  }

  /** With loss but no reordering or repetition the viewer's timeline is exact: it shows
      every sample that was delivered, sanitized and at its own position, and zero exactly
      where nothing was. */
  lemma LossyTimelineIsExact(p: Params, states: seq<Ring>, actions: seq<Action>, k: nat,
                             order: seq<nat>, s: int)
    requires ScopeRun(p, states, actions, k) && order != []
    requires forall j :: 0 <= j < |order| ==> order[j] < |states[k].wire|
    requires forall i, j :: 0 <= i < j < |order| ==> order[i] < order[j]
    requires Readable(Picked(states[k].wire, order))
    ensures var packets, offered := Picked(states[k].wire, order), OfferedAt(states[k].log);
      var line := Replay(packets).value;
      line.start <= s < End(line) ==>
        (Delivered(packets, s) ==> s in offered)
        && At(line, s) == if Delivered(packets, s) && offered[s].Finite? then offered[s].value else 0.0
  {
    var packets := Picked(states[k].wire, order);
    PickedIsFaithful(p, states, actions, k, order);
    forall i, j | 0 <= i < j < |packets|
      ensures packets[i].header.sequence + packets[i].sampleCount <= packets[j].header.sequence
    {
      SentRises(p, states, actions, k, order[i], order[j]);
    }
    InOrderReplayIsExact(packets, s);
    SampledIsOffered(packets, OfferedAt(states[k].log), s);
  }

  // ---------------------------------------------------------------- the viewer's loop

  /** A packet of a stream of this rate, as it comes off the socket. */
  predicate Receivable(packet: Packet, rate: real) {
    && packet.Time? && |packet.samples| == MAX_STREAM_SAMPLES
    && packet.sampleRate == Finite(rate)
    && ValidateData(packet, DatagramSize(packet))
  }

  ghost predicate Unused(s: ScopeStream)
    reads s
  {
    s.Cleared() && !s.unsupported
  }

  method ReceiveOne(s: ScopeStream, packet: Packet, rate: real, winSize: real)
    requires s.Valid() && (Unused(s) || s.Fits(winSize, rate))
    requires Receivable(packet, rate) && ScopeGeometry(winSize, rate).Some?
    modifies s, s.buffer
    ensures s.Valid() && s.Fits(winSize, rate)
    ensures packet.Time? && packet.sampleCount <= |packet.samples|
    ensures fresh(s.buffer) || s.buffer == old(s.buffer)
    ensures s.Timeline()
      == Some(Append(old(s.Timeline()), PacketSamples(packet), packet.header.sequence))
  {
    hide ScopeStream.RingInv, PacketSamples, Append;
    assert Unused(s) ==> s.Timeline() == None && !s.Fits(winSize, rate);
    var _ := s.ProcessData(packet, DatagramSize(packet), winSize, true);
  }

  lemma ReplaySnoc(packets: seq<Packet>, packet: Packet)
    requires Readable(packets) && packet.Time? && packet.sampleCount <= |packet.samples|
    ensures Readable(packets + [packet])
    ensures Replay(packets + [packet])
      == Some(Append(Replay(packets), PacketSamples(packet), packet.header.sequence))
  {
    assert (packets + [packet])[..|packets|] == packets;
  }

  lemma NothingReplayed(s: ScopeStream, none: seq<Packet>)
    requires Unused(s) && none == []
    ensures Readable(none) && s.Timeline() == Replay(none) && s.buffer == null
  {
  }

  /** A fresh stream buffer that is given the packets one by one holds their replay. */
  method ReceiveAll(s: ScopeStream, packets: seq<Packet>, rate: real, winSize: real)
    requires s.Valid() && Unused(s) && ScopeGeometry(winSize, rate).Some?
    requires forall k :: 0 <= k < |packets| ==> Receivable(packets[k], rate)
    modifies s
    ensures s.Valid() && Readable(packets)
    ensures s.Timeline() == Replay(packets)
    ensures packets != [] ==> s.Fits(winSize, rate)
  {
    hide *;
    ghost var done: seq<Packet> := [];
    NothingReplayed(s, done);
    for k := 0 to |packets|
      invariant s.Valid() && Readable(done) && done == packets[..k]
      invariant s.buffer == null || fresh(s.buffer)
      invariant Unused(s) || s.Fits(winSize, rate)
      invariant k > 0 ==> s.Fits(winSize, rate)
      invariant s.Timeline() == Replay(done)
    {
      ReceiveOne(s, packets[k], rate, winSize);
      ReplaySnoc(done, packets[k]);
      done := done + [packets[k]];
    }
    assert done == packets;
  }

  lemma PickedAreReceivable(p: Params, states: seq<Ring>, actions: seq<Action>, k: nat, order: seq<nat>)
    requires ScopeRun(p, states, actions, k) && Identified(p) && PositiveRate(p.sampleRate)
    requires forall j :: 0 <= j < |states[k].log| ==> states[k].log[j].item.position >= 0
    requires forall j :: 0 <= j < |order| ==> order[j] < |states[k].wire|
    ensures forall j :: 0 <= j < |order| ==> Receivable(Picked(states[k].wire, order)[j], p.sampleRate.value)
  {
    forall j | 0 <= j < |order|
      ensures Receivable(states[k].wire[order[j]], p.sampleRate.value)
    {
      StreamRuns.SentInOrder(p, states, actions, k);
      assert Sealed(p, states[k].wire[order[j]]);
      EverySentPacketIsAccepted(p, states, actions, k, order[j]);
    }
  }

  /** The whole way: the packets of any run of an audio or control stream, lost, repeated
      and reordered at will, reach a fresh viewer buffer, and a position is read from it. It
      is found exactly when it lies in the newest part of the timeline, and what is read is
      the sample offered there, or zero. */
  method ReadPosition(ghost p: Params, ghost states: seq<Ring>, ghost actions: seq<Action>, ghost k: nat,
                      ghost order: seq<nat>, packets: seq<Packet>, rate: real, winSize: real,
                      first: int, i: nat)
    returns (shown: Option<real>)
    requires ScopeRun(p, states, actions, k) && Identified(p) && p.sampleRate == Finite(rate) && rate > 0.0
    requires forall j :: 0 <= j < |states[k].log| ==> states[k].log[j].item.position >= 0
    requires order != [] && forall j :: 0 <= j < |order| ==> order[j] < |states[k].wire|
    requires packets == Picked(states[k].wire, order) && ScopeGeometry(winSize, rate).Some?
    ensures Readable(packets)
    ensures var line, g := Replay(packets).value, ScopeGeometry(winSize, rate).value;
      shown.Some? <==> End(line) - Min(|line.values|, g.capacity) <= first && first + i < End(line)
    ensures var offered := OfferedAt(states[k].log);
      shown.Some? ==>
        shown.value == 0.0 || (first + i in offered && offered[first + i] == Finite(shown.value))
  {
    PickedAreReceivable(p, states, actions, k, order);
    var s := new ScopeStream();
    ReceiveAll(s, packets, rate, winSize);
    if s.nextSequence - s.validSamples <= first && first + i < s.nextSequence {
      ShownSampleIsTrueOrZero(p, states, actions, k, order, s, first, i);
      return Some(s.buffer[(s.ScopeBufferIndex(first) + i) % s.capacity]);
    }
    return None;
  }

  // ---------------------------------------------------------------- tables

  /** The chunks of one table, in any order and with any repetition and loss, given one by
      one while memory lasts to a viewer that may have held another table: the table is
      displayed exactly when each chunk has arrived at least once, and then every finite
      sample is displayed as it was, and zero in place of the others. */
  method ReceiveTable(s: FtableStream, o: TC.Origin, snapshot: seq<Float>, order: seq<nat>)
    requires s.Valid() && !s.IsFor(o.transferId, |snapshot|)
    requires 0 < |snapshot| <= MAX_FTABLE_SAMPLES
    requires o.sequence >= 0 && o.graphId != 0 && o.streamId < MAX_STREAMS && o.transferId != 0
    requires order != [] && forall j :: 0 <= j < |order| ==> order[j] < TC.ChunkCount(|snapshot|)
    modifies s, s.samples, s.receivedChunks
    ensures s.Valid() && s.Table() == TC.Deliver(old(s.Table()), o, snapshot, order)
    ensures s.displayReady <==> forall k :: 0 <= k < TC.ChunkCount(|snapshot|) ==> k in order
    ensures s.displayReady ==> s.samples != null && s.samples.Length == |snapshot|
    ensures s.displayReady ==> forall i :: 0 <= i < |snapshot| ==>
      s.samples[i] == if snapshot[i].Finite? then snapshot[i].value else 0.0
  {
    ghost var before := s.Table();
    ghost var done: seq<nat> := [];
    NothingDelivered(s, before, o, snapshot, done);
    hide *;
    for j := 0 to |order|
      invariant s.Valid() && done == order[..j] && InProgress(s, before, o, snapshot, done)
      invariant s.samples == null || fresh(s.samples) || s.samples == old(s.samples)
      invariant s.receivedChunks == null || fresh(s.receivedChunks) || s.receivedChunks == old(s.receivedChunks)
    {
      ReceiveChunk(s, before, o, snapshot, done, order[j]);
      done := done + [order[j]];
    }
    assert done == order;
    ShownIsSnapshot(s, before, o, snapshot, order);
  }

  /** The buffer holds what was delivered so far and is ready once that is everything. */
  ghost predicate InProgress(s: FtableStream, before: TC.Transfer, o: TC.Origin, snapshot: seq<Float>, done: seq<nat>)
    reads s
  {
    && TC.NotOf(before, o, |snapshot|)
    && (forall j :: 0 <= j < |done| ==> done[j] < TC.ChunkCount(|snapshot|))
    && s.Table() == TC.Deliver(before, o, snapshot, done)
    && (if done == [] then !s.IsFor(o.transferId, |snapshot|)
        else s.displayReady <==> TC.Complete(s.Table()))
  }

  lemma NothingDelivered(s: FtableStream, before: TC.Transfer, o: TC.Origin, snapshot: seq<Float>, none: seq<nat>)
    requires before == s.Table() && !s.IsFor(o.transferId, |snapshot|) && none == []
    ensures InProgress(s, before, o, snapshot, none)
  {
  }

  lemma ShownIsSnapshot(s: FtableStream, before: TC.Transfer, o: TC.Origin, snapshot: seq<Float>, order: seq<nat>)
    requires s.Valid() && InProgress(s, before, o, snapshot, order) && order != []
    ensures forall j :: 0 <= j < |order| ==> order[j] < TC.ChunkCount(|snapshot|)
    ensures s.Table() == TC.Deliver(before, o, snapshot, order)
    ensures s.displayReady <==> forall k :: 0 <= k < TC.ChunkCount(|snapshot|) ==> k in order
    ensures s.displayReady ==> s.samples != null && s.samples.Length == |snapshot|
    ensures s.displayReady ==> forall i :: 0 <= i < |snapshot| ==>
      s.samples[i] == if snapshot[i].Finite? then snapshot[i].value else 0.0
  {
    hide FtableStream.Valid, TC.Contents, TC.SlicesOf;
    TC.TransferRoundTrip(before, o, snapshot, order);
    if s.displayReady {
      s.DisplayIsWhole();
      assert s.samples[..] == SanitizeAll(snapshot);
    }
  }

  method ReceiveChunk(s: FtableStream, ghost before: TC.Transfer, o: TC.Origin, snapshot: seq<Float>,
                      ghost done: seq<nat>, k: nat)
    requires s.Valid() && InProgress(s, before, o, snapshot, done)
    requires k < TC.ChunkCount(|snapshot|) && |snapshot| <= MAX_FTABLE_SAMPLES
    requires o.sequence >= 0 && o.graphId != 0 && o.streamId < MAX_STREAMS && o.transferId != 0
    modifies s, s.samples, s.receivedChunks
    ensures s.Valid() && InProgress(s, before, o, snapshot, done + [k])
    ensures s.samples == old(s.samples) || s.samples == null || fresh(s.samples)
    ensures s.receivedChunks == old(s.receivedChunks) || s.receivedChunks == null || fresh(s.receivedChunks)
  {
    hide FtableStream.Valid, TC.Contents, TC.Complete, TC.Receive;
    if done != [] {
      TC.TransferRoundTrip(before, o, snapshot, done);
    }
    TC.TablePacketIsValid(o, snapshot, k);
    var packet := TC.TablePacket(o, snapshot, k);
    s.ProcessFtable(packet, DatagramSize(packet), |snapshot|, true, true);
    assert (done + [k])[..|done|] == done;
  }
}
