/** The stream object and the opcode and sender code that works on it.

    Every access to a shared field is one atomic step of `StreamRing`. Between two
    accesses of the producer the sender may take any number of steps (`SenderTurns`),
    and the other way round (`ProducerTurns`), so the contracts below hold for every
    interleaving. */
module StreamOps {
  import opened Samples
  import opened Wire
  import opened Items
  import opened Frames
  import opened StreamRing

  const WATCH_VIEWER_REFRESH_HZ: real := 60.0

  datatype Domain =
    | OscilloscopeDomain | SpectrumDomain | ControlDomain | SpectrogramDomain | FtableDomain
    | PointDomain | MeterDomain

  /** Samples gathered before a packet is queued. */
  function PublishThreshold(domain: Domain, sampleRate: real, floatsPerSample: nat): nat
    requires floatsPerSample >= 1
  {
    var maxSamples := MAX_STREAM_SAMPLES / floatsPerSample;
    if domain == MeterDomain then 1
    else if domain == PointDomain then
      var frame := Ceil(sampleRate / WATCH_VIEWER_REFRESH_HZ);
      if 1 <= frame < maxSamples then frame
      else if frame < 1 then 1
      else maxSamples
    else maxSamples
  }

  lemma MostFits(f: nat)
    requires 1 <= f <= MAX_METER_CHANNELS
    ensures var most := MAX_STREAM_SAMPLES / f;
      1 <= most && Stride(most, f) <= MAX_STREAM_SAMPLES < Stride(most + 1, f)
      && (f == 2 ==> most == MAX_POINT_SAMPLES)
  {
    StrideIsProduct(MAX_STREAM_SAMPLES / f, f);
  }

  lemma ThresholdIs(domain: Domain, sampleRate: real, f: nat)
    requires 1 <= f <= MAX_METER_CHANNELS && 1 <= MAX_STREAM_SAMPLES / f
    ensures var t, most := PublishThreshold(domain, sampleRate, f), MAX_STREAM_SAMPLES / f;
      && 1 <= t <= most
      && (domain == MeterDomain ==> t == 1)
      && (domain != MeterDomain && domain != PointDomain ==> t == most)
      && (domain == PointDomain ==>
            && (t > 1 ==> (t - 1) as real * WATCH_VIEWER_REFRESH_HZ < sampleRate)
            && (t < most ==> t as real * WATCH_VIEWER_REFRESH_HZ >= sampleRate))
  {
  }

  /** Whatever the rate, a packet of `PublishThreshold` samples holds at least one sample
      and fits the 256-float payload; a point packet is also no longer than the viewer's
      128 points. A meter packet holds one sample, an audio or control packet as many as
      fit, a point packet the fewest that last a viewer frame, or as many as fit. */
  lemma ThresholdFits(domain: Domain, sampleRate: real, f: nat)
    requires 1 <= f <= MAX_METER_CHANNELS
    ensures var t := PublishThreshold(domain, sampleRate, f);
      && 1 <= t && Stride(t, f) <= MAX_STREAM_SAMPLES
      && (f == 2 ==> t <= MAX_POINT_SAMPLES)
      && (domain == MeterDomain ==> t == 1)
      && (domain != MeterDomain && domain != PointDomain ==> Stride(t + 1, f) > MAX_STREAM_SAMPLES)
      && (domain == PointDomain ==>
            && (t > 1 ==> (t - 1) as real * WATCH_VIEWER_REFRESH_HZ < sampleRate)
            && (Stride(t + 1, f) <= MAX_STREAM_SAMPLES ==> t as real * WATCH_VIEWER_REFRESH_HZ >= sampleRate))
  {
    var t, most := PublishThreshold(domain, sampleRate, f), MAX_STREAM_SAMPLES / f;
    MostFits(f);
    ThresholdIs(domain, sampleRate, f);
    hide PublishThreshold, Stride;
    if t < most {
      StrideApart(t, most, f);
    }
  }

  /** How one turn of the sender's loop ended. */
  datatype Outcome = Sent | Refused | Empty

  /** What sender steps may change, seen from the producer. */
  predicate SenderMoved(before: Ring, after: Ring) {
    && after == before.(readPos := after.readPos, sender := after.sender,
                        freed := after.freed, wire := after.wire)
    && before.freed <= after.freed
  }

  /** What producer steps may change, seen from the sender. */
  predicate ProducerMoved(before: Ring, after: Ring) {
    && after.readPos == before.readPos
    && after.sender == before.sender
    && after.freed == before.freed
    && after.wire == before.wire
    && before.published <= after.published
  }

  /** How offered samples are gathered in packets, when `kept` of them are kept. If the first
      does not continue the pending packet, that packet is queued as it is; apart from that
      only full packets are queued, and what does not fill one stays pending. */
  predicate Gathers(before: Ring, after: Ring, threshold: nat, sequence: int, offered: nat, kept: nat) {
    var flushed := if offered > 0 && Breaks(before, sequence) then 1 else 0;
    var held := if flushed == 1 then 0 else before.pending;
    && |before.published| + flushed <= |after.published|
    && Stride(|after.published| - |before.published| - flushed, threshold) + after.pending == held + kept
  }

  /** A sample at `sequence` does not continue the pending packet. */
  predicate Breaks(s: Ring, sequence: int) {
    s.pending > 0 && sequence != s.pendingSequence + s.pending
  }

  /** The same after `n` samples of a run from `sequence` on were kept: `flushed` says whether
      the packet that was pending has been queued, `full` how many full ones have. */
  predicate Gathered(before: Ring, now: Ring, threshold: nat, sequence: int, n: nat, flushed: bool, full: nat) {
    && (flushed ==> Breaks(before, sequence))
    && |now.published| == |before.published| + (if flushed then 1 else 0) + full
    && Stride(full, threshold) + now.pending == (if flushed then 0 else before.pending) + n
    && (n == 0 && !flushed ==> full == 0 && (now.pending > 0 ==> now.pendingSequence == before.pendingSequence))
    && (n == 0 && flushed ==> full == 0)
    && (n > 0 ==>
          && (Breaks(before, sequence) ==> flushed)
          && (now.pending > 0 ==> now.pendingSequence + now.pending == sequence + n))
  }

  lemma NothingGathered(before: Ring, threshold: nat, sequence: int)
    ensures Gathered(before, before, threshold, sequence, 0, false, 0)
  {
  }

  /** Only the packet that was pending before can break, and it is queued once. */
  lemma GatherFlushes(before: Ring, now: Ring, after: Ring, threshold: nat, sequence: int,
                      n: nat, flushed: bool, full: nat)
    requires Gathered(before, now, threshold, sequence, n, flushed, full) && Breaks(now, sequence + n)
    requires after.pending == 0 && |after.published| == |now.published| + 1
    ensures n == 0 && !flushed && full == 0
    ensures Gathered(before, after, threshold, sequence, 0, true, 0)
  {
  }

  lemma GatherGrows(before: Ring, now: Ring, after: Ring, threshold: nat, sequence: int,
                    n: nat, flushed: bool, full: nat, chunk: nat)
    requires Gathered(before, now, threshold, sequence, n, flushed, full) && !Breaks(now, sequence + n)
    requires 1 <= chunk && now.pending + chunk <= threshold
    requires if now.pending + chunk == threshold
             then |after.published| == |now.published| + 1 && after.pending == 0
             else |after.published| == |now.published| && after.pending == now.pending + chunk
    requires after.pending > 0 ==> after.pendingSequence + after.pending == sequence + n + chunk
    ensures |after.published| >= |now.published|
    ensures Gathered(before, after, threshold, sequence, n + chunk, flushed,
                     full + (|after.published| - |now.published|))
  {
  }

  lemma GatherEnds(before: Ring, now: Ring, threshold: nat, sequence: int, offered: nat,
                   n: nat, flushed: bool, full: nat)
    requires Gathered(before, now, threshold, sequence, n, flushed, full)
    requires (offered == n && (flushed ==> n > 0)) || (n < offered && now.pending == 0)
    ensures Gathers(before, now, threshold, sequence, offered, n)
  {
  }

  /** Steps of the sender do not touch what is gathered. */
  lemma GatherIgnores(before: Ring, now: Ring, after: Ring, threshold: nat, sequence: int,
                      n: nat, flushed: bool, full: nat)
    requires Gathered(before, now, threshold, sequence, n, flushed, full)
    requires |after.published| == |now.published| && after.pending == now.pending
    requires after.pending > 0 ==> after.pendingSequence == now.pendingSequence
    ensures Gathered(before, after, threshold, sequence, n, flushed, full)
  {
  }

  lemma BreaksPending(s: Ring, sequence: int)
    requires Breaks(s, sequence)
    ensures s.pending > 0
  {
  }

  /** Samples `from` up to `to` of an audio block that starts at time `start`. */
  function BlockItems(signal: seq<Float>, start: int, from: nat, to: nat): (r: seq<Item>)
    requires from <= to <= |signal|
    ensures |r| == to - from
  {
    seq(to - from, i requires 0 <= i < to - from => Item(start + from + i, [signal[from + i]]))
  }

  /** A log with part of a block added, as kept or as lost. */
  function With(log: seq<Logged>, signal: seq<Float>, start: int, from: nat, to: nat, kept: bool)
    : seq<Logged>
    requires from <= to <= |signal|
  {
    log + Mark(BlockItems(signal, start, from, to), kept)
  }

  lemma WithNothing(log: seq<Logged>, signal: seq<Float>, start: int, from: nat, kept: bool)
    requires from <= |signal|
    ensures With(log, signal, start, from, from, kept) == log
  {
  }

  lemma WithBoth(log: seq<Logged>, signal: seq<Float>, start: int, from: nat, mid: nat, to: nat, kept: bool)
    requires from <= mid <= to <= |signal|
    ensures With(With(log, signal, start, from, mid, kept), signal, start, mid, to, kept)
      == With(log, signal, start, from, to, kept)
  {
  }

  /** The log after a block of which the samples before `mid` were kept and the rest lost. */
  lemma WithIs(log: seq<Logged>, signal: seq<Float>, start: int, from: nat, mid: nat, to: nat)
    requires from <= mid <= to <= |signal|
    ensures var after := With(With(log, signal, start, from, mid, true), signal, start, mid, to, false);
      && |after| == |log| + (to - from) && log <= after
      && forall i :: from <= i < to ==>
           after[|log| + i - from] == Logged(Item(start + i, [signal[i]]), i < mid)
  {
  }

  class WatchStream {
    const params: Params
    const slots: array<Packet>
    var writePos: nat
    var readPos: nat
    var pending: nat
    var pendingSequence: int
    var dropped: nat
    var released: bool
    var producer: ProducerPc
    var sender: SenderPc
    ghost var published: seq<Packet>
    ghost var freed: nat
    ghost var wire: seq<Packet>
    ghost var log: seq<Logged>

    ghost function State(): Ring
      reads this, slots
    {
      Ring(slots[..], writePos, readPos, pending, pendingSequence, dropped, released,
           producer, sender, published, freed, wire, log)
    }

    ghost predicate Valid()
      reads this, slots
    {
      && slots.Length == params.capacity
      && WellFormed(params)
      && Inv(params, State())
    }

    /** Between two opcode calls of an instance that still holds the stream. */
    ghost predicate Ready()
      reads this, slots
    {
      Valid() && !released && producer == Free && pending < params.threshold
    }

    /** Cell `k` of the slot being filled. */
    ghost function CellAt(k: nat): seq<Float>
      requires writePos < slots.Length
      reads this`writePos, slots
    {
      Cell(Payload(slots[writePos]), params.floatsPerSample, k)
    }

    /** `kind` is that of the stream's time packets; spectral and meter streams send none. */
    constructor (capacity: nat, kind: Kind, domain: Domain, graphId: nat, streamId: nat,
                 sampleRate: real, floatsPerSample: nat)
      requires capacity >= 2 && 1 <= floatsPerSample <= MAX_METER_CHANNELS
      requires kind == Data || kind == PointData
      ensures Ready() && fresh(slots)
      ensures published == [] && wire == [] && log == [] && dropped == 0
      ensures params == Params(capacity, floatsPerSample,
                               PublishThreshold(domain, sampleRate, floatsPerSample),
                               kind, graphId, streamId, Finite(sampleRate))
    {
      params := Params(capacity, floatsPerSample, PublishThreshold(domain, sampleRate, floatsPerSample),
                       kind, graphId, streamId, Finite(sampleRate));
      slots := new Packet[capacity](_ =>
        Time(Header(0, 0, NoKind, 0, 0), 0, 0, Finite(0.0), 0, Blank()));
      writePos, readPos, pending, pendingSequence, dropped := 0, 0, 0, 0, 0;
      released, producer, sender := false, Free, Resting;
      published, freed, wire, log := [], 0, [], [];
      new;
      ThresholdFits(domain, sampleRate, floatsPerSample);
      assert PendingItems(params, State()) == [];
    }

    // -------------------------------------------------------------- atomic steps

    method LoadReadPos() returns (read: nat)
      requires Valid() && Enabled(params, State(), LoadRead)
      modifies this`producer
      ensures read == readPos && producer == Snapshot(read)
      ensures Valid() && State() == Apply(params, old(State()), LoadRead)
    {
      hide Inv;
      StepKeepsInv(params, State(), LoadRead);
      read := readPos;
      producer := Snapshot(read);
    }

    method CountDropped(count: nat, ghost items: seq<Item>)
      requires |items| == count
      requires Valid() && Enabled(params, State(), Lose(items))
      modifies this`producer, this`dropped, this`log
      ensures Valid() && State() == Apply(params, old(State()), Lose(items))
    {
      hide Inv;
      StepKeepsInv(params, State(), Lose(items));
      dropped := dropped + count;
      log := log + Mark(items, false);
      producer := Free;
    }

    method OpenSlot(sequence: int)
      requires Valid() && Enabled(params, State(), OpenPacket(sequence))
      modifies this`producer, this`pendingSequence, slots
      ensures Valid() && State() == Apply(params, old(State()), OpenPacket(sequence))
    {
      hide Inv;
      StepKeepsInv(params, State(), OpenPacket(sequence));
      slots[writePos] := OpenedSlot(params, slots[writePos], sequence);
      pendingSequence := sequence;
      producer := Opened;
    }

    method StoreCell(index: nat, cell: seq<Float>)
      requires Valid() && Enabled(params, State(), WriteCell(index, cell))
      modifies slots
      ensures Valid() && State() == Apply(params, old(State()), WriteCell(index, cell))
      ensures forall k: nat :: CellAt(k) == if k == index then cell else old(CellAt(k))
    {
      hide Inv;
      WriteCellBounds(params, State(), index, cell);
      StepKeepsInv(params, State(), WriteCell(index, cell));
      var slot := slots[writePos];
      slots[writePos] := OpenedSlot(params, slot, pendingSequence).(
        samples := WriteAt(Payload(slot), Stride(index, params.floatsPerSample), cell));
    }

    method StorePending(count: nat)
      requires Valid() && Enabled(params, State(), Extend(count))
      modifies this`producer, this`pending, this`log
      ensures Valid() && State() == Apply(params, old(State()), Extend(count))
    {
      hide Inv;
      StepKeepsInv(params, State(), Extend(count));
      ghost var added := AddedItems(params, State(), count);
      log := log + Mark(added, true);
      pending := pending + count;
      producer := Free;
    }

    /** Seals the pending packet and clears the pending count. */
    method ClosePending()
      requires Valid() && pending > 0 && !producer.Closed?
      modifies this`producer, this`pending, slots
      ensures Valid() && State() == Apply(params, old(State()), Close)
    {
      hide HistoryInv, Sealed;
      StepKeepsInv(params, State(), Close);
      hide Inv;
      slots[writePos] := SealedSlot(params, OpenedSlot(params, slots[writePos], pendingSequence), pending);
      producer := Closed(pending);
      pending := 0;
    }

    /** Moves the write position past the sealed packet, without looking at the read
        position. */
    method StoreWritePos(nextWrite: nat)
      requires Valid() && producer.Closed? && nextWrite == Next(writePos, params.capacity)
      modifies this`writePos, this`producer, this`published
      ensures Valid() && State() == Apply(params, old(State()), Publish)
    {
      hide HistoryInv, Sealed;
      StepKeepsInv(params, State(), Publish);
      hide Inv;
      published := published + [slots[writePos]];
      writePos := nextWrite;
      producer := Free;
    }

    /** `publish_time_packet`: two stores, between which the sender may run. */
    method PublishTimePacket(nextWrite: nat)
      requires Valid() && pending > 0 && producer == Free && nextWrite == Next(writePos, params.capacity)
      modifies this, slots
      ensures Valid() && producer == Free && pending == 0 && writePos == nextWrite
      ensures |published| == |old(published)| + 1 && old(published) <= published
      ensures Last(published, 1)[0].Time? && Last(published, 1)[0].sampleCount == old(pending)
      ensures Last(published, 1)[0].header.sequence == old(pendingSequence)
      ensures released == old(released) && log == old(log) && dropped == old(dropped)
      ensures freed >= old(freed)
    {
      hide HistoryInv, SenderInv, Sealed;
      ClosePending();
      SenderTurns();
      StoreWritePos(nextWrite);
    }

    method PublishPacket(packet: Packet, nextWrite: nat)
      requires Valid() && Enabled(params, State(), PublishWhole(packet))
      requires nextWrite == Next(writePos, params.capacity)
      modifies this`writePos, this`producer, this`published, this`log, slots
      ensures Valid() && State() == Apply(params, old(State()), PublishWhole(packet))
    {
      hide Inv, WellFormed, PacketItems, Mark, Next, Sealed;
      StepKeepsInv(params, State(), PublishWhole(packet));
      slots[writePos] := packet;
      published := published + [packet];
      log := log + Mark(PacketItems(params.floatsPerSample, packet), true);
      writePos := nextWrite;
      producer := Free;
    }

    method MarkReleased()
      requires Valid() && pending == 0 && producer == Free
      modifies this`released
      ensures Valid() && State() == Apply(params, old(State()), StreamRing.MarkReleased)
    {
      hide HistoryInv, Sealed;
      StepKeepsInv(params, State(), StreamRing.MarkReleased);
      hide Inv;
      released := true;
    }

    method LoadPositions() returns (read: nat, write: nat)
      requires Valid() && sender == Resting
      modifies this`sender
      ensures read == readPos && write == writePos
      ensures sender == if read == write then Resting else Holding(read, write)
      ensures Valid() && State() == Apply(params, old(State()), LoadWrite)
    {
      hide HistoryInv, Sealed;
      StepKeepsInv(params, State(), LoadWrite);
      hide Inv;
      read, write := readPos, writePos;
      if read != write {
        sender := Holding(read, write);
      }
    }

    /** Hands the held slot to the socket, which takes it or not. */
    method SendSlot(read: nat, ok: bool)
      requires Valid() && sender.Holding? && read == sender.read
      modifies this`sender, this`wire
      ensures Valid() && State() == Apply(params, old(State()), Send(ok))
      ensures freed < |published|
      ensures if ok then sender == Delivered(read) && wire == old(wire) + [published[freed]]
              else sender == Resting && wire == old(wire)
    {
      hide HistoryInv, Queued, ProducerInv, Sealed;
      HeldSlot(params, State());
      StepKeepsInv(params, State(), Send(ok));
      hide Inv;
      if ok {
        wire := wire + [slots[read]];
        sender := Delivered(read);
      } else {
        sender := Resting;
      }
    }

    method AdvanceRead(read: nat)
      requires Valid() && sender == Delivered(read)
      modifies this`sender, this`readPos, this`freed
      ensures sender == Resting && freed == old(freed) + 1
      ensures Valid() && State() == Apply(params, old(State()), FreeSlot)
    {
      hide HistoryInv, Sealed;
      StepKeepsInv(params, State(), FreeSlot);
      hide Inv;
      readPos := Next(read, params.capacity);
      freed := freed + 1;
      sender := Resting;
    }

    // -------------------------------------------------------------- interference

    /** Any number of sender steps. */
    method SenderTurns()
      requires Valid()
      modifies this`sender, this`readPos, this`freed, this`wire
      ensures Valid() && SenderMoved(old(State()), State())
    {
      hide HistoryInv, Sealed, Oversize;
      var turns: nat := *;
      while turns > 0
        invariant Valid() && SenderMoved(old(State()), State())
      {
        match sender {
          case Resting => var _, _ := LoadPositions();
          case Holding(read, _) =>
            var ok: bool := *;
            SendSlot(read, ok);
          case Delivered(read) => AdvanceRead(read);
        }
        turns := turns - 1;
      }
    }

    /** Any number of producer steps, of any opcode. */
    method ProducerTurns()
      requires Valid()
      modifies this`producer, this`pending, this`pendingSequence, this`dropped, this`released,
        this`writePos, this`published, this`log, slots
      ensures Valid() && ProducerMoved(old(State()), State())
    {
      var turns: nat := *;
      while turns > 0
        invariant Valid() && ProducerMoved(old(State()), State())
      {
        ProducerStep();
        turns := turns - 1;
      }
    }

    /** One producer step that the state allows; arguments are arbitrary. Releasing is not
        among them: it takes the registry lock, which the sender holds during a pass. */
    method ProducerStep()
      requires Valid()
      modifies this`producer, this`pending, this`pendingSequence, this`dropped, this`released,
        this`writePos, this`published, this`log, slots
      ensures Valid() && ProducerMoved(old(State()), State())
    {
      hide HistoryInv, SenderInv, Queued, ProducerInv, WellFormed, Next, IsOpened;
      var next := Next(writePos, params.capacity);
      var n: nat, sequence: int, cell: seq<Float>, packet: Packet := *, *, *, *;
      if {
        case !released && pending == 0 && !producer.Opened? && !producer.Closed? =>
          var _ := LoadReadPos();
        case producer.Snapshot? && next == producer.read =>
          ghost var items: seq<Item> := seq(n, i => Item(sequence, cell));
          CountDropped(n, items);
        case producer.Snapshot? && next != producer.read =>
          OpenSlot(sequence);
        case ((pending > 0 && !producer.Closed?) || producer.Opened?) && pending <= n < params.threshold
             && |cell| == params.floatsPerSample =>
          StoreCell(n, cell);
        case ((pending > 0 && !producer.Closed?) || producer.Opened?) && 1 <= n && pending + n <= params.threshold =>
          StorePending(n);
        case pending > 0 && !producer.Closed? =>
          ClosePending();
        case producer.Closed? =>
          StoreWritePos(next);
        case producer.Snapshot? && next != producer.read && Sealed(params, packet) && !packet.Time? =>
          PublishPacket(packet, next);
        case true =>
      }
    }

    // -------------------------------------------------------------- sender

    /** One turn of the sender's loop, with the producer running between any two of its
        accesses. */
    method SendNext(willing: bool) returns (outcome: Outcome)
      requires Valid() && sender == Resting
      modifies this, slots
      ensures Valid() && sender == Resting && old(published) <= published
      ensures outcome.Sent? ==> freed == old(freed) + 1 && wire == old(wire) + [published[old(freed)]]
      ensures !outcome.Sent? ==> freed == old(freed) && wire == old(wire)
      ensures outcome.Empty? ==> freed >= |old(published)|
      ensures !outcome.Empty? ==> (outcome.Sent? <==> willing)
    {
      hide QueueInv, HistoryInv, Sealed, Apply, Enabled;
      ProducerTurns();
      var read, write := LoadPositions();
      if read == write {
        EmptyExactly(params, State());
        return Empty;
      }
      hide SenderInv;
      outcome := SendHeld(read, willing);
    }

    /** The rest of a turn that found a packet. */
    method SendHeld(read: nat, willing: bool) returns (outcome: Outcome)
      requires Valid() && sender.Holding? && read == sender.read
      modifies this, slots
      ensures Valid() && sender == Resting && old(published) <= published
      ensures outcome == if willing then Sent else Refused
      ensures outcome.Sent? ==> freed == old(freed) + 1 && wire == old(wire) + [published[old(freed)]]
      ensures !outcome.Sent? ==> freed == old(freed) && wire == old(wire)
    {
      hide QueueInv, HistoryInv, SenderInv, Sealed, Apply, Enabled;
      ProducerTurns();
      HeldSlot(params, State());
      if slots[read].header.payloadSize > MaxPayload(slots[read].header.kind) {
        assert false;
      }
      ProducerTurns();
      SendSlot(read, willing);
      if !willing {
        return Refused;
      }
      ProducerTurns();
      AdvanceRead(read);
      return Sent;
    }

    /** One pass of the sender over this stream, in which the socket takes `willing` packets
        and refuses the next: at most eight packets, oldest first, each the packet published
        at that place; it stops early only when the socket refuses or everything published
        when the pass began has been sent. */
    method SendStreamPackets(willing: nat) returns (refused: bool)
      requires Valid() && sender == Resting
      modifies this, slots
      ensures Valid() && sender == Resting && old(published) <= published
      ensures old(wire) <= wire <= published
      ensures |wire| <= |old(wire)| + 8
      ensures !refused && |wire| < |old(wire)| + 8
        ==> |wire| >= |old(published)|
      ensures |wire| <= |old(wire)| + willing
      ensures refused ==> |wire| == |old(wire)| + willing && willing < 8
    {
      hide QueueInv, HistoryInv, Sealed;
      refused := false;
      for sentCount := 0 to WATCH_PACKETS_PER_STREAM_PASS
        invariant Valid() && sender == Resting && !refused && old(published) <= published
        invariant old(wire) <= wire && |wire| == |old(wire)| + sentCount && sentCount <= willing
      {
        var outcome := SendNext(sentCount < willing);
        if outcome != Sent {
          refused := outcome == Refused;
          return;
        }
      }
    }

    // -------------------------------------------------------------- producer opcodes

    /** Starts a packet at `sequence`, or counts `items` as dropped: only if the ring was
        full when the read position was loaded. */
    method OpenOrDrop(nextWrite: nat, sequence: int, count: nat, ghost items: seq<Item>)
      returns (open: bool)
      requires Ready() && pending == 0 && nextWrite == Next(writePos, params.capacity)
      requires |items| == count
      modifies this, slots
      ensures Valid() && !released && pending == 0 && published == old(published)
      ensures writePos == old(writePos) && freed >= old(freed)
      ensures open ==>
        producer == Opened && pendingSequence == sequence && log == old(log) && dropped == old(dropped)
      ensures !open ==>
        && producer == Free
        && log == old(log) + Mark(items, false) && dropped == old(dropped) + count
        && |published| >= old(freed) + params.capacity - 1
    {
      hide HistoryInv, SenderInv, Sealed;
      var read := LoadReadPos();
      EmptyExactly(params, State());
      SenderTurns();
      open := nextWrite != read;
      if open {
        OpenSlot(sequence);
      } else {
        CountDropped(count, items);
      }
    }

    /** Copies `count` samples into the open slot, behind the pending ones. */
    method FillCells(signal: seq<Float>, from: nat, count: nat)
      requires Valid() && HasOpenSlot(State()) && params.floatsPerSample == 1
      requires from + count <= |signal| && pending + count <= params.threshold
      modifies slots
      ensures Valid()
      ensures forall k {:trigger CellAt(k)} :: pending <= k < pending + count ==>
        CellAt(k) == [signal[from + (k - pending)]]
    {
      hide HistoryInv, SenderInv, Sealed;
      for i := 0 to count
        invariant Valid() && HasOpenSlot(State())
        invariant forall k {:trigger CellAt(k)} :: pending <= k < pending + i ==>
          CellAt(k) == [signal[from + (k - pending)]]
      {
        StoreCell(pending + i, [signal[from + i]]);
      }
    }

    /** Copies a run of the block into the open packet and stores the new count. */
    method AppendRun(signal: seq<Float>, blockStart: int, from: nat, count: nat)
      requires Valid() && HasOpenSlot(State()) && params.floatsPerSample == 1
      requires from + count <= |signal| && 1 <= count && pending + count <= params.threshold
      requires pendingSequence + pending == blockStart + from
      modifies this, slots
      ensures Valid() && producer == Free
      ensures pending == old(pending) + count && writePos == old(writePos)
      ensures released == old(released) && dropped == old(dropped) && published == old(published)
      ensures pendingSequence == old(pendingSequence)
      ensures log == old(log) + Mark(BlockItems(signal, blockStart, from, from + count), true)
      ensures freed >= old(freed)
    {
      hide HistoryInv, SenderInv, Sealed;
      FillCells(signal, from, count);
      SenderTurns();
      AddedIsBlock(signal, blockStart, from, count);
      hide QueueInv;
      StorePending(count);
      SenderTurns();
    }

    lemma AddedIsBlock(signal: seq<Float>, blockStart: int, from: nat, count: nat)
      requires writePos < slots.Length && from + count <= |signal|
      requires pendingSequence + pending == blockStart + from
      requires forall k {:trigger CellAt(k)} :: pending <= k < pending + count ==>
        CellAt(k) == [signal[from + (k - pending)]]
      ensures AddedItems(params, State(), count) == BlockItems(signal, blockStart, from, from + count)
    {
      hide Cell, Payload;
      forall i | 0 <= i < count
        ensures AddedItems(params, State(), count)[i] == BlockItems(signal, blockStart, from, from + count)[i]
      {
        assert CellAt(pending + i) == [signal[from + i]];
      }
    }

    /** As much of the block as the open packet takes; a full packet is queued. */
    method AddChunk(signal: seq<Float>, blockStart: int, sourcePos: nat, end: nat, nextWrite: nat)
      returns (chunk: nat)
      requires Valid() && HasOpenSlot(State()) && !released && params.floatsPerSample == 1
      requires sourcePos < end <= |signal| && pending < params.threshold
      requires pendingSequence + pending == blockStart + sourcePos
      requires nextWrite == Next(writePos, params.capacity)
      modifies this, slots
      ensures Ready() && 1 <= chunk <= end - sourcePos && old(pending) + chunk <= params.threshold
      ensures dropped == old(dropped) && freed >= old(freed)
      ensures if old(pending) + chunk == params.threshold
              then |published| == |old(published)| + 1 && pending == 0
              else published == old(published) && pending == old(pending) + chunk
      ensures pending > 0 ==> pendingSequence + pending == blockStart + (sourcePos + chunk)
      ensures log == With(old(log), signal, blockStart, sourcePos, sourcePos + chunk, true)
    {
      hide QueueInv, HistoryInv, SenderInv, Sealed;
      chunk := Min(end - sourcePos, params.threshold - pending);
      AppendRun(signal, blockStart, sourcePos, chunk);
      if pending == params.threshold {
        PublishTimePacket(nextWrite);
      }
    }

    /** Starts a packet for the rest of the block, or drops that rest. */
    method OpenOrDropBlock(nextWrite: nat, signal: seq<Float>, blockStart: int, sourcePos: nat, end: nat)
      returns (open: bool)
      requires Ready() && pending == 0 && nextWrite == Next(writePos, params.capacity)
      requires sourcePos <= end <= |signal|
      modifies this, slots
      ensures Valid() && !released && pending == 0 && published == old(published)
      ensures writePos == old(writePos) && freed >= old(freed)
      ensures open ==>
        && producer == Opened && pendingSequence == blockStart + sourcePos
        && log == old(log) && dropped == old(dropped)
      ensures !open ==>
        && producer == Free && dropped == old(dropped) + (end - sourcePos)
        && log == With(old(log), signal, blockStart, sourcePos, end, false)
        && |published| >= old(freed) + params.capacity - 1
    {
      open := OpenOrDrop(nextWrite, blockStart + sourcePos, end - sourcePos,
                         BlockItems(signal, blockStart, sourcePos, end));
    }

    /** `watch_add_a`: offers the samples `offset .. end` of one block, stamped with their
        absolute times. A suffix of the block, possibly empty, is counted as dropped, and
        only if the ring filled up during the call; everything before it is kept. */
    method WatchAddA(signal: seq<Float>, offset: nat, end: nat, blockStart: int)
      returns (ghost kept: nat)
      requires Ready() && params.floatsPerSample == 1
      requires offset <= end <= |signal|
      modifies this, slots
      ensures Ready()
      ensures offset <= kept <= end && dropped == old(dropped) + (end - kept)
      ensures log == With(With(old(log), signal, blockStart, offset, kept, true),
                          signal, blockStart, kept, end, false)
      ensures kept < end ==> |published| >= old(freed) + params.capacity - 1
      ensures |log| == |old(log)| + (end - offset) && old(log) <= log
      ensures forall i :: offset <= i < end ==>
        log[|old(log)| + i - offset] == Logged(Item(blockStart + i, [signal[i]]), i < kept)
      ensures Gathers(old(State()), State(), params.threshold, blockStart + offset, end - offset, kept - offset)
    {
      hide Inv, WellFormed, With, Gathers;
      ghost var before := State();
      kept := OfferBlock(signal, offset, end, blockStart);
      assert Gathers(before, State(), params.threshold, blockStart + offset, end - offset, kept - offset);
      WithIs(old(log), signal, blockStart, offset, kept, end);
    }

    /** The part of a run that goes into one packet, or nothing if the ring is full and all
        of the rest is dropped. */
    method OfferRun(signal: seq<Float>, blockStart: int, sourcePos: nat, end: nat, nextWrite: nat)
      returns (chunk: nat)
      requires Ready() && params.floatsPerSample == 1 && nextWrite == Next(writePos, params.capacity)
      requires sourcePos < end <= |signal| && !Breaks(State(), blockStart + sourcePos)
      modifies this, slots
      ensures Ready() && freed >= old(freed) && chunk <= end - sourcePos
      ensures chunk == 0 ==>
        && pending == old(pending) == 0 && published == old(published)
        && dropped == old(dropped) + (end - sourcePos)
        && log == With(old(log), signal, blockStart, sourcePos, end, false)
        && |published| >= old(freed) + params.capacity - 1
      ensures chunk > 0 ==>
        && dropped == old(dropped) && old(pending) + chunk <= params.threshold
        && log == With(old(log), signal, blockStart, sourcePos, sourcePos + chunk, true)
        && (if old(pending) + chunk == params.threshold
            then |published| == |old(published)| + 1 && pending == 0
            else published == old(published) && pending == old(pending) + chunk)
        && (pending > 0 ==> pendingSequence + pending == blockStart + (sourcePos + chunk))
    {
      hide HistoryInv, SenderInv, Sealed, With;
      if pending == 0 {
        var open := OpenOrDropBlock(nextWrite, signal, blockStart, sourcePos, end);
        if !open {
          return 0;
        }
      }
      chunk := AddChunk(signal, blockStart, sourcePos, end, nextWrite);
    }

    /** One turn of the loop of `watch_add_a`: queues a packet the run does not continue, or
        offers some of the run. */
    method OfferTurn(signal: seq<Float>, blockStart: int, sourcePos: nat, end: nat)
      returns (flushed: bool, chunk: nat)
      requires Ready() && params.floatsPerSample == 1 && sourcePos < end <= |signal|
      modifies this, slots
      ensures Ready() && freed >= old(freed) && chunk <= end - sourcePos
      ensures flushed <==> Breaks(old(State()), blockStart + sourcePos)
      ensures flushed ==>
        && chunk == 0 && pending == 0 && |published| == |old(published)| + 1
        && log == old(log) && dropped == old(dropped)
      ensures !flushed && chunk == 0 ==>
        && pending == old(pending) == 0 && published == old(published)
        && dropped == old(dropped) + (end - sourcePos)
        && log == With(old(log), signal, blockStart, sourcePos, end, false)
        && |published| >= old(freed) + params.capacity - 1
      ensures chunk > 0 ==>
        && dropped == old(dropped) && old(pending) + chunk <= params.threshold
        && log == With(old(log), signal, blockStart, sourcePos, sourcePos + chunk, true)
        && (if old(pending) + chunk == params.threshold
            then |published| == |old(published)| + 1 && pending == 0
            else published == old(published) && pending == old(pending) + chunk)
        && (pending > 0 ==> pendingSequence + pending == blockStart + (sourcePos + chunk))
    {
      hide HistoryInv, SenderInv, Sealed, With;
      SenderTurns();
      var nextWrite := Next(writePos, params.capacity);
      var sequence := blockStart + sourcePos;
      chunk := 0;
      flushed := pending > 0 && sequence != pendingSequence + pending;
      if flushed {
        PublishTimePacket(nextWrite);
      } else {
        chunk := OfferRun(signal, blockStart, sourcePos, end, nextWrite);
      }
    }

    /** The loop of `watch_add_a`. */
    method OfferBlock(signal: seq<Float>, offset: nat, end: nat, blockStart: int)
      returns (ghost kept: nat)
      requires Ready() && params.floatsPerSample == 1
      requires offset <= end <= |signal|
      modifies this, slots
      ensures Ready()
      ensures offset <= kept <= end && dropped == old(dropped) + (end - kept)
      ensures log == With(With(old(log), signal, blockStart, offset, kept, true),
                          signal, blockStart, kept, end, false)
      ensures kept < end ==> |published| >= old(freed) + params.capacity - 1
      ensures Gathers(old(State()), State(), params.threshold, blockStart + offset, end - offset, kept - offset)
    {
      hide Ready, With, Gathered, Gathers, Breaks;
      ghost var before, first := State(), blockStart + offset;
      kept := end;
      var sourcePos := offset;
      ghost var flushed, full: nat := false, 0;
      WithNothing(log, signal, blockStart, offset, true);
      NothingGathered(before, params.threshold, first);
      while sourcePos < end
        invariant Ready() && offset <= sourcePos <= end && kept == end
        invariant dropped == old(dropped) && freed >= old(freed)
        invariant log == With(old(log), signal, blockStart, offset, sourcePos, true)
        invariant Gathered(before, State(), params.threshold, first, sourcePos - offset, flushed, full)
        invariant flushed && sourcePos == offset ==> offset < end && pending == 0
        decreases end - sourcePos, pending
      {
        ghost var now := State();
        var broke, chunk := OfferTurn(signal, blockStart, sourcePos, end);
        if broke {
          BreaksPending(now, blockStart + sourcePos);
          GatherFlushes(before, now, State(), params.threshold, first, sourcePos - offset, flushed, full);
          flushed := true;
        } else if chunk == 0 {
          kept := sourcePos;
          GatherIgnores(before, now, State(), params.threshold, first, sourcePos - offset, flushed, full);
          GatherEnds(before, State(), params.threshold, first, end - offset, sourcePos - offset, flushed, full);
          return;
        } else {
          GatherGrows(before, now, State(), params.threshold, first, sourcePos - offset, flushed, full, chunk);
          full := full + (|published| - |now.published|);
          WithBoth(old(log), signal, blockStart, offset, sourcePos, sourcePos + chunk, true);
          sourcePos := sourcePos + chunk;
        }
      }
      GatherEnds(before, State(), params.threshold, first, end - offset, end - offset, flushed, full);
      WithNothing(log, signal, blockStart, end, false);
    }

    /** Writes one sample behind the pending ones and stores the new count. */
    method StoreOne(sequence: int, cell: seq<Float>)
      requires Valid() && HasOpenSlot(State()) && pending < params.threshold
      requires |cell| == params.floatsPerSample && sequence == pendingSequence + pending
      modifies this, slots
      ensures Valid() && producer == Free && pending == old(pending) + 1
      ensures writePos == old(writePos) && released == old(released) && dropped == old(dropped)
      ensures published == old(published) && pendingSequence == old(pendingSequence)
      ensures log == old(log) + [Logged(Item(sequence, cell), true)]
    {
      hide HistoryInv, SenderInv, Sealed;
      StoreCell(pending, cell);
      SenderTurns();
      AddedIsOne(sequence, cell);
      hide QueueInv;
      StorePending(1);
      SenderTurns();
    }

    lemma AddedIsOne(sequence: int, cell: seq<Float>)
      requires writePos < slots.Length && CellAt(pending) == cell && sequence == pendingSequence + pending
      ensures Mark(AddedItems(params, State(), 1), true) == [Logged(Item(sequence, cell), true)]
    {
      hide Cell, Payload;
      assert AddedItems(params, State(), 1)[0].cell == CellAt(pending);
      assert AddedItems(params, State(), 1) == [Item(sequence, cell)];
    }

    /** Offers a sample that continues the pending packet, or starts one. */
    method OfferOne(sequence: int, cell: seq<Float>) returns (ghost kept: bool)
      requires Ready() && |cell| == params.floatsPerSample && !Breaks(State(), sequence)
      modifies this, slots
      ensures Ready()
      ensures log == old(log) + [Logged(Item(sequence, cell), kept)]
      ensures dropped == old(dropped) + if kept then 0 else 1
      ensures !kept ==>
        && pending == old(pending) == 0 && published == old(published)
        && |published| >= old(freed) + params.capacity - 1
      ensures kept ==>
        && (if old(pending) + 1 == params.threshold
            then |published| == |old(published)| + 1 && pending == 0
            else published == old(published) && pending == old(pending) + 1)
        && (pending > 0 ==> pendingSequence + pending == sequence + 1)
    {
      hide HistoryInv, SenderInv, Sealed;
      kept := true;
      var nextWrite := Next(writePos, params.capacity);
      if pending == 0 {
        var open := OpenOrDrop(nextWrite, sequence, 1, [Item(sequence, cell)]);
        if !open {
          kept := false;
          return;
        }
      }
      StoreOne(sequence, cell);
      if pending == params.threshold {
        PublishTimePacket(nextWrite);
      }
    }

    /** `watch_add_k` and `watch_add_p`: offers one sample. A gap in the sequence closes the
        pending packet first; the sample is dropped only if the ring was full. */
    method AddCycle(sequence: int, cell: seq<Float>) returns (ghost kept: bool)
      requires Ready() && |cell| == params.floatsPerSample
      modifies this, slots
      ensures Ready()
      ensures log == old(log) + [Logged(Item(sequence, cell), kept)]
      ensures dropped == old(dropped) + if kept then 0 else 1
      ensures !kept ==> |published| >= old(freed) + params.capacity - 1
      ensures Gathers(old(State()), State(), params.threshold, sequence, 1, if kept then 1 else 0)
    {
      hide HistoryInv, SenderInv, Sealed, Gathered, Gathers;
      ghost var before, flushed := State(), false;
      NothingGathered(before, params.threshold, sequence);
      SenderTurns();
      GatherIgnores(before, before, State(), params.threshold, sequence, 0, false, 0);
      while pending > 0 && sequence != pendingSequence + pending
        invariant Ready() && log == old(log) && dropped == old(dropped) && freed >= old(freed)
        invariant Gathered(before, State(), params.threshold, sequence, 0, flushed, 0)
        decreases pending
      {
        ghost var now := State();
        PublishTimePacket(Next(writePos, params.capacity));
        GatherFlushes(before, now, State(), params.threshold, sequence, 0, flushed, 0);
        flushed := true;
        now := State();
        SenderTurns();
        GatherIgnores(before, now, State(), params.threshold, sequence, 0, true, 0);
      }
      ghost var now := State();
      kept := OfferOne(sequence, cell);
      if kept {
        GatherGrows(before, now, State(), params.threshold, sequence, 0, flushed, 0, 1);
        GatherEnds(before, State(), params.threshold, sequence, 1, 1, flushed, |published| - |now.published|);
      } else {
        GatherIgnores(before, now, State(), params.threshold, sequence, 0, flushed, 0);
        GatherEnds(before, State(), params.threshold, sequence, 1, 0, flushed, 0);
      }
    }

    method WatchAddK(kcounter: nat, value: Float) returns (ghost kept: bool)
      requires Ready() && params.floatsPerSample == 1
      modifies this, slots
      ensures Ready()
      ensures log == old(log)
        + [Logged(Item(kcounter, [if value.Finite? then value else Finite(0.0)]), kept)]
      ensures dropped == old(dropped) + if kept then 0 else 1
      ensures Gathers(old(State()), State(), params.threshold, kcounter, 1, if kept then 1 else 0)
    {
      kept := AddCycle(kcounter, [Finite(Sanitize(value))]);
    }

    method WatchAddP(kcounter: nat, x: Float, y: Float) returns (ghost kept: bool)
      requires Ready() && params.floatsPerSample == 2
      modifies this, slots
      ensures Ready()
      ensures log == old(log)
        + [Logged(Item(kcounter, [if x.Finite? then x else Finite(0.0), if y.Finite? then y else Finite(0.0)]), kept)]
      ensures dropped == old(dropped) + if kept then 0 else 1
      ensures Gathers(old(State()), State(), params.threshold, kcounter, 1, if kept then 1 else 0)
    {
      kept := AddCycle(kcounter, [Finite(Sanitize(x)), Finite(Sanitize(y))]);
    }

    /** `release_stream`, under the registry lock, which keeps the sender out: the residual
        packet is queued without a full check, nothing is lost, and the stream is marked. */
    method ReleaseStream()
      requires Ready()
      modifies this, slots
      ensures Valid() && released && pending == 0 && log == old(log) && dropped == old(dropped)
      ensures |published| == |old(published)| + if old(pending) > 0 then 1 else 0
      ensures old(published) <= published && freed == old(freed)
      ensures old(pending) > 0 ==> readPos != writePos
      ensures Kept(log) == Flat(params.floatsPerSample, published)
    {
      hide HistoryInv, SenderInv, Sealed;
      if pending > 0 {
        ClosePending();
        StoreWritePos(Next(writePos, params.capacity));
      }
      MarkReleased();
      NothingPending();
    }

    lemma NothingPending()
      requires Valid() && pending == 0 && producer == Free
      ensures Kept(log) == Flat(params.floatsPerSample, published)
    {
      assert PendingItems(params, State()) == [];
    }

    /** Queues one complete packet, or counts `items` as dropped if the ring was full. */
    method PutPacket(packet: Packet, count: nat, ghost items: seq<Item>) returns (ok: bool)
      requires Ready() && pending == 0 && |items| == count
      requires Sealed(params, packet) && !packet.Time?
      modifies this, slots
      ensures Ready() && pending == 0 && freed >= old(freed)
      ensures ok ==>
        && published == old(published) + [packet] && dropped == old(dropped)
        && log == old(log) + Mark(PacketItems(params.floatsPerSample, packet), true)
      ensures !ok ==>
        && published == old(published) && dropped == old(dropped) + count
        && log == old(log) + Mark(items, false)
        && |published| >= old(freed) + params.capacity - 1
    {
      hide HistoryInv, SenderInv, Sealed, PacketItems, Mark, WellFormed, Queued;
      SenderTurns();
      var nextWrite := Next(writePos, params.capacity);
      var read := LoadReadPos();
      EmptyExactly(params, State());
      SenderTurns();
      ok := nextWrite != read;
      if ok {
        PublishPacket(packet, nextWrite);
      } else {
        CountDropped(count, items);
      }
    }

    /** `watch_add_f`: queues the chunks of a new frame in order, up to the first that finds
        the ring full; the bins from there on are counted as dropped. */
    method WatchAddF(frame: Frame, lastFrameId: nat) returns (newLastFrameId: nat, ghost chunks: nat)
      requires Ready() && pending == 0 && WholeFrame(frame)
      modifies this, slots
      ensures Ready() && pending == 0
      ensures newLastFrameId == frame.frameId
      ensures frame.frameId == lastFrameId ==>
        chunks == 0 && published == old(published) && dropped == old(dropped)
      ensures frame.frameId != lastFrameId ==>
        && chunks <= ChunkCount(|frame.powers|)
        && published == old(published) + FramePackets(params.graphId, params.streamId, frame, chunks)
        && dropped == old(dropped) + Max(0, |frame.powers| - chunks * MAX_SPECTRAL_BINS)
        && (chunks < ChunkCount(|frame.powers|) ==> |published| >= old(freed) + params.capacity - 1)
    {
      hide Inv;
      newLastFrameId, chunks := frame.frameId, 0;
      if frame.frameId == lastFrameId {
        return;
      }
      var sourceBin := 0;
      var total := |frame.powers|;
      while sourceBin < total
        invariant Ready() && pending == 0 && dropped == old(dropped) && freed >= old(freed)
        invariant chunks <= ChunkCount(total)
        invariant sourceBin == Min(total, chunks * MAX_SPECTRAL_BINS)
        invariant published
          == old(published) + FramePackets(params.graphId, params.streamId, frame, chunks)
      {
        var packet := FramePacket(params.graphId, params.streamId, frame, sourceBin / MAX_SPECTRAL_BINS);
        var remaining := total - sourceBin;
        ghost var lost := seq(remaining, i requires 0 <= i < remaining =>
          Item(sourceBin + i, [frame.powers[sourceBin + i]]));
        var ok := PutPacket(packet, remaining, lost);
        if !ok {
          return;
        }
        sourceBin := sourceBin + Min(remaining, MAX_SPECTRAL_BINS);
        chunks := chunks + 1;
      }
    }
  }
}
