/** The single-producer/single-consumer packet ring of one stream, as a state
    machine over the atomic steps of the two threads.

    A producer step and a sender step may interleave anywhere. What a thread has
    loaded from the other side is kept as a snapshot, which may be stale by the
    time it is used. The history fields (`published`, `freed`, `wire`, `log`)
    never influence a step; they say what the steps mean. */
module StreamRing {
  import opened Samples
  import opened Wire
  import opened Items

  /** What `create_stream` fixes for the life of a stream. */
  datatype Params = Params(capacity: nat, floatsPerSample: nat, threshold: nat, kind: Kind,
                           graphId: nat, streamId: nat, sampleRate: Float)

  predicate WellFormed(p: Params) {
    && p.capacity >= 2
    && p.floatsPerSample >= 1
    && p.threshold >= 1
    && Stride(p.threshold, p.floatsPerSample) <= MAX_STREAM_SAMPLES
    && (p.kind == Data || p.kind == PointData)
  }

  /** `Snapshot` holds a loaded read position; `Opened` has a prepared, still empty slot;
      `Closed` has sealed a slot and cleared the pending count but not yet moved the write
      position. */
  datatype ProducerPc = Free | Snapshot(read: nat) | Opened | Closed(count: nat)

  /** `Holding` has loaded both positions; `Delivered` has sent but not yet freed the slot. */
  datatype SenderPc = Resting | Holding(read: nat, write: nat) | Delivered(read: nat)

  datatype Ring = Ring(
    slots: seq<Packet>,
    writePos: nat,
    readPos: nat,
    pending: nat,
    pendingSequence: int,
    dropped: nat,
    released: bool,
    producer: ProducerPc,
    sender: SenderPc,
    published: seq<Packet>,
    freed: nat,
    wire: seq<Packet>,
    log: seq<Logged>)

  datatype Action =
    | LoadRead
    | Lose(items: seq<Item>)
    | OpenPacket(sequence: int)
    | WriteCell(index: nat, cell: seq<Float>)
    | Extend(count: nat)
    | Close
    | Publish
    | PublishWhole(packet: Packet)
    | MarkReleased
    | LoadWrite
    | Send(ok: bool)
    | FreeSlot

  // ---------------------------------------------------------------- indices

  function Next(i: nat, n: nat): nat
    requires i < n
  {
    if i + 1 == n then 0 else i + 1
  }

  lemma NextIsModulo(i: nat, n: nat)
    requires i < n
    ensures Next(i, n) == (i + 1) % n
  {
    if i + 1 < n {
      assert (i + 1) % n == i + 1;
    }
  }

  /** `i % n` for an index that overruns the ring at most once. */
  function Wrap(i: nat, n: nat): nat
    requires i < 2 * n
  {
    if i < n then i else i - n
  }

  function QueueLength(s: Ring): int {
    |s.published| - s.freed
  }

  // ---------------------------------------------------------------- packet contents

  /** The payload bytes a slot holds before it is filled again. */
  function Payload(packet: Packet): (r: seq<Float>)
    ensures |r| == MAX_STREAM_SAMPLES
  {
    if packet.Time? && |packet.samples| == MAX_STREAM_SAMPLES then packet.samples else Blank()
  }

  /** The samples in the slot being filled or just sealed. */
  function PendingCount(s: Ring): nat {
    if s.producer.Closed? then s.producer.count else s.pending
  }

  function PendingItems(p: Params, s: Ring): seq<Item>
    requires s.writePos < |s.slots|
  {
    Cells(Payload(s.slots[s.writePos]), p.floatsPerSample, s.pendingSequence, PendingCount(s))
  }

  /** The samples of the pending packet that `Extend(n)` adds. */
  function AddedItems(p: Params, s: Ring, n: nat): seq<Item>
    requires s.writePos < |s.slots|
  {
    seq(n, i requires 0 <= i < n =>
      Item(s.pendingSequence + s.pending + i,
           Cell(Payload(s.slots[s.writePos]), p.floatsPerSample, s.pending + i)))
  }

  // ---------------------------------------------------------------- steps

  function OpenedSlot(p: Params, slot: Packet, sequence: int): Packet {
    Time(Header(WATCH_MAGIC, PROT_VERSION, p.kind, sequence, slot.header.payloadSize),
         p.graphId, p.streamId, p.sampleRate,
         if slot.Time? then slot.sampleCount else 0, Payload(slot))
  }

  /** The slot header fields the producer wrote when it opened the packet. */
  predicate IsOpened(p: Params, packet: Packet, sequence: int) {
    && packet.Time?
    && packet == OpenedSlot(p, packet, sequence)
    && |packet.samples| == MAX_STREAM_SAMPLES
  }

  function SealedSlot(p: Params, packet: Packet, count: nat): Packet
    requires packet.Time?
  {
    packet.(sampleCount := count,
            header := packet.header.(payloadSize := DATA_PREFIX + Stride(count, p.floatsPerSample) * FLOAT_SIZE))
  }

  /** A packet fit to be sent: every header field written, the size matching the contents. */
  predicate Sealed(p: Params, packet: Packet) {
    && packet.header.magic == WATCH_MAGIC
    && packet.header.version == PROT_VERSION
    && packet.graphId == p.graphId
    && packet.streamId == p.streamId
    && match packet
       case Time(h, _, _, rate, count, samples) =>
         && h.kind == p.kind
         && rate == p.sampleRate
         && 1 <= count <= p.threshold
         && |samples| == MAX_STREAM_SAMPLES
         && h.payloadSize == DATA_PREFIX + Stride(count, p.floatsPerSample) * FLOAT_SIZE
       case Spectral(h, _, _, _, _, _, _, _, _, bins) =>
         && h.kind == SpectralData
         && 1 <= |bins| <= MAX_SPECTRAL_BINS
         && h.payloadSize == SPECTRAL_PREFIX + |bins| * FLOAT_SIZE
       case Meter(h, _, _, levels) =>
         && h.kind == MeterData
         && 1 <= |levels| <= MAX_METER_CHANNELS
         && h.payloadSize == METER_PREFIX + |levels| * FLOAT_SIZE
       case Ftable(_, _, _, _, _, _, _) => false
  }

  predicate Oversize(packet: Packet) {
    packet.header.payloadSize > MaxPayload(packet.header.kind)
  }

  predicate HasOpenSlot(s: Ring) {
    (s.pending > 0 && !s.producer.Closed?) || s.producer.Opened?
  }

  predicate Shape(p: Params, s: Ring) {
    |s.slots| == p.capacity && s.writePos < p.capacity && s.readPos < p.capacity
  }

  predicate Enabled(p: Params, s: Ring, a: Action) {
    && Shape(p, s)
    && match a
       case LoadRead =>
         !s.released && s.pending == 0 && !s.producer.Opened? && !s.producer.Closed?
       case Lose(items) => s.producer.Snapshot? && Next(s.writePos, p.capacity) == s.producer.read
       case OpenPacket(_) => s.producer.Snapshot? && Next(s.writePos, p.capacity) != s.producer.read
       case WriteCell(i, cell) =>
         HasOpenSlot(s) && s.pending <= i < p.threshold && |cell| == p.floatsPerSample
       case Extend(n) => HasOpenSlot(s) && 1 <= n && s.pending + n <= p.threshold
       case Close => s.pending > 0 && !s.producer.Closed?
       case Publish => s.producer.Closed?
       case PublishWhole(packet) =>
         && s.producer.Snapshot? && Next(s.writePos, p.capacity) != s.producer.read
         && Sealed(p, packet) && !packet.Time?
       case MarkReleased => s.pending == 0 && s.producer == Free
       case LoadWrite => s.sender.Resting?
       case Send(_) => s.sender.Holding? && s.sender.read < p.capacity
       case FreeSlot => s.sender.Delivered? && s.sender.read < p.capacity
  }

  function Apply(p: Params, s: Ring, a: Action): Ring
    requires Enabled(p, s, a)
  {
    match a
    case LoadRead => s.(producer := Snapshot(s.readPos))
    case Lose(items) =>
      s.(producer := Free, dropped := s.dropped + |items|, log := s.log + Mark(items, false))
    case OpenPacket(sequence) =>
      s.(producer := Opened,
         slots := s.slots[s.writePos := OpenedSlot(p, s.slots[s.writePos], sequence)],
         pendingSequence := sequence)
    case WriteCell(i, cell) =>
      var slot := s.slots[s.writePos];
      s.(slots := s.slots[s.writePos := OpenedSlot(p, slot, s.pendingSequence).(
           samples := WriteAt(Payload(slot), Stride(i, p.floatsPerSample), cell))])
    case Extend(n) =>
      s.(producer := Free, pending := s.pending + n, log := s.log + Mark(AddedItems(p, s, n), true))
    case Close =>
      var slot := SealedSlot(p, OpenedSlot(p, s.slots[s.writePos], s.pendingSequence), s.pending);
      s.(slots := s.slots[s.writePos := slot], pending := 0, producer := Closed(s.pending))
    case Publish =>
      s.(published := s.published + [s.slots[s.writePos]], producer := Free,
         writePos := Next(s.writePos, p.capacity))
    case PublishWhole(packet) =>
      s.(producer := Free, slots := s.slots[s.writePos := packet], published := s.published + [packet],
         writePos := Next(s.writePos, p.capacity),
         log := s.log + Mark(PacketItems(p.floatsPerSample, packet), true))
    case MarkReleased => s.(released := true)
    case LoadWrite => if s.readPos == s.writePos then s else s.(sender := Holding(s.readPos, s.writePos))
    case Send(ok) =>
      var packet := s.slots[s.sender.read];
      if Oversize(packet) then s.(sender := Delivered(s.sender.read))
      else if ok then s.(sender := Delivered(s.sender.read), wire := s.wire + [packet])
      else s.(sender := Resting)
    case FreeSlot =>
      s.(sender := Resting, readPos := Next(s.sender.read, p.capacity), freed := s.freed + 1)
  }

  // ---------------------------------------------------------------- invariant

  /** How far a loaded read position lies behind the write position. */
  function Distance(p: Params, s: Ring, read: nat): int {
    if read <= s.writePos then s.writePos - read else s.writePos + p.capacity - read
  }

  /** The slot at the write position is sealed and there is room to publish it. */
  predicate ClosedInv(p: Params, s: Ring)
    requires Shape(p, s)
  {
    && s.producer.Closed? && QueueLength(s) + 1 < p.capacity
    && var slot := s.slots[s.writePos];
       && slot.Time? && Sealed(p, slot)
       && slot.sampleCount == s.producer.count && slot.header.sequence == s.pendingSequence
  }

  /** The positions delimit the queue. */
  predicate Positions(p: Params, s: Ring) {
    && Shape(p, s)
    && 0 <= QueueLength(s) < p.capacity
    && s.writePos == Wrap(s.readPos + QueueLength(s), p.capacity)
  }

  predicate Queued(p: Params, s: Ring)
    requires Positions(p, s)
  {
    forall i :: s.freed <= i < |s.published| ==>
      s.slots[Wrap(s.readPos + (i - s.freed), p.capacity)] == s.published[i]
  }

  /** What the producer may rely on. */
  predicate ProducerInv(p: Params, s: Ring)
    requires Positions(p, s)
  {
    && (HasOpenSlot(s) ==>
          && QueueLength(s) + 1 < p.capacity
          && IsOpened(p, s.slots[s.writePos], s.pendingSequence))
    && (s.producer.Snapshot? ==>
          && s.pending == 0
          && s.producer.read < p.capacity
          && QueueLength(s) <= Distance(p, s, s.producer.read))
    && (s.producer.Opened? ==> s.pending == 0)
    && (s.producer.Closed? ==> s.pending == 0 && ClosedInv(p, s))
    && s.pending <= p.threshold
    && (s.released ==> s.pending == 0 && s.producer == Free)
  }

  predicate QueueInv(p: Params, s: Ring) {
    Positions(p, s) && Queued(p, s) && ProducerInv(p, s)
  }

  predicate SenderInv(p: Params, s: Ring) {
    && (!s.sender.Resting? ==> s.sender.read == s.readPos && QueueLength(s) > 0)
    && 0 <= QueueLength(s)
    && s.freed + (if s.sender.Delivered? then 1 else 0) <= |s.published|
    && s.wire == s.published[..s.freed + (if s.sender.Delivered? then 1 else 0)]
  }

  predicate HistoryInv(p: Params, s: Ring) {
    && Shape(p, s)
    && (forall i :: 0 <= i < |s.published| ==> Sealed(p, s.published[i]))
    && Kept(s.log) == Flat(p.floatsPerSample, s.published) + PendingItems(p, s)
    && s.dropped == |s.log| - |Kept(s.log)|
  }

  predicate Inv(p: Params, s: Ring) {
    QueueInv(p, s) && SenderInv(p, s) && HistoryInv(p, s)
  }

  // ---------------------------------------------------------------- preservation

  /** A cell written at or past `pending` leaves the pending samples alone and stays
      inside the 256-float payload. */
  lemma WriteCellBounds(p: Params, s: Ring, i: nat, cell: seq<Float>)
    requires WellFormed(p) && Enabled(p, s, WriteCell(i, cell))
    ensures Stride(i, p.floatsPerSample) + |cell| <= MAX_STREAM_SAMPLES
    ensures var s' := Apply(p, s, WriteCell(i, cell));
      && PendingItems(p, s') == PendingItems(p, s)
      && Cell(Payload(s'.slots[s.writePos]), p.floatsPerSample, i) == cell
      && forall k: nat :: k != i ==>
           Cell(Payload(s'.slots[s.writePos]), p.floatsPerSample, k)
           == Cell(Payload(s.slots[s.writePos]), p.floatsPerSample, k)
  {
    var f := p.floatsPerSample;
    StrideApart(i, p.threshold, f);
    var s' := Apply(p, s, WriteCell(i, cell));
    var before, after := Payload(s.slots[s.writePos]), Payload(s'.slots[s.writePos]);
    CellsAfterWrite(before, f, i, cell, i);
    assert after == WriteAt(before, Stride(i, f), cell);
    forall k: nat
      ensures Cell(after, f, k) == if k == i then cell else Cell(before, f, k)
    {
      CellsAfterWrite(before, f, i, cell, k);
    }
    assert PendingItems(p, s') == PendingItems(p, s);
  }

  lemma ProducerKeepsQueue(p: Params, s: Ring, a: Action)
    requires WellFormed(p) && Enabled(p, s, a) && QueueInv(p, s)
    requires !(a.LoadWrite? || a.Send? || a.FreeSlot?)
    ensures QueueInv(p, Apply(p, s, a))
  {
    if a.Publish? || a.PublishWhole? {
      PublishedSlots(p, s, a);
    } else if a.WriteCell? || a.OpenPacket? || a.Close? {
      FillKeepsQueue(p, s, a);
    } else {
      hide Sealed, IsOpened;
      assert Queued(p, Apply(p, s, a));
      hide Queued;
    }
  }

  /** The slot at the write position is not queued. */
  lemma WriteBesideQueue(p: Params, s: Ring, slot: Packet)
    requires Positions(p, s) && Queued(p, s)
    ensures Queued(p, s.(slots := s.slots[s.writePos := slot]))
  {
    var s' := s.(slots := s.slots[s.writePos := slot]);
    forall i | s'.freed <= i < |s'.published|
      ensures s'.slots[Wrap(s'.readPos + (i - s'.freed), p.capacity)] == s'.published[i]
    {
      assert s.slots[Wrap(s.readPos + (i - s.freed), p.capacity)] == s.published[i];
    }
  }

  lemma FillKeepsQueue(p: Params, s: Ring, a: Action)
    requires WellFormed(p) && Enabled(p, s, a) && QueueInv(p, s)
    requires a.OpenPacket? || a.WriteCell? || a.Close?
    ensures QueueInv(p, Apply(p, s, a))
  {
    var s' := Apply(p, s, a);
    WriteBesideQueue(p, s, s'.slots[s.writePos]);
    FillKeepsProducer(p, s, a);
    hide ProducerInv, Sealed, Cell, Stride, WriteAt, Payload, OpenedSlot, SealedSlot;
    assert s'.slots == s.slots[s.writePos := s'.slots[s.writePos]];
  }

  lemma FillKeepsProducer(p: Params, s: Ring, a: Action)
    requires WellFormed(p) && Enabled(p, s, a) && QueueInv(p, s)
    requires a.OpenPacket? || a.WriteCell? || a.Close?
    ensures Positions(p, Apply(p, s, a)) && ProducerInv(p, Apply(p, s, a))
  {
    hide Queued;
    match a
    case WriteCell(i, cell) =>
      WriteCellBounds(p, s, i, cell);
      hide Cell, Stride, WriteAt, Sealed, SealedSlot;
    case OpenPacket(_) => hide Sealed, SealedSlot, Stride;
    case Close =>
  }

  lemma PublishedSlots(p: Params, s: Ring, a: Action)
    requires WellFormed(p) && Enabled(p, s, a) && QueueInv(p, s)
    requires a.Publish? || a.PublishWhole?
    ensures QueueInv(p, Apply(p, s, a))
  {
    hide Sealed, OpenedSlot, SealedSlot, IsOpened, Payload;
    var s' := Apply(p, s, a);
    assert Positions(p, s') && ProducerInv(p, s');
    NewlyQueued(p, s, s');
  }

  /** The slot at the write position joins the queue. */
  lemma NewlyQueued(p: Params, s: Ring, s': Ring)
    requires Positions(p, s) && Queued(p, s) && QueueLength(s) + 1 < p.capacity && Positions(p, s')
    requires s'.readPos == s.readPos && s'.freed == s.freed
    requires s'.slots == s.slots[s.writePos := s'.slots[s.writePos]]
    requires s'.published == s.published + [s'.slots[s.writePos]]
    ensures Queued(p, s')
  {
    forall i | s'.freed <= i < |s'.published|
      ensures s'.slots[Wrap(s'.readPos + (i - s'.freed), p.capacity)] == s'.published[i]
    {
      if i < |s.published| {
        assert s.slots[Wrap(s.readPos + (i - s.freed), p.capacity)] == s.published[i];
      }
    }
  }

  lemma FreeSlotKeepsQueue(p: Params, s: Ring)
    requires WellFormed(p) && Enabled(p, s, FreeSlot) && QueueInv(p, s) && SenderInv(p, s)
    ensures QueueInv(p, Apply(p, s, FreeSlot))
  {
    hide IsOpened, Sealed;
    var s' := Apply(p, s, FreeSlot);
    FreedSlots(p, s);
    hide Queued;
    assert ProducerInv(p, s');
  }

  lemma FreedSlots(p: Params, s: Ring)
    requires Enabled(p, s, FreeSlot) && Positions(p, s) && Queued(p, s) && SenderInv(p, s)
    ensures Positions(p, Apply(p, s, FreeSlot)) && Queued(p, Apply(p, s, FreeSlot))
  {
    var s' := Apply(p, s, FreeSlot);
    forall i | s'.freed <= i < |s'.published|
      ensures s'.slots[Wrap(s'.readPos + (i - s'.freed), p.capacity)] == s'.published[i]
    {
      assert s.slots[Wrap(s.readPos + (i - s.freed), p.capacity)] == s.published[i];
    }
  }

  lemma SenderKeepsQueue(p: Params, s: Ring, a: Action)
    requires WellFormed(p) && Enabled(p, s, a) && QueueInv(p, s) && SenderInv(p, s)
    requires a.LoadWrite? || a.Send? || a.FreeSlot?
    ensures QueueInv(p, Apply(p, s, a))
  {
    if a.FreeSlot? {
      FreeSlotKeepsQueue(p, s);
    } else {
      LoadOrSendKeepsQueue(p, s, a);
    }
  }

  lemma LoadOrSendKeepsQueue(p: Params, s: Ring, a: Action)
    requires WellFormed(p) && Enabled(p, s, a) && QueueInv(p, s) && (a.LoadWrite? || a.Send?)
    ensures QueueInv(p, Apply(p, s, a))
  {
    var s' := Apply(p, s, a);
    OnlySender(p, s, s'.sender, s'.wire);
    hide QueueInv, Oversize;
    assert s' == s.(sender := s'.sender, wire := s'.wire);
  }

  /** The sender's own variables and the wire play no part in the queue. */
  lemma OnlySender(p: Params, s: Ring, sender: SenderPc, wire: seq<Packet>)
    requires QueueInv(p, s)
    ensures QueueInv(p, s.(sender := sender, wire := wire))
  {
    hide Sealed, IsOpened, Wrap, Stride;
    assert Queued(p, s.(sender := sender, wire := wire));
  }

  /** No published packet is ever larger than its type allows, so the sender's
      oversize branch is dead. */
  lemma SealedFits(p: Params, packet: Packet)
    requires WellFormed(p) && Sealed(p, packet)
    ensures !Oversize(packet)
    ensures packet.Time? ==> Stride(packet.sampleCount, p.floatsPerSample) <= MAX_STREAM_SAMPLES
  {
    if packet.Time? && packet.sampleCount < p.threshold {
      StrideApart(packet.sampleCount, p.threshold, p.floatsPerSample);
    }
  }

  lemma HeldSlot(p: Params, s: Ring)
    requires WellFormed(p) && Inv(p, s) && s.sender.Holding?
    ensures s.sender.read < |s.slots| && s.freed < |s.published|
    ensures s.slots[s.sender.read] == s.published[s.freed]
    ensures !Oversize(s.slots[s.sender.read])
  {
    assert s.slots[Wrap(s.readPos + (s.freed - s.freed), p.capacity)] == s.published[s.freed];
    SealedFits(p, s.published[s.freed]);
  }

  lemma StepKeepsSender(p: Params, s: Ring, a: Action)
    requires WellFormed(p) && Enabled(p, s, a) && Inv(p, s)
    ensures SenderInv(p, Apply(p, s, a))
  {
    hide HistoryInv, Sealed;
    if a.Send? {
      HeldSlot(p, s);
      assert s.published[..s.freed + 1] == s.published[..s.freed] + [s.published[s.freed]];
    }
  }

  lemma ExtendedItems(p: Params, s: Ring, n: nat)
    requires Enabled(p, s, Extend(n))
    ensures PendingItems(p, Apply(p, s, Extend(n))) == PendingItems(p, s) + AddedItems(p, s, n)
  {
  }

  lemma ExtendKeepsHistory(p: Params, s: Ring, n: nat)
    requires Enabled(p, s, Extend(n)) && HistoryInv(p, s)
    ensures HistoryInv(p, Apply(p, s, Extend(n)))
  {
    var s' := Apply(p, s, Extend(n));
    var added := AddedItems(p, s, n);
    ExtendedItems(p, s, n);
    KeptMark(s.log, added, true);
    assert s'.log == s.log + Mark(added, true) && s'.published == s.published && s'.dropped == s.dropped;
    assert Shape(p, s');
    hide Apply, Enabled, PendingItems, AddedItems, Kept, Flat, Sealed, Shape;
    Regroup(Kept(s.log), Flat(p.floatsPerSample, s.published), PendingItems(p, s), added);
  }

  /** Clearing the pending count leaves the samples in the sealed slot. */
  lemma CloseKeepsHistory(p: Params, s: Ring)
    requires WellFormed(p) && Enabled(p, s, Close) && Inv(p, s)
    ensures HistoryInv(p, Apply(p, s, Close))
  {
    assert PendingItems(p, Apply(p, s, Close)) == PendingItems(p, s);
    hide Kept, Flat, Sealed;
  }

  /** Moving the write position moves them, in order, behind those already queued. */
  lemma PublishKeepsHistory(p: Params, s: Ring)
    requires WellFormed(p) && Enabled(p, s, Publish) && Inv(p, s)
    ensures HistoryInv(p, Apply(p, s, Publish))
  {
    var s' := Apply(p, s, Publish);
    FlatSnoc(p.floatsPerSample, s.published, s.slots[s.writePos]);
    ClosedItems(p, s);
    NoItems(p, s');
    hide Kept, Flat, Sealed, PendingItems, PacketItems;
    NothingAfter(Flat(p.floatsPerSample, s'.published));
  }

  lemma ClosedItems(p: Params, s: Ring)
    requires QueueInv(p, s) && s.producer.Closed?
    ensures PacketItems(p.floatsPerSample, s.slots[s.writePos]) == PendingItems(p, s)
    ensures Sealed(p, s.slots[s.writePos])
  {
  }

  lemma NoItems(p: Params, s: Ring)
    requires Shape(p, s) && PendingCount(s) == 0
    ensures PendingItems(p, s) == []
  {
  }

  lemma NothingAfter<T>(a: seq<T>)
    ensures a + [] == a
  {
  }

  lemma PublishWholeKeepsHistory(p: Params, s: Ring, packet: Packet)
    requires Enabled(p, s, PublishWhole(packet)) && HistoryInv(p, s) && s.pending == 0
    ensures HistoryInv(p, Apply(p, s, PublishWhole(packet)))
  {
    var s' := Apply(p, s, PublishWhole(packet));
    var items := PacketItems(p.floatsPerSample, packet);
    NoItems(p, s);
    NoItems(p, s');
    FlatSnoc(p.floatsPerSample, s.published, packet);
    KeptMark(s.log, items, true);
    hide Kept, Flat, Sealed, PendingItems, PacketItems, Mark;
    NothingAfter(Flat(p.floatsPerSample, s.published));
    NothingAfter(Flat(p.floatsPerSample, s'.published));
  }

  lemma LoseKeepsHistory(p: Params, s: Ring, items: seq<Item>)
    requires Enabled(p, s, Lose(items)) && HistoryInv(p, s)
    ensures HistoryInv(p, Apply(p, s, Lose(items)))
  {
    KeptMark(s.log, items, false);
    assert Kept(s.log) + [] == Kept(s.log);
    assert PendingItems(p, Apply(p, s, Lose(items))) == PendingItems(p, s);
  }

  lemma FillKeepsHistory(p: Params, s: Ring, a: Action)
    requires WellFormed(p) && Enabled(p, s, a) && Inv(p, s) && (a.OpenPacket? || a.WriteCell?)
    ensures HistoryInv(p, Apply(p, s, a))
  {
    if a.WriteCell? {
      WriteCellBounds(p, s, a.index, a.cell);
    } else {
      assert PendingItems(p, s) == [] == PendingItems(p, Apply(p, s, a));
    }
  }

  lemma OthersKeepHistory(p: Params, s: Ring, a: Action)
    requires WellFormed(p) && Enabled(p, s, a) && Inv(p, s)
    requires a.LoadRead? || a.MarkReleased? || a.LoadWrite? || a.Send? || a.FreeSlot?
    ensures HistoryInv(p, Apply(p, s, a))
  {
    hide QueueInv, Sealed, Kept, Flat;
    assert PendingItems(p, Apply(p, s, a)) == PendingItems(p, s);
  }

  lemma StepKeepsHistory(p: Params, s: Ring, a: Action)
    requires WellFormed(p) && Enabled(p, s, a) && Inv(p, s)
    ensures HistoryInv(p, Apply(p, s, a))
  {
    hide SenderInv, HistoryInv, Apply, Sealed;
    match a
    case Lose(items) => LoseKeepsHistory(p, s, items);
    case OpenPacket(_) => FillKeepsHistory(p, s, a);
    case WriteCell(_, _) => FillKeepsHistory(p, s, a);
    case Extend(n) => ExtendKeepsHistory(p, s, n);
    case Close => CloseKeepsHistory(p, s);
    case Publish => PublishKeepsHistory(p, s);
    case PublishWhole(packet) => PublishWholeKeepsHistory(p, s, packet);
    case _ => OthersKeepHistory(p, s, a);
  }

  /** Every atomic step of either thread keeps the whole invariant. */
  lemma StepKeepsInv(p: Params, s: Ring, a: Action)
    requires WellFormed(p) && Enabled(p, s, a) && Inv(p, s)
    ensures Inv(p, Apply(p, s, a))
  {
    if a.LoadWrite? || a.Send? || a.FreeSlot? {
      SenderKeepsQueue(p, s, a);
    } else {
      ProducerKeepsQueue(p, s, a);
    }
    StepKeepsSender(p, s, a);
    StepKeepsHistory(p, s, a);
  }

  /** The positions compare equal exactly when nothing is queued. */
  lemma EmptyExactly(p: Params, s: Ring)
    requires WellFormed(p) && Inv(p, s)
    ensures s.readPos == s.writePos <==> QueueLength(s) == 0
    ensures Next(s.writePos, p.capacity) == s.readPos <==> QueueLength(s) == p.capacity - 1
  {
  }
}
