/** How a function table is cut into chunks, and what a viewer has once some have arrived. */
module TableChunks {
  import opened Samples
  import opened Wire

  function ChunkCount(total: nat): nat {
    (total + MAX_STREAM_SAMPLES - 1) / MAX_STREAM_SAMPLES
  }

  function ChunkSize(total: nat, k: nat): nat
    requires k < ChunkCount(total)
  {
    Min(total - k * MAX_STREAM_SAMPLES, MAX_STREAM_SAMPLES)
  }

  /** The fields every chunk of one transfer shares. */
  datatype Origin = Origin(graphId: nat, streamId: nat, transferId: nat, sequence: int)

  function Slice(snapshot: seq<Float>, k: nat): seq<Float>
    requires k < ChunkCount(|snapshot|)
  {
    snapshot[k * MAX_STREAM_SAMPLES..k * MAX_STREAM_SAMPLES + ChunkSize(|snapshot|, k)]
  }

  /** Chunk `k` of a snapshot as it goes on the wire. */
  function TablePacket(o: Origin, snapshot: seq<Float>, k: nat): Packet
    requires k < ChunkCount(|snapshot|)
  {
    Ftable(Header(WATCH_MAGIC, PROT_VERSION, FtableData, o.sequence,
                  FTABLE_PREFIX + ChunkSize(|snapshot|, k) * FLOAT_SIZE),
           o.graphId, o.streamId, o.transferId,
           k * MAX_STREAM_SAMPLES, |snapshot|, Slice(snapshot, k))
  }

  /** The first `n` chunks, in order. */
  function TablePackets(o: Origin, snapshot: seq<Float>, n: nat): (r: seq<Packet>)
    requires n <= ChunkCount(|snapshot|)
    ensures |r| == n
  {
    seq(n, k requires 0 <= k < n => TablePacket(o, snapshot, k))
  }

  /** Every chunk the plugin can send passes the viewer's validator. */
  lemma TablePacketIsValid(o: Origin, snapshot: seq<Float>, k: nat)
    requires k < ChunkCount(|snapshot|) && |snapshot| <= MAX_FTABLE_SAMPLES
    requires o.sequence >= 0 && o.graphId != 0 && o.streamId < MAX_STREAMS && o.transferId != 0
    ensures var packet := TablePacket(o, snapshot, k);
      && ValidateFtable(packet, DatagramSize(packet))
      && packet.header.payloadSize <= MaxPayload(FtableData)
      && packet.header.sequence == o.sequence && packet.graphId == o.graphId
      && packet.streamId == o.streamId && packet.transferId == o.transferId
  {
  }

  /** The offset `send_ftable_packets` has reached when `n` chunks were accepted. */
  function NextSample(total: nat, n: nat): nat {
    Min(total, n * MAX_STREAM_SAMPLES)
  }

  /** The offset is at the end exactly when every chunk was accepted. */
  lemma NothingLeftToSend(total: nat, n: nat)
    requires n <= ChunkCount(total)
    ensures NextSample(total, n) >= total <==> n == ChunkCount(total)
  {
  }

  // ---------------------------------------------------------------- the viewer's knowledge

  /** The chunks of one transfer that have arrived. */
  datatype Transfer = Idle | Active(id: nat, total: nat, chunks: map<nat, seq<Float>>)

  predicate Complete(t: Transfer) {
    t.Active? && forall k :: 0 <= k < ChunkCount(t.total) ==> k in t.chunks
  }

  /** A packet of the current transfer adds its chunk once; one of another transfer starts
      over. */
  function Receive(t: Transfer, packet: Packet): Transfer
    requires packet.Ftable?
  {
    var k := packet.sampleOffset / MAX_STREAM_SAMPLES;
    if t.Active? && t.id == packet.transferId && t.total == packet.totalSamples then
      if k in t.chunks then t else t.(chunks := t.chunks[k := packet.chunk])
    else
      Active(packet.transferId, packet.totalSamples, map[k := packet.chunk])
  }

  /** Sample `i` of the table a transfer shows: sanitized once received, zero until then. */
  function SampleAt(chunks: map<nat, seq<Float>>, i: nat): real {
    var k, at := i / MAX_STREAM_SAMPLES, i % MAX_STREAM_SAMPLES;
    if k in chunks && at < |chunks[k]| then Sanitize(chunks[k][at]) else 0.0
  }

  function Contents(t: Transfer): (r: seq<real>)
    requires t.Active?
    ensures |r| == t.total
  {
    seq(t.total, i requires 0 <= i < t.total => SampleAt(t.chunks, i))
  }

  // ---------------------------------------------------------------- any delivery order

  /** What the transfer `t` becomes as the chunks named by `order` arrive, with any
      repetition. */
  function Deliver(t: Transfer, o: Origin, snapshot: seq<Float>, order: seq<nat>): Transfer
    requires forall j :: 0 <= j < |order| ==> order[j] < ChunkCount(|snapshot|)
  {
    if order == [] then t
    else Receive(Deliver(t, o, snapshot, order[..|order| - 1]), TablePacket(o, snapshot, order[|order| - 1]))
  }

  /** No transfer of this table is under way: there is none, or another. */
  predicate NotOf(t: Transfer, o: Origin, total: nat) {
    t == Idle || t.id != o.transferId || t.total != total
  }

  /** The transfer has nothing but slices of the snapshot, each at its own place. */
  predicate SlicesOf(t: Transfer, o: Origin, snapshot: seq<Float>) {
    && t.Active? && t.id == o.transferId && t.total == |snapshot|
    && forall k :: k in t.chunks ==> k < ChunkCount(|snapshot|) && t.chunks[k] == Slice(snapshot, k)
  }

  lemma ReceiveSlice(t: Transfer, o: Origin, snapshot: seq<Float>, k: nat)
    requires k < ChunkCount(|snapshot|)
    requires NotOf(t, o, |snapshot|) || SlicesOf(t, o, snapshot)
    ensures var t' := Receive(t, TablePacket(o, snapshot, k));
      && SlicesOf(t', o, snapshot)
      && t'.chunks.Keys == (if NotOf(t, o, |snapshot|) then {} else t.chunks.Keys) + {k}
  {
    assert TablePacket(o, snapshot, k).sampleOffset / MAX_STREAM_SAMPLES == k;
  }

  lemma {:induction false} DeliveredChunks(t: Transfer, o: Origin, snapshot: seq<Float>, order: seq<nat>)
    requires NotOf(t, o, |snapshot|)
    requires forall j :: 0 <= j < |order| ==> order[j] < ChunkCount(|snapshot|)
    requires order != []
    ensures SlicesOf(Deliver(t, o, snapshot, order), o, snapshot)
    ensures forall k :: k in Deliver(t, o, snapshot, order).chunks.Keys <==> k in order
  {
    hide Receive, TablePacket, ChunkCount, Slice, SlicesOf, NotOf;
    var init, last := order[..|order| - 1], order[|order| - 1];
    if init != [] {
      DeliveredChunks(t, o, snapshot, init);
      NotBoth(Deliver(t, o, snapshot, init), o, snapshot);
    }
    ReceiveSlice(Deliver(t, o, snapshot, init), o, snapshot, last);
    forall k
      ensures k in Deliver(t, o, snapshot, order).chunks.Keys <==> k in order
    {
      InSnoc(order, k);
    }
  }

  lemma NotBoth(t: Transfer, o: Origin, snapshot: seq<Float>)
    requires SlicesOf(t, o, snapshot)
    ensures !NotOf(t, o, |snapshot|)
  {
  }

  lemma InSnoc<T>(s: seq<T>, x: T)
    requires s != []
    ensures x in s <==> x in s[..|s| - 1] || x == s[|s| - 1]
  {
    assert s == s[..|s| - 1] + [s[|s| - 1]];
  }

  lemma SlicesRebuild(t: Transfer, o: Origin, snapshot: seq<Float>, i: nat)
    requires SlicesOf(t, o, snapshot) && i < |snapshot|
    ensures SampleAt(t.chunks, i)
      == if i / MAX_STREAM_SAMPLES in t.chunks then Sanitize(snapshot[i]) else 0.0
  {
    var k := i / MAX_STREAM_SAMPLES;
    if k in t.chunks {
      assert t.chunks[k] == Slice(snapshot, k);
      SliceHolds(snapshot, i);
      hide Slice, ChunkCount;
    }
  }

  lemma SliceHolds(snapshot: seq<Float>, i: nat)
    requires i < |snapshot|
    ensures var slice, at := Slice(snapshot, i / MAX_STREAM_SAMPLES), i % MAX_STREAM_SAMPLES;
      at < |slice| && slice[at] == snapshot[i]
  {
    assert i == i / MAX_STREAM_SAMPLES * MAX_STREAM_SAMPLES + i % MAX_STREAM_SAMPLES;
  }

  /** For every table and every delivery order, with repetition and loss: the transfer is
      complete exactly when each chunk has arrived at least once, and a complete transfer
      is the sanitized snapshot, sample for sample. */
  lemma TransferRoundTrip(before: Transfer, o: Origin, snapshot: seq<Float>, order: seq<nat>)
    requires NotOf(before, o, |snapshot|)
    requires forall j :: 0 <= j < |order| ==> order[j] < ChunkCount(|snapshot|)
    requires order != []
    ensures var t := Deliver(before, o, snapshot, order);
      && SlicesOf(t, o, snapshot)
      && (Complete(t) <==> forall k :: 0 <= k < ChunkCount(|snapshot|) ==> k in order)
      && (Complete(t) ==> Contents(t) == SanitizeAll(snapshot))
  {
    DeliveredChunks(before, o, snapshot, order);
    var t := Deliver(before, o, snapshot, order);
    forall i | 0 <= i < |snapshot|
      ensures Complete(t) ==> Contents(t)[i] == SanitizeAll(snapshot)[i]
    {
      SlicesRebuild(t, o, snapshot, i);
      assert 0 <= i / MAX_STREAM_SAMPLES < ChunkCount(|snapshot|);
    }
  }

  // ---------------------------------------------------------------- counting

  /** How many samples the chunks below `n` among `keys` hold. */
  function Covered(keys: set<nat>, total: nat, n: nat): nat
    requires n <= ChunkCount(total)
  {
    if n == 0 then 0
    else Covered(keys, total, n - 1) + if n - 1 in keys then ChunkSize(total, n - 1) else 0
  }

  lemma {:induction false} CoveredGrows(keys: set<nat>, total: nat, n: nat, k: nat)
    requires n <= ChunkCount(total) && k < ChunkCount(total) && k !in keys
    ensures Covered(keys + {k}, total, n)
         == Covered(keys, total, n) + if k < n then ChunkSize(total, k) else 0
  {
    if n > 0 {
      CoveredGrows(keys, total, n - 1, k);
    }
  }

  /** The running count reaches the total exactly when no chunk is missing. */
  lemma {:induction false} CoveredAll(keys: set<nat>, total: nat, n: nat)
    requires n <= ChunkCount(total)
    ensures Covered(keys, total, n) <= Min(total, n * MAX_STREAM_SAMPLES)
    ensures Covered(keys, total, n) == Min(total, n * MAX_STREAM_SAMPLES)
      <==> forall k :: 0 <= k < n ==> k in keys
  {
    if n > 0 {
      CoveredAll(keys, total, n - 1);
    }
  }
}
