/** The sender's and the viewer's half of a function-table transfer. */
module TableTransfer {
  import opened Samples
  import opened Wire
  import opened TableChunks
  import opened Extremes
  import Modulo

  const MAX_FTABLE_RENDER_BUCKETS: nat := 16384

  // ---------------------------------------------------------------- sender

  class TableSender {
    const origin: Origin
    const totalSamples: nat
    var samples: Option<seq<Float>>
    var nextSample: nat
    ghost const snapshot: seq<Float>
    ghost var accepted: seq<Packet>

    /** The socket has accepted exactly the first chunks of the table, each once. */
    ghost predicate Valid()
      reads this
    {
      && totalSamples == |snapshot| > 0
      && |accepted| <= ChunkCount(|snapshot|)
      && accepted == TablePackets(origin, snapshot, |accepted|)
      && nextSample == NextSample(totalSamples, |accepted|)
      && (samples.Some? ==> samples.value == snapshot)
      && (samples == None ==> nextSample == totalSamples)
    }

    constructor (origin: Origin, snapshot: seq<Float>)
      requires |snapshot| > 0
      ensures Valid() && accepted == [] && this.snapshot == snapshot && this.origin == origin
    {
      this.origin, totalSamples, samples, nextSample := origin, |snapshot|, Some(snapshot), 0;
      this.snapshot, accepted := snapshot, [];
    }

    /** What `stream_transfer_complete` tests: the offset is at the end exactly when the
        socket has accepted the whole table. */
    lemma DoneMeansAllAccepted()
      requires Valid()
      ensures nextSample >= totalSamples
        <==> accepted == TablePackets(origin, snapshot, ChunkCount(|snapshot|))
    {
      NothingLeftToSend(totalSamples, |accepted|);
    }

    /** `send_ftable_packets`: sends up to eight chunks from where the last pass stopped, of
        which the socket takes `willing` and refuses the next. A refused send leaves the
        offset where it was, so no chunk is skipped or repeated; the snapshot is dropped only
        once every chunk has been accepted. */
    method SendFtablePackets(willing: nat) returns (refused: bool)
      requires Valid()
      modifies this
      ensures Valid()
      ensures old(accepted) <= accepted
      ensures |accepted| <= |old(accepted)| + 8
      ensures !refused ==>
        |accepted| == Min(|old(accepted)| + 8, ChunkCount(|snapshot|))
      ensures |accepted| == Min(|old(accepted)| + Min(willing, 8), ChunkCount(|snapshot|))
      ensures refused ==> |accepted| == |old(accepted)| + willing
      ensures samples == None <==>
        old(samples) == None || (!refused && nextSample == totalSamples)
    {
      refused := false;
      var sentCount := 0;
      while sentCount < WATCH_PACKETS_PER_STREAM_PASS && samples.Some? && nextSample < totalSamples
        invariant Valid() && 0 <= sentCount <= WATCH_PACKETS_PER_STREAM_PASS && sentCount <= willing
        invariant samples == old(samples)
        invariant old(accepted) <= accepted
        invariant samples.Some? ==> |accepted| == |old(accepted)| + sentCount
        invariant samples == None ==> accepted == old(accepted)
        decreases WATCH_PACKETS_PER_STREAM_PASS - sentCount
      {
        var offset := nextSample;
        var count := Min(totalSamples - offset, MAX_STREAM_SAMPLES);
        ghost var k := |accepted|;
        var packet := Ftable(
          Header(WATCH_MAGIC, PROT_VERSION, FtableData, origin.sequence,
                 FTABLE_PREFIX + count * FLOAT_SIZE),
          origin.graphId, origin.streamId, origin.transferId,
          offset, totalSamples, samples.value[offset..offset + count]);
        assert packet == TablePacket(origin, snapshot, k);
        if sentCount == willing {
          refused := true;
          return;
        }
        accepted := accepted + [packet];
        nextSample := nextSample + count;
        sentCount := sentCount + 1;
      }
      if samples.Some? && nextSample == totalSamples {
        samples := None;
      }
    }
  }

  // ---------------------------------------------------------------- viewer

  /** `lo` and `hi` are the least and greatest of the elements of `s` at `seen`. */
  ghost predicate IsRange(lo: real, hi: real, s: seq<real>, seen: set<int>)
  {
    && (forall i :: i in seen ==> 0 <= i < |s|)
    && (forall i :: i in seen ==> lo <= s[i] <= hi)
    && (exists i :: i in seen && s[i] == lo)
    && (exists i :: i in seen && s[i] == hi)
  }

  /** The sample positions whose chunk has arrived. */
  ghost function Seen(keys: set<nat>, total: nat): set<int> {
    set i | 0 <= i < total && i / MAX_STREAM_SAMPLES in keys
  }

  lemma RangeFirst(s: seq<real>, at: nat, x: real)
    requires at < |s|
    ensures IsRange(x, x, s[at := x], {at as int})
  {
    assert s[at := x][at] == x;
  }

  lemma RangeAdd(lo: real, hi: real, s: seq<real>, seen: set<int>, at: nat, x: real)
    requires IsRange(lo, hi, s, seen) && at < |s| && at as int !in seen
    ensures IsRange(RealMin(lo, x), RealMax(hi, x), s[at := x], seen + {at as int})
  {
    var s', seen' := s[at := x], seen + {at as int};
    var i :| i in seen && s[i] == lo;
    var j :| j in seen && s[j] == hi;
    assert s'[i] == lo && s'[j] == hi && s'[at] == x;
    assert i in seen' && j in seen' && at as int in seen';
  }

  lemma SeenGrows(keys: set<nat>, total: nat, k: nat)
    requires k < ChunkCount(total)
    ensures Seen(keys + {k}, total)
      == Seen(keys, total) + Run(k * MAX_STREAM_SAMPLES, k * MAX_STREAM_SAMPLES + ChunkSize(total, k))
  {
    assert forall i :: 0 <= i < total ==>
      (i / MAX_STREAM_SAMPLES == k <==>
       k * MAX_STREAM_SAMPLES <= i < k * MAX_STREAM_SAMPLES + ChunkSize(total, k));
  }

  predicate Between(lo: int, i: int, hi: int) {
    lo <= i < hi
  }

  ghost function Run(lo: int, hi: int): set<int> {
    set i | lo <= i < hi && Between(lo, i, hi)
  }

  lemma NothingSeen(total: nat)
    ensures Seen({}, total) == {}
    ensures forall i :: 0 <= i < total ==> SampleAt(map[], i) == 0.0
  {
  }

  /** The running range covers exactly the elements seen so far. */
  ghost predicate RangeOf(hasRange: bool, lo: real, hi: real, s: seq<real>, seen: set<int>) {
    && (hasRange <==> seen != {})
    && (hasRange ==> IsRange(lo, hi, s, seen))
  }

  /** Element `i` once the first `n` samples of a chunk are written at `offset`. */
  function Written(before: seq<real>, chunk: seq<Float>, offset: nat, n: nat, i: nat): real
    requires i < |before| && n <= |chunk|
  {
    if offset <= i < offset + n then Sanitize(chunk[i - offset]) else before[i]
  }

  function EnvelopeCount(total: nat): nat {
    Min(total, MAX_FTABLE_RENDER_BUCKETS)
  }

  class FtableStream {
    var samples: array?<real>
    var receivedChunks: array?<bool>
    var envelopeMinimums: array?<real>
    var envelopeMaximums: array?<real>
    var transferId: nat
    var totalSamples: nat
    var receivedCount: nat
    var dataMinimum: real
    var dataMaximum: real
    var hasRange: bool
    var assembling: bool
    var displayReady: bool
    var unsupported: bool
    ghost var chunks: map<nat, seq<Float>>

    ghost function Table(): Transfer
      reads this
    {
      if samples == null then Idle else Active(transferId, totalSamples, chunks)
    }

    /** The sample buffer shows what has arrived, and the range is that of what has arrived. */
    ghost predicate BufferInv()
      reads this`samples, this`totalSamples, this`chunks, this`dataMinimum, this`dataMaximum,
        this`hasRange, samples
    {
      && samples != null && samples.Length == totalSamples > 0
      && (forall k :: k in chunks ==> k < ChunkCount(totalSamples) && |chunks[k]| == ChunkSize(totalSamples, k))
      && (forall i :: 0 <= i < totalSamples ==> samples[i] == SampleAt(chunks, i))
      && RangeOf(hasRange, dataMinimum, dataMaximum, samples[..], Seen(chunks.Keys, totalSamples))
    }

    ghost predicate FlagsInv()
      reads this`receivedChunks, this`totalSamples, this`chunks, this`receivedCount,
        this`assembling, receivedChunks
    {
      && receivedCount == Covered(chunks.Keys, totalSamples, ChunkCount(totalSamples))
      && (assembling <==> receivedChunks != null)
      && (assembling ==>
            && receivedChunks.Length == ChunkCount(totalSamples)
            && (forall k :: 0 <= k < receivedChunks.Length ==> (receivedChunks[k] <==> k in chunks))
            && receivedCount < totalSamples)
      && (!assembling ==> receivedCount == totalSamples)
    }

    ghost predicate EnvelopeInv()
      reads this`samples, this`totalSamples, this`envelopeMinimums, this`envelopeMaximums,
        samples, envelopeMinimums, envelopeMaximums
    {
      && samples != null && samples.Length == totalSamples > 0
      && envelopeMinimums != null && envelopeMaximums != null
      && envelopeMinimums.Length == envelopeMaximums.Length == EnvelopeCount(totalSamples)
      && var ranges := Buckets(totalSamples, EnvelopeCount(totalSamples));
         && Partition(ranges, totalSamples)
         && (forall b :: 0 <= b < |ranges| ==>
               && IsMin(envelopeMinimums[b], samples[..][ranges[b].lo..ranges[b].hi])
               && IsMax(envelopeMaximums[b], samples[..][ranges[b].lo..ranges[b].hi]))
    }

    ghost predicate Valid()
      reads this, samples, receivedChunks, envelopeMinimums, envelopeMaximums
    {
      && (samples == null ==> !assembling && !displayReady && !hasRange)
      && (samples != null ==> BufferInv() && FlagsInv() && !unsupported)
      && (displayReady ==> !assembling && EnvelopeInv())
      && (samples != null && receivedChunks != null ==> samples as object != receivedChunks)
    }

    constructor ()
      ensures Valid() && Table() == Idle && !displayReady && !unsupported
    {
      samples, receivedChunks, envelopeMinimums, envelopeMaximums := null, null, null, null;
      transferId, totalSamples, receivedCount, dataMinimum, dataMaximum := 0, 0, 0, 0.0, 0.0;
      hasRange, assembling, displayReady, unsupported := false, false, false, false;
      chunks := map[];
    }

    method Clear()
      modifies this
      ensures Valid() && Table() == Idle && !displayReady && !unsupported && receivedChunks == null
      ensures chunks == map[] && totalSamples == 0 && receivedCount == 0 && !hasRange
    {
      hide BufferInv, FlagsInv, EnvelopeInv;
      samples, receivedChunks, envelopeMinimums, envelopeMaximums := null, null, null, null;
      transferId, totalSamples, receivedCount, dataMinimum, dataMaximum := 0, 0, 0, 0.0, 0.0;
      hasRange, assembling, displayReady, unsupported := false, false, false, false;
      chunks := map[];
    }

    /** Writes one sample and extends the running range with it. */
    method StoreSample(at: nat, sample: real, ghost seen: set<int>)
      requires samples != null && at < samples.Length && at as int !in seen
      requires RangeOf(hasRange, dataMinimum, dataMaximum, samples[..], seen)
      modifies this`dataMinimum, this`dataMaximum, this`hasRange, samples
      ensures samples[..] == old(samples[..])[at := sample]
      ensures RangeOf(hasRange, dataMinimum, dataMaximum, samples[..], seen + {at as int})
    {
      if hasRange {
        RangeAdd(dataMinimum, dataMaximum, samples[..], seen, at, sample);
      } else {
        RangeFirst(samples[..], at, sample);
        assert seen + {at as int} == {at as int};
      }
      samples[at] := sample;
      if !hasRange {
        dataMinimum, dataMaximum, hasRange := sample, sample, true;
      } else {
        dataMinimum, dataMaximum := RealMin(dataMinimum, sample), RealMax(dataMaximum, sample);
      }
      assert at as int in seen + {at as int};
    }

    /** Copies one new chunk into the buffer and extends the running range with it. */
    method StoreChunk(chunk: seq<Float>, k: nat)
      requires BufferInv() && k !in chunks
      requires k < ChunkCount(totalSamples) && |chunk| == ChunkSize(totalSamples, k)
      modifies this`dataMinimum, this`dataMaximum, this`hasRange, this`chunks, samples
      ensures BufferInv() && chunks == old(chunks)[k := chunk]
    {
      hide RangeOf;
      ghost var before := samples[..];
      StoreSamples(chunk, k);
      SeenGrows(chunks.Keys, totalSamples, k);
      ChunkStored(chunks, chunk, k, before, samples[..], totalSamples);
      chunks := chunks[k := chunk];
      assert chunks.Keys == old(chunks.Keys) + {k};
    }

    /** The sample loop of `process_ftable_packet`. */
    method StoreSamples(chunk: seq<Float>, k: nat)
      requires BufferInv() && k !in chunks
      requires k < ChunkCount(totalSamples) && |chunk| == ChunkSize(totalSamples, k)
      modifies this`dataMinimum, this`dataMaximum, this`hasRange, samples
      ensures forall j :: 0 <= j < totalSamples ==>
        samples[j] == Written(old(samples[..]), chunk, k * MAX_STREAM_SAMPLES, |chunk|, j)
      ensures var offset := k * MAX_STREAM_SAMPLES;
        RangeOf(hasRange, dataMinimum, dataMaximum, samples[..],
                Seen(chunks.Keys, totalSamples) + Run(offset, offset + |chunk|))
    {
      hide RangeOf;
      var offset := k * MAX_STREAM_SAMPLES;
      ghost var seen := Seen(chunks.Keys, totalSamples);
      assert seen + Run(offset, offset) == seen;
      for i := 0 to |chunk|
        invariant forall j :: 0 <= j < totalSamples ==>
          samples[j] == Written(old(samples[..]), chunk, offset, i, j)
        invariant RangeOf(hasRange, dataMinimum, dataMaximum, samples[..], seen + Run(offset, offset + i))
      {
        ghost var all := seen + Run(offset, offset + i);
        assert all + {offset + i} == seen + Run(offset, offset + i + 1) by {
          assert Run(offset, offset + i) + {offset + i} == Run(offset, offset + i + 1);
        }
        assert (offset + i) / MAX_STREAM_SAMPLES == k;
        StoreSample(offset + i, Sanitize(chunk[i]), all);
      }
    }

    /** The stream holds the buffer of this very transfer. */
    ghost predicate IsFor(id: nat, total: nat)
      reads this
    {
      transferId == id && totalSamples == total
    }

    /** `ensure_ftable_stream`. `hasMemory` says whether the allocations succeeded. */
    method EnsureFtableStream(id: nat, total: nat, hasMemory: bool) returns (ok: bool)
      requires Valid() && total > 0
      modifies this
      ensures Valid()
      ensures ok <==>
        old(samples != null && IsFor(id, total)) || (hasMemory && !old(unsupported && IsFor(id, total)))
      ensures old(samples != null && IsFor(id, total)) ==> unchanged(this)
      ensures ok && !old(samples != null && IsFor(id, total)) ==>
        && samples != null && fresh(samples) && receivedChunks != null && fresh(receivedChunks)
        && Table() == Active(id, total, map[]) && assembling && !displayReady
      ensures !ok ==> samples == null && unsupported && IsFor(id, total) && !displayReady
      ensures !ok ==> receivedChunks == null || receivedChunks == old(receivedChunks)
    {
      if samples != null && transferId == id && totalSamples == total {
        return true;
      }
      if unsupported && transferId == id && totalSamples == total {
        return false;
      }
      Clear();
      transferId, totalSamples := id, total;
      if !hasMemory {
        unsupported := true;
        return false;
      }
      SetUp(id, total);
      return true;
    }

    /** A buffer in which nothing has arrived yet. */
    method SetUp(id: nat, total: nat)
      requires total > 0 && chunks == map[] && receivedCount == 0 && !hasRange
      requires !displayReady && !unsupported && IsFor(id, total)
      modifies this`samples, this`receivedChunks, this`assembling
      ensures Valid() && samples != null && fresh(samples) && receivedChunks != null && fresh(receivedChunks)
      ensures Table() == Active(id, total, map[]) && assembling
    {
      hide BufferInv, FlagsInv, EnvelopeInv, ChunkCount;
      samples := new real[total](_ => 0.0);
      receivedChunks := new bool[ChunkCount(total)](_ => false);
      assembling := true;
      EmptyBuffer();
      EmptyFlags();
    }

    lemma EmptyBuffer()
      requires samples != null && samples.Length == totalSamples > 0 && chunks == map[] && !hasRange
      requires forall i :: 0 <= i < totalSamples ==> samples[i] == 0.0
      ensures BufferInv()
    {
      NothingSeen(totalSamples);
      hide Seen, SampleAt;
      assert chunks.Keys == {};
    }

    lemma EmptyFlags()
      requires receivedChunks != null && receivedChunks.Length == ChunkCount(totalSamples) && assembling
      requires chunks == map[] && receivedCount == 0 < totalSamples
      requires forall k :: 0 <= k < receivedChunks.Length ==> !receivedChunks[k]
      ensures FlagsInv()
    {
      NothingCovered(totalSamples, ChunkCount(totalSamples));
      assert chunks.Keys == {};
    }

    /** The two-level reduction: the extremes of every bucket of samples. */
    method PrepareFtableEnvelope(hasMemory: bool) returns (ok: bool)
      requires BufferInv()
      modifies this`envelopeMinimums, this`envelopeMaximums
      ensures ok == hasMemory
      ensures ok ==> EnvelopeInv() && fresh(envelopeMinimums) && fresh(envelopeMaximums)
      ensures !ok ==> unchanged(this)
    {
      if !hasMemory {
        return false;
      }
      var count := EnvelopeCount(totalSamples);
      var minimums := new real[count];
      var maximums := new real[count];
      BucketsPartition(totalSamples, count);
      FillEnvelope(samples, minimums, maximums);
      hide Boundary, BufferInv, RangeOf, IsMin, IsMax, SampleAt;
      assert forall b :: 0 <= b < count ==>
        IsBucket(minimums[b], maximums[b], samples[..], Buckets(totalSamples, count)[b]);
      envelopeMinimums, envelopeMaximums := minimums, maximums;
      return true;
    }

    /** Stores a chunk, marks it and counts its samples. */
    method MarkChunk(chunk: seq<Float>, k: nat)
      requires BufferInv() && FlagsInv() && assembling && k !in chunks
      requires k < ChunkCount(totalSamples) && |chunk| == ChunkSize(totalSamples, k)
      modifies this`dataMinimum, this`dataMaximum, this`hasRange, this`chunks, this`receivedCount,
        samples, receivedChunks
      ensures BufferInv() && chunks == old(chunks)[k := chunk]
      ensures receivedCount == Covered(chunks.Keys, totalSamples, ChunkCount(totalSamples)) <= totalSamples
      ensures forall j :: 0 <= j < receivedChunks.Length ==> (receivedChunks[j] <==> j in chunks)
      ensures receivedCount == totalSamples <==> Complete(Active(transferId, totalSamples, chunks))
    {
      hide BufferInv, Covered;
      ChunkCounts(chunks.Keys, totalSamples, k);
      StoreChunk(chunk, k);
      assert chunks.Keys == old(chunks.Keys) + {k};
      receivedChunks[k] := true;
      receivedCount := receivedCount + |chunk|;
    }

    /** Stores a chunk not seen before and, with the last one, closes the transfer. */
    method AcceptChunk(chunk: seq<Float>, k: nat, envelopeMemory: bool)
      requires Valid() && samples != null && assembling && k !in chunks
      requires k < ChunkCount(totalSamples) && |chunk| == ChunkSize(totalSamples, k)
      modifies this, samples, receivedChunks
      ensures Valid() && samples == old(samples)
      ensures receivedChunks == old(receivedChunks) || receivedChunks == null
      ensures Table() == Active(old(transferId), old(totalSamples), old(chunks)[k := chunk])
      ensures displayReady <==> Complete(Table()) && envelopeMemory
    {
      hide BufferInv, EnvelopeInv, Covered;
      MarkChunk(chunk, k);
      if receivedCount == totalSamples {
        CompleteTable(envelopeMemory);
      }
    }

    /** The last chunk has arrived. */
    method CompleteTable(envelopeMemory: bool)
      requires samples != null && BufferInv() && !displayReady && !unsupported
      requires receivedCount == totalSamples == Covered(chunks.Keys, totalSamples, ChunkCount(totalSamples))
      modifies this`receivedChunks, this`assembling, this`displayReady, this`envelopeMinimums,
        this`envelopeMaximums
      ensures Valid() && displayReady == envelopeMemory && receivedChunks == null
    {
      hide BufferInv, EnvelopeInv, Covered;
      receivedChunks := null;
      assembling := false;
      displayReady := PrepareFtableEnvelope(envelopeMemory);
    }

    /** `process_ftable_packet`, once the graph is known to be a table graph whose
        configured size is `winSize`. */
    method ProcessFtable(packet: Packet, received: int, winSize: nat, hasMemory: bool, envelopeMemory: bool)
      requires Valid()
      modifies this, samples, receivedChunks
      ensures Valid()
      ensures !(ValidateFtable(packet, received) && packet.totalSamples == winSize) ==>
        Table() == old(Table()) && displayReady == old(displayReady)
      ensures ValidateFtable(packet, received) && packet.totalSamples == winSize ==>
        if Honoured(old(Table()), old(unsupported && IsFor(packet.transferId, packet.totalSamples)), packet, hasMemory)
        then Table() == Receive(old(Table()), packet)
        else Table() == Idle && unsupported
      ensures hasMemory && envelopeMemory && old(displayReady <==> Complete(Table())) ==>
        (displayReady <==> Complete(Table()))
      ensures ValidateFtable(packet, received) && packet.totalSamples == winSize ==>
        hasMemory && envelopeMemory && old(!IsFor(packet.transferId, packet.totalSamples)) ==>
        (displayReady <==> Complete(Table()))
      ensures samples == old(samples) || samples == null || fresh(samples)
      ensures receivedChunks == old(receivedChunks) || receivedChunks == null || fresh(receivedChunks)
    {
      hide BufferInv, EnvelopeInv;
      if !(ValidateFtable(packet, received) && packet.totalSamples == winSize) {
        return;
      }
      CompleteMeansDone();
      if displayReady && transferId == packet.transferId && totalSamples == packet.totalSamples {
        assert packet.sampleOffset / MAX_STREAM_SAMPLES < ChunkCount(totalSamples);
        return;
      }
      var ok := EnsureFtableStream(packet.transferId, packet.totalSamples, hasMemory);
      if !ok {
        return;
      }
      var k := packet.sampleOffset / MAX_STREAM_SAMPLES;
      assert k < ChunkCount(totalSamples) && |packet.chunk| == ChunkSize(totalSamples, k);
      CompleteMeansDone();
      if !assembling || receivedChunks[k] {
        return;
      }
      AcceptChunk(packet.chunk, k, envelopeMemory);
    }

    /** A buffer stops assembling exactly when its transfer is complete. */
    lemma CompleteMeansDone()
      requires Valid()
      ensures samples != null ==> (Complete(Table()) <==> !assembling)
      ensures displayReady ==> samples != null && Complete(Table())
    {
      if samples != null {
        CoveredAll(chunks.Keys, totalSamples, ChunkCount(totalSamples));
      }
    }

    /** What is displayed is the whole table: every sample as received, sanitized, and the
        data range is the range of those samples. */
    lemma DisplayIsWhole()
      requires Valid() && displayReady
      ensures samples != null && Complete(Table())
      ensures samples[..] == Contents(Table())
      ensures IsMin(dataMinimum, samples[..]) && IsMax(dataMaximum, samples[..])
    {
      CompleteMeansDone();
      assert samples[..] == Contents(Table());
      var seen := Seen(chunks.Keys, totalSamples);
      assert forall i :: 0 <= i < totalSamples ==> 0 <= i / MAX_STREAM_SAMPLES < ChunkCount(totalSamples);
      assert forall i :: 0 <= i < totalSamples ==> i in seen;
      assert 0 in seen;
    }

    /** The column loop of `render_ftable`. Each column takes the extremes of its buckets, and
        over all columns the extremes are those of the whole table, which are also the
        incrementally computed `dataMinimum` and `dataMaximum`. */
    method RenderColumns(columnCount: nat) returns (columns: seq<Span>)
      requires Valid() && displayReady && columnCount > 0 && totalSamples > columnCount * 2
      ensures |columns| == columnCount
      ensures samples != null
      ensures forall c :: 0 <= c < columnCount ==>
        Connects(columns[c], samples[..], Bucket(c, totalSamples, columnCount))
      ensures forall c :: 0 <= c < columnCount ==>
        Spans(columns[c], samples[..],
              Under(c, totalSamples, Min(totalSamples, MAX_FTABLE_RENDER_BUCKETS), columnCount))
      ensures forall m :: IsMin(m, Minima(columns)) ==> m == dataMinimum
      ensures forall m :: IsMax(m, Maxima(columns)) ==> m == dataMaximum
    {
      DisplayIsWhole();
      columns := RenderAll(samples, envelopeMinimums, envelopeMaximums, columnCount);
      ColumnsConnect(columns, columnCount);
      ColumnsSpan(columns, columnCount);
      ColumnsKeepExtremes(columns, columnCount);
    }

    /** The columns as `RenderAll` makes them from this stream's envelope. */
    ghost predicate FromEnvelope(columns: seq<Span>, columnCount: nat)
      requires columnCount > 0
      reads this, samples, envelopeMinimums, envelopeMaximums
    {
      && samples != null && samples.Length == totalSamples > 0
      && envelopeMinimums != null && envelopeMaximums != null
      && envelopeMinimums.Length == envelopeMaximums.Length == EnvelopeCount(totalSamples)
      && AreColumns(columns, envelopeMinimums[..], envelopeMaximums[..], samples[..], columnCount)
    }

    lemma ColumnsConnect(columns: seq<Span>, columnCount: nat)
      requires columnCount > 0 && FromEnvelope(columns, columnCount)
      ensures forall c :: 0 <= c < columnCount ==>
        Connects(columns[c], samples[..], Bucket(c, totalSamples, columnCount))
    {
    }

    /** Each column spans the samples of the buckets under it, and no others. */
    lemma ColumnsSpan(columns: seq<Span>, columnCount: nat)
      requires Valid() && displayReady && columnCount > 0 && FromEnvelope(columns, columnCount)
      ensures forall c :: 0 <= c < columnCount ==>
        Spans(columns[c], samples[..], Under(c, totalSamples, EnvelopeCount(totalSamples), columnCount))
    {
      var all, lows, highs, count := samples[..], envelopeMinimums[..], envelopeMaximums[..], |envelopeMinimums[..]|;
      assert forall b :: 0 <= b < count ==> Buckets(totalSamples, count)[b] == Bucket(b, totalSamples, count);
      assert forall b :: 0 <= b < count ==> IsMinIn(lows[b], all, Bucket(b, totalSamples, count));
      assert forall b :: 0 <= b < count ==> IsMaxIn(highs[b], all, Bucket(b, totalSamples, count));
      hide Valid, IsMin, IsMax, Boundary;
      forall c | 0 <= c < columnCount
        ensures Spans(columns[c], all, Under(c, totalSamples, count, columnCount))
      {
        assert IsColumn(columns[c], lows, highs, Columns(count, columnCount)[c],
                        all, Bucket(c, totalSamples, columnCount));
        MinOverBuckets(all, lows, columns[c].minimum, Column(c, count, columnCount));
        MaxOverBuckets(all, highs, columns[c].maximum, Column(c, count, columnCount));
      }
    }

    lemma ColumnsKeepExtremes(columns: seq<Span>, columnCount: nat)
      requires Valid() && displayReady && columnCount > 0 && FromEnvelope(columns, columnCount)
      ensures forall m :: IsMin(m, Minima(columns)) ==> m == dataMinimum
      ensures forall m :: IsMax(m, Maxima(columns)) ==> m == dataMaximum
    {
      ghost var count := EnvelopeCount(totalSamples);
      ghost var ranges := Columns(count, columnCount);
      ghost var lows, highs := envelopeMinimums[..], envelopeMaximums[..];
      ColumnsCover(count, columnCount);
      ColumnsAgree(columns, lows, highs, ranges, samples[..], totalSamples, columnCount);
      hide IsColumn, Valid, IsMin, IsMax, Columns, Boundary;
      forall m | IsMin(m, Minima(columns)) ensures m == dataMinimum {
        MinOverCover(lows, ranges, Minima(columns), m);
        LowestBucket(m);
      }
      forall m | IsMax(m, Maxima(columns)) ensures m == dataMaximum {
        MaxOverCover(highs, ranges, Maxima(columns), m);
        HighestBucket(m);
      }
    }

    lemma LowestBucket(m: real)
      requires Valid() && displayReady && IsMin(m, envelopeMinimums[..])
      ensures m == dataMinimum
    {
      DisplayIsWhole();
      MinOverCover(samples[..], Buckets(totalSamples, EnvelopeCount(totalSamples)), envelopeMinimums[..], m);
      MinIsUnique(m, dataMinimum, samples[..]);
    }

    lemma HighestBucket(m: real)
      requires Valid() && displayReady && IsMax(m, envelopeMaximums[..])
      ensures m == dataMaximum
    {
      DisplayIsWhole();
      MaxOverCover(samples[..], Buckets(totalSamples, EnvelopeCount(totalSamples)), envelopeMaximums[..], m);
      MaxIsUnique(m, dataMaximum, samples[..]);
    }
  }

  /** A column's extent is exactly that of the samples of a stretch. */
  predicate Spans(span: Span, samples: seq<real>, stretch: Range) {
    IsMinIn(span.minimum, samples, stretch) && IsMaxIn(span.maximum, samples, stretch)
  }

  /** A column connects to its neighbours at the first and last sample of its stretch. */
  predicate Connects(span: Span, samples: seq<real>, stretch: Range) {
    && stretch.lo < stretch.hi <= |samples|
    && span.first == samples[stretch.lo] && span.last == samples[stretch.hi - 1]
  }

  predicate IsColumn(span: Span, lows: seq<real>, highs: seq<real>, r: Range,
                     samples: seq<real>, stretch: Range)
  {
    && r.lo < r.hi <= |lows| == |highs|
    && IsMin(span.minimum, lows[r.lo..r.hi]) && IsMax(span.maximum, highs[r.lo..r.hi])
    && Connects(span, samples, stretch)
  }

  method RenderColumn(samples: array<real>, lows: array<real>, highs: array<real>, c: nat, columnCount: nat)
    returns (span: Span)
    requires lows.Length == highs.Length > 0 && c < columnCount <= samples.Length
    ensures IsColumn(span, lows[..], highs[..], Columns(lows.Length, columnCount)[c],
                     samples[..], Bucket(c, samples.Length, columnCount))
  {
    hide Boundary, IsMin, IsMax;
    var r := Column(c, lows.Length, columnCount);
    ColumnInside(c, lows.Length, columnCount);
    var minimum, _ := ExtentOf(lows, r);
    var _, maximum := ExtentOf(highs, r);
    BucketInside(c, samples.Length, columnCount);
    var stretch := Bucket(c, samples.Length, columnCount);
    span := Span(minimum, maximum, samples[stretch.lo], samples[stretch.hi - 1]);
  }

  predicate AreColumns(columns: seq<Span>, lows: seq<real>, highs: seq<real>, samples: seq<real>,
                       columnCount: nat)
    requires columnCount > 0
  {
    && |columns| == columnCount && |lows| == |highs|
    && forall c :: 0 <= c < columnCount ==>
         IsColumn(columns[c], lows, highs, Columns(|lows|, columnCount)[c],
                  samples, Bucket(c, |samples|, columnCount))
  }

  /** A table with no more samples than buckets is drawn exactly: each column spans the
      samples that end inside it. */
  lemma SmallTableColumns(c: nat, total: nat, columnCount: nat, i: nat)
    requires c < columnCount <= total <= MAX_FTABLE_RENDER_BUCKETS && i < total
    ensures Holds(Under(c, total, Min(total, MAX_FTABLE_RENDER_BUCKETS), columnCount), i)
      <==> EndsIn(i, c, total, columnCount)
  {
    var r := Under(c, total, total, columnCount);
    UnderHolds(c, total, total, columnCount, i);
    ColumnHolds(c, total, columnCount, i);
    hide Column, Under;
    forall b: nat | b < total
      ensures EndsIn(i, b, total, total) <==> b == i
    {
      if b < i {
        Modulo.TimesGrows(b + 1, i, total);
      } else if i < b {
        Modulo.TimesGrows(i + 1, b, total);
      }
    }
    assert EndsIn(i, i, total, total);
  }

  /** The column loop of `render_ftable`. */
  method RenderAll(samples: array<real>, lows: array<real>, highs: array<real>, columnCount: nat)
    returns (columns: seq<Span>)
    requires lows.Length == highs.Length > 0 && 0 < columnCount <= samples.Length
    ensures AreColumns(columns, lows[..], highs[..], samples[..], columnCount)
  {
    hide IsColumn, Bucket, Columns;
    columns := [];
    for c := 0 to columnCount
      invariant |columns| == c
      invariant forall j :: 0 <= j < c ==>
        IsColumn(columns[j], lows[..], highs[..], Columns(lows.Length, columnCount)[j],
                 samples[..], Bucket(j, samples.Length, columnCount))
    {
      var span := RenderColumn(samples, lows, highs, c, columnCount);
      columns := columns + [span];
    }
  }

  lemma ColumnsAgree(columns: seq<Span>, lows: seq<real>, highs: seq<real>, ranges: seq<Range>,
                     samples: seq<real>, total: nat, columnCount: nat)
    requires |columns| == |ranges| == columnCount > 0
    requires forall j :: 0 <= j < columnCount ==>
      IsColumn(columns[j], lows, highs, ranges[j], samples, Bucket(j, total, columnCount))
    requires Inside(ranges, |lows|) && |lows| == |highs|
    ensures forall j :: 0 <= j < columnCount ==>
      Connects(columns[j], samples, Bucket(j, total, columnCount))
    ensures forall j :: 0 <= j < columnCount ==>
      IsMin(Minima(columns)[j], lows[ranges[j].lo..ranges[j].hi])
    ensures forall j :: 0 <= j < columnCount ==>
      IsMax(Maxima(columns)[j], highs[ranges[j].lo..ranges[j].hi])
  {
  }

  /** Whether the viewer has, or can get, a buffer for the packet's transfer. */
  predicate Honoured(t: Transfer, refusedBefore: bool, packet: Packet, hasMemory: bool)
    requires packet.Ftable?
  {
    || (t.Active? && t.id == packet.transferId && t.total == packet.totalSamples)
    || (hasMemory && !refusedBefore)
  }

  predicate IsBucket(low: real, high: real, samples: seq<real>, r: Range) {
    && r.lo < r.hi <= |samples|
    && IsMin(low, samples[r.lo..r.hi]) && IsMax(high, samples[r.lo..r.hi])
  }

  /** The bucket loop of `prepare_ftable_envelope`. */
  method FillEnvelope(samples: array<real>, minimums: array<real>, maximums: array<real>)
    requires 0 < minimums.Length == maximums.Length <= samples.Length
    requires minimums != maximums && minimums != samples && maximums != samples
    modifies minimums, maximums
    ensures forall b :: 0 <= b < minimums.Length ==>
      IsBucket(minimums[b], maximums[b], samples[..], Buckets(samples.Length, minimums.Length)[b])
  {
    var count := minimums.Length;
    BucketsPartition(samples.Length, count);
    ghost var ranges, all := Buckets(samples.Length, count), samples[..];
    hide Boundary, IsBucket;
    for b := 0 to count
      invariant forall j :: 0 <= j < b ==> IsBucket(minimums[j], maximums[j], all, ranges[j])
    {
      var r := Bucket(b, samples.Length, count);
      assert r == ranges[b];
      var low, high := ExtentOf(samples, r);
      MakeBucket(low, high, all, r);
      minimums[b], maximums[b] := low, high;
    }
  }

  lemma MakeBucket(low: real, high: real, samples: seq<real>, r: Range)
    requires r.lo < r.hi <= |samples|
    requires IsMin(low, samples[r.lo..r.hi]) && IsMax(high, samples[r.lo..r.hi])
    ensures IsBucket(low, high, samples, r)
  {
  }

  /** The extremes of one stretch of an array. */
  method ExtentOf(a: array<real>, r: Range) returns (minimum: real, maximum: real)
    requires r.lo < r.hi <= a.Length
    ensures IsMin(minimum, a[..][r.lo..r.hi]) && IsMax(maximum, a[..][r.lo..r.hi])
  {
    ghost var all := a[..];
    minimum, maximum := a[r.lo], a[r.lo];
    assert all[r.lo..r.lo + 1] == [minimum];
    for i := r.lo + 1 to r.hi
      invariant IsMin(minimum, all[r.lo..i]) && IsMax(maximum, all[r.lo..i])
    {
      assert all[r.lo..i + 1] == all[r.lo..i] + [a[i]];
      minimum, maximum := RealMin(minimum, a[i]), RealMax(maximum, a[i]);
    }
  }

  lemma ChunkCounts(keys: set<nat>, total: nat, k: nat)
    requires k < ChunkCount(total) && k !in keys
    ensures var n := ChunkCount(total);
      && Covered(keys + {k}, total, n) == Covered(keys, total, n) + ChunkSize(total, k) <= total
      && (Covered(keys + {k}, total, n) == total <==> forall j :: 0 <= j < n ==> j in keys + {k})
  {
    CoveredGrows(keys, total, ChunkCount(total), k);
    CoveredAll(keys + {k}, total, ChunkCount(total));
  }

  lemma {:induction false} NothingCovered(total: nat, n: nat)
    requires n <= ChunkCount(total)
    ensures Covered({}, total, n) == 0
  {
    if n > 0 {
      NothingCovered(total, n - 1);
    }
  }

  lemma ChunkStored(chunks: map<nat, seq<Float>>, chunk: seq<Float>, k: nat,
                    before: seq<real>, after: seq<real>, total: nat)
    requires k < ChunkCount(total) && |chunk| == ChunkSize(total, k) && |before| == |after| == total
    requires forall i :: 0 <= i < total ==> before[i] == SampleAt(chunks, i)
    requires forall i :: 0 <= i < total ==>
      after[i] == Written(before, chunk, k * MAX_STREAM_SAMPLES, |chunk|, i)
    ensures forall i :: 0 <= i < total ==> after[i] == SampleAt(chunks[k := chunk], i)
  {
    forall i | 0 <= i < total
      ensures after[i] == SampleAt(chunks[k := chunk], i)
    {
      if i / MAX_STREAM_SAMPLES == k {
        assert i % MAX_STREAM_SAMPLES == i - k * MAX_STREAM_SAMPLES;
      }
    }
  }
}
