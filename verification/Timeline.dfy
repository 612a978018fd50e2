/** The viewer's time-domain buffer: a plain timeline from sequence number to sample,
    and the ring that stands for its newest part. */
module Timeline {
  import opened Samples
  import opened Wire
  import HistoryRing
  import Modulo

  const SCOPE_RENDER_LATENCY_MS: real := 50.0

  // ---------------------------------------------------------------- the plain timeline

  /** `values[i]` is the sample at sequence number `start + i`. */
  datatype Line = Line(start: int, values: seq<real>)

  function End(line: Line): int {
    line.start + |line.values|
  }

  function At(line: Line, sequence: int): real
    requires line.start <= sequence < End(line)
  {
    line.values[sequence - line.start]
  }

  /** Appending samples stamped `sequence`: what is already there is kept, what is missing
      in between is zero. The first packet fixes the origin. */
  function Append(line: Option<Line>, samples: seq<real>, sequence: int): Line {
    var old_ := if line.Some? then line.value else Line(sequence, []);
    var next := End(old_);
    if sequence + |samples| <= next then old_
    else if sequence <= next then Line(old_.start, old_.values + samples[next - sequence..])
    else Line(old_.start, old_.values + Zeros(sequence - next) + samples)
  }

  /** `Append` read as a function of the sequence number. */
  lemma AppendAt(line: Line, samples: seq<real>, sequence: int, s: int)
    requires line.start <= s < End(Append(Some(line), samples, sequence))
    ensures Append(Some(line), samples, sequence).start == line.start
    ensures End(Append(Some(line), samples, sequence)) == Max(End(line), sequence + |samples|)
    ensures At(Append(Some(line), samples, sequence), s) ==
      if s < End(line) then At(line, s)
      else if s < sequence then 0.0
      else samples[s - sequence]
  {
  }

  lemma AppendEnd(line: Line, samples: seq<real>, sequence: int)
    ensures Append(Some(line), samples, sequence).start == line.start
    ensures End(Append(Some(line), samples, sequence)) == Max(End(line), sequence + |samples|)
  {
  }

  lemma AppendFirst(line: Option<Line>, samples: seq<real>, sequence: int)
    ensures line == None ==>
      Append(line, samples, sequence) == Append(Some(Line(sequence, [])), samples, sequence)
  {
  }

  // ---------------------------------------------------------------- whole runs

  /** The samples of a time packet that the viewer reads. */
  function PacketSamples(packet: Packet): (r: seq<real>)
    requires packet.Time? && packet.sampleCount <= |packet.samples|
    ensures |r| == packet.sampleCount
    ensures forall i :: 0 <= i < |r| ==> r[i] == Sanitize(packet.samples[i])
  {
    SanitizeAll(packet.samples[..packet.sampleCount])
  }

  predicate Readable(packets: seq<Packet>) {
    forall k :: 0 <= k < |packets| ==> packets[k].Time? && packets[k].sampleCount <= |packets[k].samples|
  }

  /** The timeline after a stream of accepted packets. */
  function Replay(packets: seq<Packet>): Option<Line>
    requires Readable(packets)
  {
    if packets == [] then None
    else
      var last := packets[|packets| - 1];
      Some(Append(Replay(packets[..|packets| - 1]), PacketSamples(last), last.header.sequence))
  }

  predicate TrueSample(packet: Packet, offered: map<int, Float>, i: nat)
    requires packet.Time? && i < packet.sampleCount <= |packet.samples|
  {
    && packet.header.sequence + i in offered
    && packet.samples[i] == offered[packet.header.sequence + i]
  }

  /** Every sample of the packet is the one offered at its position. */
  predicate Faithful(packet: Packet, offered: map<int, Float>)
    requires packet.Time? && packet.sampleCount <= |packet.samples|
  {
    forall i :: 0 <= i < packet.sampleCount ==> TrueSample(packet, offered, i)
  }

  /** A displayed sample is the sanitized sample offered at its own position, or filler. */
  predicate TrueOrFiller(line: Line, offered: map<int, Float>) {
    forall s :: line.start <= s < End(line) ==>
      At(line, s) == 0.0 || (s in offered && At(line, s) == Sanitize(offered[s]))
  }

  lemma AppendKeepsTruth(line: Line, packet: Packet, offered: map<int, Float>)
    requires packet.Time? && packet.sampleCount <= |packet.samples| && Faithful(packet, offered)
    requires TrueOrFiller(line, offered)
    ensures TrueOrFiller(Append(Some(line), PacketSamples(packet), packet.header.sequence), offered)
  {
    var samples, sequence := PacketSamples(packet), packet.header.sequence;
    var after := Append(Some(line), samples, sequence);
    forall s | after.start <= s < End(after)
      ensures At(after, s) == 0.0 || (s in offered && At(after, s) == Sanitize(offered[s]))
    {
      AppendAt(line, samples, sequence, s);
      hide Append, At;
      assert Covers(packet, s) ==> TrueSample(packet, offered, s - sequence);
    }
  }

  /** However faithful packets are lost, repeated or reordered, the timeline never shows
      a sample at another time than its own. */
  lemma {:induction false} ReplayIsFaithful(packets: seq<Packet>, offered: map<int, Float>)
    requires Readable(packets) && packets != []
    requires forall k :: 0 <= k < |packets| ==> Faithful(packets[k], offered)
    ensures TrueOrFiller(Replay(packets).value, offered)
  {
    var init, last := packets[..|packets| - 1], packets[|packets| - 1];
    var sequence := last.header.sequence;
    if init != [] {
      ReplayIsFaithful(init, offered);
      AppendKeepsTruth(Replay(init).value, last, offered);
    } else {
      AppendFirst(None, PacketSamples(last), sequence);
      AppendKeepsTruth(Line(sequence, []), last, offered);
    }
  }

  predicate Covers(packet: Packet, s: int)
    requires packet.Time?
  {
    packet.header.sequence <= s < packet.header.sequence + packet.sampleCount
  }

  /** Packets that arrive in order, without overlap, possibly with some missing. */
  predicate InOrder(packets: seq<Packet>)
    requires Readable(packets)
  {
    forall i, j :: 0 <= i < j < |packets| ==>
      packets[i].header.sequence + packets[i].sampleCount <= packets[j].header.sequence
  }

  /** The sample at `s` of the last packet that covers it, and zero where none does. */
  function Sampled(packets: seq<Packet>, s: int): real
    requires Readable(packets)
  {
    if packets == [] then 0.0
    else
      var last := packets[|packets| - 1];
      if Covers(last, s) then Sanitize(last.samples[s - last.header.sequence])
      else Sampled(packets[..|packets| - 1], s)
  }

  /** Where the timeline of packets in order begins and ends. */
  lemma {:induction false} InOrderSpan(packets: seq<Packet>)
    requires Readable(packets) && InOrder(packets) && packets != []
    ensures var line, last := Replay(packets).value, packets[|packets| - 1];
      line.start == packets[0].header.sequence && End(line) == last.header.sequence + last.sampleCount
  {
    var init, last := packets[..|packets| - 1], packets[|packets| - 1];
    var samples, sequence := PacketSamples(last), last.header.sequence;
    if init == [] {
      AppendFirst(None, samples, sequence);
      AppendEnd(Line(sequence, []), samples, sequence);
    } else {
      InOrderSpan(init);
      AppendEnd(Replay(init).value, samples, sequence);
    }
    hide Append;
  }

  /** One more packet, behind everything there: it shows its own samples, and elsewhere what
      was shown before. */
  lemma ExactStep(line: Line, packet: Packet, s: int, shown: real)
    requires packet.Time? && packet.sampleCount <= |packet.samples|
    requires End(line) <= packet.header.sequence && line.start <= s
    requires if s < End(line) then At(line, s) == shown else shown == 0.0
    ensures var after := Append(Some(line), PacketSamples(packet), packet.header.sequence);
      line.start == after.start && (s < End(after) ==>
        At(after, s) ==
          if Covers(packet, s) then Sanitize(packet.samples[s - packet.header.sequence]) else shown)
  {
    var samples, sequence := PacketSamples(packet), packet.header.sequence;
    AppendEnd(line, samples, sequence);
    if s < End(Append(Some(line), samples, sequence)) {
      AppendAt(line, samples, sequence, s);
    }
    hide Append;
  }

  /** With loss but no reordering the timeline shows at each position what was sampled
      there. */
  lemma {:induction false} InOrderReplayIsExact(packets: seq<Packet>, s: int)
    requires Readable(packets) && InOrder(packets) && packets != []
    ensures var line := Replay(packets).value;
      line.start <= s < End(line) ==> At(line, s) == Sampled(packets, s)
  {
    hide Append, At, PacketSamples;
    InOrderSpan(packets);
    var init, last := packets[..|packets| - 1], packets[|packets| - 1];
    if packets[0].header.sequence <= s {
      if init == [] {
        AppendFirst(None, PacketSamples(last), last.header.sequence);
        ExactStep(Line(last.header.sequence, []), last, s, 0.0);
      } else {
        InOrderSpan(init);
        InOrderReplayIsExact(init, s);
        if End(Replay(init).value) <= s {
          NothingLater(init, s);
        }
        ExactStep(Replay(init).value, last, s, Sampled(init, s));
      }
    }
  }

  lemma {:induction false} NothingLater(packets: seq<Packet>, s: int)
    requires Readable(packets) && InOrder(packets)
    requires packets != [] ==>
      packets[|packets| - 1].header.sequence + packets[|packets| - 1].sampleCount <= s
    ensures Sampled(packets, s) == 0.0
  {
    if packets != [] {
      NothingLater(packets[..|packets| - 1], s);
    }
  }

  // ---------------------------------------------------------------- buffer geometry

  /** `scope_latency_samples` */
  function LatencySamples(sampleRate: real): (n: nat)
    ensures sampleRate > 0.0 ==>
      (n - 1) as real * 1000.0 < sampleRate * SCOPE_RENDER_LATENCY_MS <= n as real * 1000.0
  {
    var samples := Ceil(sampleRate * SCOPE_RENDER_LATENCY_MS / 1000.0);
    if samples > 0 then samples else 0
  }

  datatype Geometry = Geometry(window: nat, capacity: nat)

  /** The buffer sizes for a window, or nothing when the viewer cannot honour them. */
  function ScopeGeometry(winSize: real, sampleRate: real): (g: Option<Geometry>)
    ensures g.Some? <==>
      && 0.0 < winSize * sampleRate <= INT_MAX as real
      && Ceil(winSize * sampleRate) + LatencySamples(sampleRate) + MAX_STREAM_SAMPLES <= INT_MAX
    ensures g.Some? ==>
      (g.value.window - 1) as real < winSize * sampleRate <= g.value.window as real
    ensures g.Some? ==>
      && 1 <= g.value.window
      && g.value.capacity == g.value.window + LatencySamples(sampleRate) + MAX_STREAM_SAMPLES <= INT_MAX
  {
    var requested := winSize * sampleRate;
    if requested <= 0.0 || requested > INT_MAX as real then None
    else
      var window := Ceil(requested);
      var capacity := window + LatencySamples(sampleRate) + MAX_STREAM_SAMPLES;
      if capacity > INT_MAX then None else Some(Geometry(window, capacity))
  }

  // ---------------------------------------------------------------- the ring

  class ScopeStream {
    var buffer: array?<real>
    var writeIndex: nat
    var capacity: nat
    var windowSamples: nat
    var validSamples: nat
    var sampleRate: real
    var totalSamples: nat
    var nextSequence: int
    var hasSequence: bool
    var unsupported: bool
    ghost var start: int
    ghost var history: seq<real>

    /** The ring holds the newest `validSamples` entries of the history, in order. */
    ghost predicate RingInv()
      reads this`buffer, this`writeIndex, this`capacity, this`validSamples, this`totalSamples,
        this`history, buffer
    {
      && buffer != null && buffer.Length == capacity > 0
      && totalSamples == |history|
      && writeIndex == totalSamples % capacity
      && HistoryRing.Holds(buffer[..], writeIndex, validSamples, history)
    }

    ghost predicate Cleared()
      reads this
    {
      && buffer == null && writeIndex == capacity == windowSamples == validSamples == 0
      && totalSamples == nextSequence == 0 && !hasSequence && history == []
    }

    ghost predicate Valid()
      reads this, buffer
    {
      && (buffer == null ==> Cleared())
      && (buffer != null ==>
            && RingInv() && !unsupported
            && 1 <= windowSamples
            && capacity == windowSamples + LatencySamples(sampleRate) + MAX_STREAM_SAMPLES <= INT_MAX
            && (hasSequence ==> nextSequence == start + |history|)
            && (!hasSequence ==> history == []))
    }

    ghost function Timeline(): Option<Line>
      reads this
    {
      if hasSequence then Some(Line(start, history)) else None
    }

    constructor ()
      ensures Valid() && Cleared() && !unsupported && sampleRate == 0.0
    {
      buffer, writeIndex, capacity, windowSamples, validSamples := null, 0, 0, 0, 0;
      sampleRate, totalSamples, nextSequence, hasSequence, unsupported := 0.0, 0, 0, false, false;
      start, history := 0, [];
    }

    method Clear()
      modifies this
      ensures Valid() && Cleared() && !unsupported && sampleRate == 0.0
    {
      buffer, writeIndex, capacity, windowSamples, validSamples := null, 0, 0, 0, 0;
      sampleRate, totalSamples, nextSequence, hasSequence, unsupported := 0.0, 0, 0, false, false;
      start, history := 0, [];
    }

    method Reject(rate: real)
      modifies this
      ensures Valid() && Cleared() && unsupported && sampleRate == rate
    {
      Clear();
      sampleRate, unsupported := rate, true;
    }

    // -------------------------------------------------------------- appending

    method AppendScopeValue(sample: Float)
      requires RingInv()
      modifies this`writeIndex, this`validSamples, this`totalSamples, this`history, buffer
      ensures RingInv() && history == old(history) + [Sanitize(sample)]
    {
      Modulo.Advance(totalSamples, 1, capacity);
      Modulo.Small(writeIndex + 1, capacity);
      HistoryRing.Push(buffer[..], writeIndex, validSamples, history, Sanitize(sample));
      hide HistoryRing.Holds;
      ghost var before := buffer[..];
      buffer[writeIndex] := Sanitize(sample);
      assert buffer[..] == before[writeIndex := Sanitize(sample)];
      writeIndex := (writeIndex + 1) % capacity;
      totalSamples := totalSamples + 1;
      if validSamples < capacity {
        validSamples := validSamples + 1;
      }
      history := history + [Sanitize(sample)];
    }

    /** The bulk branch for large gaps leaves exactly what appending the zeros one at a
        time would: same samples, same counters, same index. */
    method AppendScopeGap(gap: nat)
      requires RingInv()
      modifies this`writeIndex, this`validSamples, this`totalSamples, this`history, buffer
      ensures RingInv() && history == old(history) + Zeros(gap)
    {
      if gap >= capacity {
        for i := 0 to buffer.Length
          invariant forall j :: 0 <= j < i ==> buffer[j] == 0.0
          invariant unchanged(this)
        {
          buffer[i] := 0.0;
        }
        totalSamples := totalSamples + gap;
        writeIndex := totalSamples % capacity;
        validSamples := capacity;
        history := history + Zeros(gap);
        return;
      }
      for i := 0 to gap
        invariant RingInv() && history == old(history) + Zeros(i)
      {
        AppendScopeValue(Finite(0.0));
      }
    }

    method AppendRest(samples: seq<Float>, from: nat)
      requires RingInv() && from <= |samples|
      modifies this`writeIndex, this`validSamples, this`totalSamples, this`history, buffer
      ensures RingInv() && history == old(history) + SanitizeAll(samples)[from..]
    {
      ghost var clean := SanitizeAll(samples);
      for i := from to |samples|
        invariant RingInv() && history == old(history) + clean[from..i]
      {
        AppendScopeValue(samples[i]);
        assert clean[from..i + 1] == clean[from..i] + [clean[i]];
      }
    }

    method AppendScopeSamples(samples: seq<Float>, sequence: int)
      requires Valid() && buffer != null
      modifies this`writeIndex, this`validSamples, this`totalSamples, this`nextSequence,
        this`hasSequence, this`start, this`history, buffer
      ensures Valid() && hasSequence
      ensures Timeline() == Some(Append(old(Timeline()), SanitizeAll(samples), sequence))
    {
      hide RingInv;
      if !hasSequence {
        nextSequence := sequence;
        hasSequence := true;
        start := sequence;
      }
      var from := 0;
      var first := sequence;
      if sequence < nextSequence {
        var overlap := nextSequence - sequence;
        if overlap >= |samples| {
          return;
        }
        from := overlap;
        first := nextSequence;
      } else if sequence > nextSequence {
        AppendScopeGap(sequence - nextSequence);
      }
      ghost var clean := SanitizeAll(samples);
      assert from == 0 ==> clean[from..] == clean;
      assert clean == [] ==> history + clean == history;
      AppendRest(samples, from);
      nextSequence := first + (|samples| - from);
    }

    // -------------------------------------------------------------- reading back

    /** `scope_buffer_index` */
    function ScopeBufferIndex(sequence: int): nat
      requires capacity > 0 && sequence <= nextSequence
      reads this`capacity, this`nextSequence, this`writeIndex
    {
      var distance := (nextSequence - sequence) % capacity;
      (writeIndex + capacity - distance) % capacity
    }

    /** The index arithmetic of `scope_buffer_index` and `scope_display_sample` finds, for
        any sequence number whose sample is still in the ring, exactly the timeline's
        sample, and never overflows 32 bits. */
    lemma ReadBack(first: int, i: nat)
      requires Valid() && hasSequence
      requires nextSequence - validSamples <= first && first + i < nextSequence
      ensures capacity > 0 && buffer != null
      ensures var index := ScopeBufferIndex(first) + i;
        && index < 0x1_0000_0000
        && index % capacity < buffer.Length
        && buffer[index % capacity] == At(Timeline().value, first + i)
    {
      var distance := nextSequence - first;
      Modulo.Small(distance, capacity);
      Modulo.Small(writeIndex + capacity - distance % capacity, capacity);
      var index := ScopeBufferIndex(first) + i;
      Modulo.Small(index, capacity);
      var k := validSamples - distance + i;
      assert HistoryRing.Slot(capacity, writeIndex, validSamples, k) == index % capacity;
      assert buffer[..][index % capacity] == history[|history| - validSamples + k];
      assert history[|history| - validSamples + k] == At(Timeline().value, first + i);
    }

    // -------------------------------------------------------------- set-up and packets

    /** The stream already has the buffer this window and rate call for. */
    ghost predicate Fits(winSize: real, rate: real)
      reads this
    {
      && buffer != null && sampleRate == rate
      && ScopeGeometry(winSize, rate).Some?
      && windowSamples == ScopeGeometry(winSize, rate).value.window
    }

    /** `ensure_scope_buffer`: keeps a buffer of the right geometry, replaces any other, and
        remembers a geometry it cannot honour instead of retrying it. `hasMemory` says
        whether the two allocations succeed. */
    method EnsureScopeBuffer(winSize: real, rate: real, hasMemory: bool) returns (ok: bool)
      requires Valid()
      modifies this
      ensures Valid()
      ensures ok <==>
        && ScopeGeometry(winSize, rate).Some?
        && !old(unsupported && sampleRate == rate)
        && (hasMemory || old(Fits(winSize, rate)))
      ensures ok ==> Fits(winSize, rate)
      ensures !ok ==> Cleared() && unsupported && sampleRate == rate
      ensures old(Fits(winSize, rate)) ==> unchanged(this)
      ensures ok && !old(Fits(winSize, rate)) ==> fresh(buffer) && Timeline() == None
    {
      if unsupported && sampleRate == rate {
        return false;
      }
      var g := ScopeGeometry(winSize, rate);
      if g == None {
        Reject(rate);
        return false;
      }
      if buffer != null && sampleRate == rate && windowSamples == g.value.window {
        return true;
      }
      if !hasMemory {
        Reject(rate);
        return false;
      }
      Clear();
      buffer := new real[g.value.capacity](_ => 0.0);
      capacity, windowSamples, sampleRate := g.value.capacity, g.value.window, rate;
      Modulo.Small(0, capacity);
      return true;
    }

    /** `process_data_packet`, once the graph is known to be a time graph. */
    method ProcessData(packet: Packet, received: int, winSize: real, hasMemory: bool)
      returns (accepted: bool)
      requires Valid()
      requires packet.Time? ==> |packet.samples| == MAX_STREAM_SAMPLES
      modifies this, buffer
      ensures Valid()
      ensures accepted <==>
        && ValidateData(packet, received)
        && ScopeGeometry(winSize, packet.sampleRate.value).Some?
        && !old(unsupported && sampleRate == packet.sampleRate.value)
        && (hasMemory || old(Fits(winSize, packet.sampleRate.value)))
      ensures !ValidateData(packet, received) ==> unchanged(this) && (buffer != null ==> unchanged(buffer))
      ensures !accepted && ValidateData(packet, received) ==> Timeline() == None && unsupported
      ensures accepted ==> Timeline() == Some(Append(
        if old(Fits(winSize, packet.sampleRate.value)) then old(Timeline()) else None,
        PacketSamples(packet), packet.header.sequence))
      ensures accepted ==> Fits(winSize, packet.sampleRate.value) && hasSequence
      ensures accepted ==> fresh(buffer) || buffer == old(buffer)
    {
      if !ValidateData(packet, received) {
        return false;
      }
      accepted := EnsureScopeBuffer(winSize, packet.sampleRate.value, hasMemory);
      if accepted {
        AppendScopeSamples(packet.samples[..packet.sampleCount], packet.header.sequence);
      }
    }
  }
}
