/** The peak meter: one packet of per-channel peaks for each viewer frame. */
module Meters {
  import opened Samples
  import opened Wire
  import opened Items
  import opened StreamRing
  import opened StreamOps

  /** `-FLT_MAX`, the peak of no input at all. */
  const BOTTOM: real := -340282346638528859811704183484516925440.0

  /** The levels of one control cycle. */
  type Cycle = seq<Float>

  /** Control cycles gathered before a packet is due: the fewest, but at least one, that
      last as long as a viewer frame. */
  function FramesPerPacket(controlRate: real): (n: nat)
    ensures n >= 1 && n as real * WATCH_VIEWER_REFRESH_HZ >= controlRate
    ensures n > 1 ==> (n - 1) as real * WATCH_VIEWER_REFRESH_HZ < controlRate
  {
    var frames := Ceil(controlRate / WATCH_VIEWER_REFRESH_HZ);
    if frames >= 1 then frames else 1
  }

  predicate Wide(cycles: seq<Cycle>, channels: nat) {
    forall j :: 0 <= j < |cycles| ==> channels <= |cycles[j]|
  }

  /** `x` is the largest finite level of channel `c` in `cycles`, or `BOTTOM` if there is
      none above it. */
  ghost predicate IsPeak(x: real, cycles: seq<Cycle>, c: nat)
    requires Wide(cycles, c + 1)
  {
    && x >= BOTTOM
    && (forall j :: 0 <= j < |cycles| && cycles[j][c].Finite? ==> cycles[j][c].value <= x)
    && (x == BOTTOM || exists j :: 0 <= j < |cycles| && cycles[j][c] == Finite(x))
  }

  ghost predicate ArePeaks(levels: seq<Float>, cycles: seq<Cycle>, channels: nat)
    requires Wide(cycles, channels)
  {
    && |levels| == channels
    && forall c :: 0 <= c < channels ==> levels[c].Finite? && IsPeak(levels[c].value, cycles, c)
  }

  /** The largest of a held peak and of channel `c` of some packets. */
  function LargestLevel(packets: seq<Packet>, held: real, c: nat): real
    requires forall k :: 0 <= k < |packets| ==>
      packets[k].Meter? && c < |packets[k].levels| && packets[k].levels[c].Finite?
  {
    if packets == [] then held
    else RealMax(LargestLevel(packets[1..], held, c), packets[0].levels[c].value)
  }

  /** Every packet carries the peaks of its own part. */
  ghost predicate PeaksOf(packets: seq<Packet>, parts: seq<seq<Cycle>>, channels: nat) {
    && |packets| == |parts|
    && forall k :: 0 <= k < |parts| ==>
         && parts[k] != [] && Wide(parts[k], channels)
         && packets[k].Meter? && ArePeaks(packets[k].levels, parts[k], channels)
  }

  lemma PeakOfBoth(x: real, a: seq<Cycle>, y: real, b: seq<Cycle>, c: nat)
    requires Wide(a, c + 1) && Wide(b, c + 1) && IsPeak(x, a, c) && IsPeak(y, b, c)
    ensures Wide(a + b, c + 1) && IsPeak(RealMax(x, y), a + b, c)
  {
    var z := RealMax(x, y);
    assert forall j :: 0 <= j < |b| ==> (a + b)[|a| + j] == b[j];
    assert forall j :: 0 <= j < |a| ==> (a + b)[j] == a[j];
  }

  lemma WideAppend(a: seq<Cycle>, b: seq<Cycle>, channels: nat)
    requires Wide(a, channels) && Wide(b, channels)
    ensures Wide(a + b, channels)
  {
  }

  /** Packets that carry the peaks of consecutive parts, with a held peak for what follows,
      lose no peak of the whole. */
  lemma {:induction false} NoPeakIsLost(packets: seq<Packet>, parts: seq<seq<Cycle>>, channels: nat,
                                        rest: seq<Cycle>, held: real, c: nat)
    requires PeaksOf(packets, parts, channels) && c < channels
    requires Wide(rest, channels) && IsPeak(held, rest, c)
    ensures Wide(Concat(parts) + rest, channels)
    ensures IsPeak(LargestLevel(packets, held, c), Concat(parts) + rest, c)
  {
    if parts == [] {
      assert Concat(parts) + rest == rest;
    } else {
      NoPeakIsLost(packets[1..], parts[1..], channels, rest, held, c);
      assert Wide(parts[0], channels) && ArePeaks(packets[0].levels, parts[0], channels);
      hide IsPeak;
      PeakOfBoth(packets[0].levels[c].value, parts[0], LargestLevel(packets[1..], held, c),
                 Concat(parts[1..]) + rest, c);
      ConcatHead(parts);
      assert Concat(parts) + rest == parts[0] + (Concat(parts[1..]) + rest);
      WideAppend(parts[0], Concat(parts[1..]) + rest, channels);
    }
  }

  lemma {:induction false} ConcatHead(parts: seq<seq<Cycle>>)
    requires parts != []
    ensures Concat(parts) == parts[0] + Concat(parts[1..])
  {
    if |parts| > 1 {
      var init := parts[..|parts| - 1];
      ConcatHead(init);
      assert init[1..] == parts[1..][..|parts[1..]| - 1];
    }
  }

  lemma PeaksSnoc(packets: seq<Packet>, parts: seq<seq<Cycle>>, channels: nat, packet: Packet,
                  part: seq<Cycle>)
    requires PeaksOf(packets, parts, channels) && part != [] && Wide(part, channels)
    requires packet.Meter? && ArePeaks(packet.levels, part, channels)
    ensures PeaksOf(packets + [packet], parts + [part], channels)
  {
    hide ArePeaks;
  }

  class WatchMeter {
    const stream: WatchStream
    const channels: nat
    const framesPerPacket: nat
    const peak: array<real>
    var frames: nat
    ghost var cycles: seq<Cycle>
    ghost var parts: seq<seq<Cycle>>

    /** The cycles processed since the last packet was queued. */
    ghost function Held(): seq<Cycle>
      reads this`cycles, this`parts
    {
      if |Concat(parts)| <= |cycles| then cycles[|Concat(parts)|..] else []
    }

    ghost predicate PeakInv()
      reads this`cycles, this`parts, peak
    {
      && peak.Length == channels
      && Wide(Held(), channels)
      && forall c :: 0 <= c < channels ==> IsPeak(peak[c], Held(), c)
    }

    ghost predicate Valid()
      reads this, peak, stream, stream.slots
    {
      && stream.Ready() && stream.pending == 0
      && 1 <= channels <= MAX_METER_CHANNELS && frames < framesPerPacket
      && Concat(parts) <= cycles
      && PeaksOf(stream.published, parts, channels)
      && PeakInv()
      && |cycles| == Stride(|stream.published| + stream.dropped, framesPerPacket) + frames
    }

    constructor (stream: WatchStream, channels: nat, controlRate: real)
      requires stream.Ready() && stream.published == [] && stream.log == [] && stream.pending == 0
      requires stream.dropped == 0 && 1 <= channels <= MAX_METER_CHANNELS
      ensures Valid() && this.stream == stream && this.channels == channels && cycles == []
      ensures fresh(peak) && framesPerPacket == FramesPerPacket(controlRate)
    {
      this.stream, this.channels := stream, channels;
      framesPerPacket := FramesPerPacket(controlRate);
      peak := new real[channels](_ => BOTTOM);
      frames, cycles, parts := 0, [], [];
    }

    /** Raises each peak to the level of this cycle. */
    method RaisePeaks(levels: Cycle)
      requires PeakInv() && Concat(parts) <= cycles && channels <= |levels|
      modifies peak, this`cycles
      ensures PeakInv() && Concat(parts) <= cycles && cycles == old(cycles) + [levels]
    {
      ghost var before := Held();
      for i := 0 to channels
        invariant forall c :: 0 <= c < i ==> IsPeak(peak[c], before + [levels], c)
        invariant forall c :: i <= c < channels ==> peak[c] == old(peak[c])
        invariant unchanged(this)
      {
        OneMore(peak[i], before, levels, i);
        if levels[i].Finite? && levels[i].value > peak[i] {
          peak[i] := levels[i].value;
        }
      }
      cycles := cycles + [levels];
      assert Held() == before + [levels];
    }

    /** The peaks go out, or stay for the next packet if the ring is full. */
    method PublishPeaks(kcounter: nat) returns (ok: bool)
      requires stream.Ready() && stream.pending == 0 && 1 <= channels <= MAX_METER_CHANNELS
      requires Concat(parts) < cycles && PeaksOf(stream.published, parts, channels) && PeakInv()
      modifies this`parts, peak, stream, stream.slots
      ensures stream.Ready() && stream.pending == 0
      ensures Concat(parts) <= cycles && PeaksOf(stream.published, parts, channels) && PeakInv()
      ensures |stream.published| + stream.dropped == old(|stream.published| + stream.dropped) + 1
      ensures old(stream.published) <= stream.published
      ensures if ok then Held() == [] && stream.dropped == old(stream.dropped)
              else parts == old(parts) && peak[..] == old(peak[..]) && stream.published == old(stream.published)
      ensures ok ==>
        |stream.published| == |old(stream.published)| + 1
        && stream.published[|old(stream.published)|].header.sequence == kcounter
      ensures !ok ==> |stream.published| >= old(stream.freed) + stream.params.capacity - 1
    {
      hide WatchStream.Ready, IsPeak, ArePeaks, Sealed, PacketItems, PeaksOf;
      ghost var part := Held();
      var levels := seq(channels, i requires 0 <= i < channels reads peak => Finite(peak[i]));
      var packet := Meter(Header(WATCH_MAGIC, PROT_VERSION, MeterData, kcounter,
                                 METER_PREFIX + channels * FLOAT_SIZE),
                          stream.params.graphId, stream.params.streamId, levels);
      PacketIsSealed(packet);
      ArePeaksNow(levels);
      ok := stream.PutPacket(packet, 1, [Item(kcounter, levels)]);
      if ok {
        ConcatSnoc(parts, part);
        PeaksSnoc(old(stream.published), parts, channels, packet, part);
        parts := parts + [part];
        ClearPeaks();
      }
    }

    lemma ArePeaksNow(levels: seq<Float>)
      requires PeakInv() && |levels| == channels
      requires forall c :: 0 <= c < channels ==> levels[c] == Finite(peak[c])
      ensures Wide(Held(), channels) && ArePeaks(levels, Held(), channels)
    {
    }

    lemma PacketIsSealed(packet: Packet)
      requires packet.Meter? && 1 <= channels <= MAX_METER_CHANNELS && |packet.levels| == channels
      requires packet.header.magic == WATCH_MAGIC && packet.header.version == PROT_VERSION
      requires packet.header.kind == MeterData
      requires packet.header.payloadSize == METER_PREFIX + channels * FLOAT_SIZE
      requires packet.graphId == stream.params.graphId && packet.streamId == stream.params.streamId
      ensures Sealed(stream.params, packet)
    {
    }

    method ClearPeaks()
      requires peak.Length == channels && Held() == []
      modifies peak
      ensures PeakInv()
    {
      for i := 0 to channels
        invariant forall c :: 0 <= c < i ==> peak[c] == BOTTOM
        invariant unchanged(this)
      {
        peak[i] := BOTTOM;
      }
    }

    /** `watch_meter`: one control cycle. A cycle whose array has become too short, or has
        gone, is skipped; any other is processed, whether or not the ring has room. */
    method WatchCycle(data: Option<Cycle>, kcounter: nat)
      requires Valid()
      modifies this, peak, stream, stream.slots
      ensures Valid()
      ensures var skipped := data == None || |data.value| < channels;
        cycles == if skipped then old(cycles) else old(cycles) + [data.value]
      ensures old(stream.published) <= stream.published
      ensures stream.published == old(stream.published)
        || (|stream.published| == |old(stream.published)| + 1
            && stream.published[|old(stream.published)|].header.sequence == kcounter)
      ensures stream.dropped > old(stream.dropped) ==>
        |stream.published| >= old(stream.freed) + stream.params.capacity - 1
    {
      hide WatchStream.Ready, PeaksOf, PeakInv;
      if data == None || |data.value| < channels {
        return;
      }
      RaisePeaks(data.value);
      frames := frames + 1;
      if frames < framesPerPacket {
        return;
      }
      frames := 0;
      var _ := PublishPeaks(kcounter);
    }

    /** Whatever the ring did, the largest level published or held on a channel is the
        largest finite level that channel ever had. */
    lemma PeaksAreNotLost(c: nat)
      requires Valid() && c < channels
      ensures Wide(cycles, channels)
      ensures forall k :: 0 <= k < |stream.published| ==>
        && stream.published[k].Meter? && c < |stream.published[k].levels|
        && stream.published[k].levels[c].Finite?
      ensures IsPeak(LargestLevel(stream.published, peak[c], c), cycles, c)
    {
      assert Concat(parts) + Held() == cycles;
      hide Held, Wide, IsPeak, PeaksOf, Concat, WatchStream.Ready, Stride;
      NoPeakIsLost(stream.published, parts, channels, Held(), peak[c], c);
    }
  }

  lemma OneMore(x: real, before: seq<Cycle>, levels: Cycle, c: nat)
    requires Wide(before, c + 1) && c < |levels| && IsPeak(x, before, c)
    ensures Wide(before + [levels], c + 1)
    ensures IsPeak(if levels[c].Finite? && levels[c].value > x then levels[c].value else x,
                   before + [levels], c)
  {
    var all := before + [levels];
    assert all[|before|] == levels;
    assert forall j :: 0 <= j < |before| ==> all[j] == before[j];
  }
}
