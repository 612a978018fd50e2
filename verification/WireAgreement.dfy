/** What the plugin can put on the wire, against what the viewer's validators accept. */
module WireAgreement {
  import opened Samples
  import opened Wire
  import opened Items
  import opened Frames
  import opened StreamRing
  import Meters
  import StreamRuns

  predicate Identified(p: Params) {
    p.graphId != 0 && p.streamId < MAX_STREAMS
  }

  predicate PositiveRate(rate: Float) {
    rate.Finite? && rate.value > 0.0
  }

  lemma StrideOfSamples(count: nat)
    ensures Stride(count, 1) == count && Stride(count, 2) == 2 * count
  {
    StrideIsProduct(count, 1);
    StrideIsProduct(count, 2);
  }

  /** A published audio or control packet is accepted exactly when its position is not
      negative, its stream is identified and its rate is a positive number. */
  lemma DataIsAccepted(p: Params, packet: Packet)
    requires WellFormed(p) && p.kind == Data && p.floatsPerSample == 1
    requires packet.Time? && Sealed(p, packet)
    ensures ValidateData(packet, DatagramSize(packet)) <==>
      packet.header.sequence >= 0 && Identified(p) && PositiveRate(p.sampleRate)
  {
    StrideOfSamples(packet.sampleCount);
    StrideOfSamples(p.threshold);
  }

  lemma PointIsAccepted(p: Params, packet: Packet)
    requires WellFormed(p) && p.kind == PointData && p.floatsPerSample == 2
    requires packet.Time? && Sealed(p, packet)
    ensures ValidatePoint(packet, DatagramSize(packet)) <==>
      packet.header.sequence >= 0 && Identified(p) && PositiveRate(p.sampleRate)
  {
    StrideOfSamples(packet.sampleCount);
    StrideOfSamples(p.threshold);
  }

  lemma MeterIsAccepted(p: Params, packet: Packet)
    requires packet.Meter? && Sealed(p, packet)
    ensures ValidateMeter(packet, DatagramSize(packet)) <==>
      packet.header.sequence >= 0 && Identified(p)
  {
  }

  /** A spectral packet is accepted exactly when, besides, the hop is no longer than the
      analysis window, the truncated rate is not zero, and the frame is not too wide. What
      `watch_add_f_init` checks is only that the window is even and both are positive. */
  lemma SpectralIsAccepted(graphId: nat, streamId: nat, frame: Frame, k: nat)
    requires WholeFrame(frame) && k < ChunkCount(|frame.powers|)
    requires frame.fftSize > 0 && frame.fftSize % 2 == 0 && frame.hopSize > 0
    ensures var packet := FramePacket(graphId, streamId, frame, k);
      && packet.header.payloadSize <= MaxPayload(SpectralData)
      && packet.graphId == graphId && packet.streamId == streamId && packet.header.sequence == frame.sequence
      && (ValidateSpectral(packet, DatagramSize(packet)) <==>
            && frame.sequence >= 0 && graphId != 0 && streamId < MAX_STREAMS
            && frame.hopSize <= frame.fftSize
            && frame.rate != 0
            && |frame.powers| <= MAX_SPECTRAL_TOTAL_BINS)
  {
  }

  /** An analysis of two points that advances four at a time is sent and refused. */
  lemma LongHopIsRefused()
    ensures var frame := Frame(0, 1, 2, 4, 44100, [Finite(0.0), Finite(0.0)]);
      && WholeFrame(frame) && ChunkCount(|frame.powers|) == 1
      && !ValidateSpectral(FramePacket(1, 0, frame, 0), DatagramSize(FramePacket(1, 0, frame, 0)))
  {
  }

  /** The floats the viewer reads from a packet. */
  function FloatsRead(packet: Packet): nat {
    match packet
    case Time(h, _, _, _, count, _) => if h.kind == PointData then 2 * count else count
    case Spectral(_, _, _, _, _, _, _, _, _, bins) => |bins|
    case Meter(_, _, _, levels) => |levels|
    case Ftable(_, _, _, _, _, _, chunk) => |chunk|
  }

  predicate AcceptedAs(packet: Packet, received: int, kind: Kind) {
    match kind
    case Data => ValidateData(packet, received)
    case PointData => ValidatePoint(packet, received)
    case MeterData => ValidateMeter(packet, received)
    case SpectralData => ValidateSpectral(packet, received)
    case FtableData => ValidateFtable(packet, received)
    case NoKind => false
  }

  predicate Accepted(packet: Packet) {
    AcceptedAs(packet, DatagramSize(packet), packet.header.kind)
  }

  /** Whatever arrives: what a validator accepts is of this protocol and of its kind only,
      and the datagram ends exactly behind the last float that is read, of which there are
      some, and no more than the packet has room for. */
  lemma AcceptedIsWhole(packet: Packet, received: int, kind: Kind)
    requires AcceptedAs(packet, received, kind)
    ensures packet.header.magic == WATCH_MAGIC && packet.header.version == PROT_VERSION
    ensures packet.header.kind == kind
    ensures forall other :: AcceptedAs(packet, received, other) <==> other == kind
    ensures packet.header.sequence >= 0 && packet.graphId != 0 && packet.streamId < MAX_STREAMS
    ensures 0 < FloatsRead(packet) * FLOAT_SIZE
    ensures received == DatagramSize(packet) <= HEADER_SIZE + MaxPayload(kind)
    ensures received == FloatsRead(packet) * FLOAT_SIZE + HEADER_SIZE +
      match kind
      case SpectralData => SPECTRAL_PREFIX
      case MeterData => METER_PREFIX
      case FtableData => FTABLE_PREFIX
      case _ => DATA_PREFIX
  {
  }

  /** The parameters of an audio, control or point stream. */
  predicate TimeStream(p: Params) {
    && WellFormed(p)
    && (if p.kind == Data then p.floatsPerSample == 1 else p.floatsPerSample == 2)
  }

  /** In every reachable state of an audio, control or point stream whose samples were
      offered at positions that are not negative, every time packet ever sent is accepted. */
  lemma EverySentPacketIsAccepted(p: Params, states: seq<Ring>, actions: seq<Action>, k: nat, w: nat)
    requires TimeStream(p) && Identified(p) && PositiveRate(p.sampleRate)
    requires StreamRuns.IsRun(p, states, actions) && k < |states|
    requires w < |states[k].wire| && states[k].wire[w].Time?
    requires forall j :: 0 <= j < |states[k].log| ==> states[k].log[j].item.position >= 0
    ensures Accepted(states[k].wire[w])
  {
    var packet := states[k].wire[w];
    StreamRuns.SentInOrder(p, states, actions, k);
    assert Sealed(p, packet);
    StreamRuns.WireIsFaithful(p, states, actions, k, w, 0);
    if p.kind == Data {
      DataIsAccepted(p, packet);
    } else {
      PointIsAccepted(p, packet);
    }
  }

  // ---------------------------------------------------------------- axis ranges

  datatype Scale = LinearGain | Power | Decibel

  datatype AxisRange = AxisRange(minAuto: bool, maxAuto: bool, min: Float, max: Float)

  predicate Within(x: Float, lower: real, upper: real) {
    x.Finite? && lower <= x.value <= upper
  }

  /** `numeric_range`: a missing bound is automatic. */
  function NumericRange(min: Option<Float>, max: Option<Float>, lower: real, upper: real)
    : Option<AxisRange>
  {
    if min.Some? && !Within(min.value, lower, upper) then None
    else if max.Some? && !Within(max.value, lower, upper) then None
    else if min.Some? && max.Some? && min.value.value >= max.value.value then None
    else Some(AxisRange(min == None, max == None,
                        if min.Some? then min.value else Finite(0.0),
                        if max.Some? then max.value else Finite(0.0)))
  }

  /** A range is let through exactly when its bounds lie in the permitted interval and in
      order, and then it has just the bounds that were given. */
  lemma NumericRangeExactly(min: Option<Float>, max: Option<Float>, lower: real, upper: real)
    ensures var r := NumericRange(min, max, lower, upper);
      && (r.Some? <==>
            && (min.Some? ==> min.value.Finite? && lower <= min.value.value <= upper)
            && (max.Some? ==> max.value.Finite? && lower <= max.value.value <= upper)
            && (min.Some? && max.Some? ==> min.value.value < max.value.value))
      && (r.Some? ==>
            && (if min.Some? then !r.value.minAuto && r.value.min == min.value else r.value.minAuto)
            && (if max.Some? then !r.value.maxAuto && r.value.max == max.value else r.value.maxAuto))
  {
  }

  /** `valid_range` */
  predicate ValidRange(r: AxisRange, nonnegative: bool) {
    && (!r.minAuto ==> r.min.Finite? && (nonnegative ==> r.min.value >= 0.0))
    && (!r.maxAuto ==> r.max.Finite? && (nonnegative ==> r.max.value >= 0.0))
    && (r.minAuto || r.maxAuto || (r.min.Finite? && r.max.Finite? && r.min.value < r.max.value))
  }

  predicate Negative(x: Option<Float>) {
    x.Some? && x.value.Finite? && x.value.value < 0.0
  }

  /** Every range the plugin lets through is accepted where the viewer does not ask for more
      than the plugin's lower bound ensures; where it does, exactly the ranges with a
      negative bound are refused. */
  lemma RangeAgreement(min: Option<Float>, max: Option<Float>, lower: real, upper: real, nonnegative: bool)
    requires NumericRange(min, max, lower, upper).Some?
    ensures ValidRange(NumericRange(min, max, lower, upper).value, nonnegative)
      <==> !nonnegative || (!Negative(min) && !Negative(max))
    ensures lower >= 0.0 ==> ValidRange(NumericRange(min, max, lower, upper).value, nonnegative)
  {
  }

  /** `watch_meter_init` bounds a meter's range by the largest float on both sides whatever
      the scale; the viewer wants a linear scale not to be negative. */
  function MeterRange(min: Option<Float>, max: Option<Float>): Option<AxisRange> {
    NumericRange(min, max, Meters.BOTTOM, -Meters.BOTTOM)
  }

  predicate MeterRangeAccepted(r: AxisRange, scale: Scale) {
    ValidRange(r, scale != Decibel)
  }

  /** The configuration of a linear meter with a negative bound is sent, and never
      accepted. */
  lemma NegativeGainMeterIsRefused()
    ensures MeterRange(Some(Finite(-1.0)), None).Some?
    ensures !MeterRangeAccepted(MeterRange(Some(Finite(-1.0)), None).value, LinearGain)
  {
  }

  /** The plugin's meter ranges are all accepted on a decibel scale, and on a linear scale
      exactly those without a negative bound. */
  lemma MeterRangeAgreement(min: Option<Float>, max: Option<Float>, scale: Scale)
    requires MeterRange(min, max).Some? && scale != Power
    ensures MeterRangeAccepted(MeterRange(min, max).value, scale)
      <==> scale == Decibel || (!Negative(min) && !Negative(max))
  {
    RangeAgreement(min, max, Meters.BOTTOM, -Meters.BOTTOM, scale != Decibel);
  }
}
