/** What a viewer knows of one spectral stream, and what any delivery of frames does to it. */
module SpectralFrames {
  import opened Samples
  import opened Wire
  import opened Frames

  datatype Meta = Meta(fftSize: nat, hopSize: nat, rate: nat, totalBins: nat)

  /** The frame being assembled, with the bins that have arrived. */
  datatype Current = Current(sequence: int, frameId: nat, bins: map<nat, real>)

  /** A completed frame, as displayed. */
  datatype Shown = Shown(sequence: int, values: seq<real>)

  /** `shown` lists the frames completed since the stream was last set up, oldest first. */
  datatype Spectrum = Spectrum(meta: Option<Meta>, frame: Option<Current>, shown: seq<Shown>)

  const Empty: Spectrum := Spectrum(None, None, [])

  /** The stored value of a received power. */
  function Power(x: Float): real {
    if x.Finite? && x.value >= 0.0 then x.value else 0.0
  }

  function Powers(xs: seq<Float>): (r: seq<real>)
    ensures |r| == |xs|
  {
    seq(|xs|, i requires 0 <= i < |xs| => Power(xs[i]))
  }

  function MetaOf(packet: Packet): Meta
    requires packet.Spectral?
  {
    Meta(packet.fftSize, packet.hopSize, packet.rate, packet.totalBins)
  }

  predicate Brings(packet: Packet, b: int)
    requires packet.Spectral?
  {
    packet.binOffset <= b < packet.binOffset + |packet.bins|
  }

  /** The bins a packet brings. */
  function BinsOf(packet: Packet): map<nat, real>
    requires packet.Spectral?
  {
    map b: nat | packet.binOffset <= b < packet.binOffset + |packet.bins| && Brings(packet, b) ::
      Power(packet.bins[b - packet.binOffset])
  }

  predicate AllMarked(bins: map<nat, real>, total: nat) {
    forall b :: 0 <= b < total ==> b in bins
  }

  function Values(bins: map<nat, real>, total: nat): (r: seq<real>)
    ensures |r| == total
  {
    seq(total, b requires 0 <= b < total => if b in bins then bins[b] else 0.0)
  }

  /** An older frame, or a packet that contradicts the current frame's description. */
  predicate Stale(s: Spectrum, packet: Packet)
    requires packet.Spectral?
  {
    s.frame.Some? &&
    var f := s.frame.value;
    || packet.header.sequence < f.sequence
    || (packet.header.sequence == f.sequence
        && (packet.frameId != f.frameId || s.meta != Some(MetaOf(packet))))
  }

  /** Set-up for the packet's description: anything else is forgotten. */
  function Prepare(s: Spectrum, packet: Packet): Spectrum
    requires packet.Spectral?
  {
    if s.meta == Some(MetaOf(packet)) then s else Spectrum(Some(MetaOf(packet)), None, [])
  }

  /** The frame the packet belongs to becomes the current one. */
  function Begin(s: Spectrum, packet: Packet): Spectrum
    requires packet.Spectral?
  {
    if s.frame == None || packet.header.sequence > s.frame.value.sequence
    then s.(frame := Some(Current(packet.header.sequence, packet.frameId, map[])))
    else s
  }

  /** The bins of the packet join the current frame; the last missing one completes it. */
  function Join(s: Spectrum, packet: Packet): Spectrum
    requires packet.Spectral? && s.frame.Some?
  {
    var f := s.frame.value;
    if AllMarked(f.bins, packet.totalBins) then s
    else
      var bins := f.bins + BinsOf(packet);
      Spectrum(s.meta, Some(f.(bins := bins)),
               if AllMarked(bins, packet.totalBins)
               then s.shown + [Shown(f.sequence, Values(bins, packet.totalBins))]
               else s.shown)
  }

  function Receive(s: Spectrum, packet: Packet): Spectrum
    requires packet.Spectral?
  {
    if Stale(s, packet) then s else Join(Begin(Prepare(s, packet), packet), packet)
  }

  /** What the packet says of its frame is not what is known of the stream. */
  predicate OtherDescription(m: Meta, packet: Packet)
    requires packet.Spectral?
  {
    || packet.fftSize != m.fftSize || packet.hopSize != m.hopSize
    || packet.rate != m.rate || packet.totalBins != m.totalBins
  }

  /** A packet of an older frame, and one that has the number of the current frame but
      another identity or description, changes nothing. */
  lemma ContradictionIsIgnored(s: Spectrum, packet: Packet)
    requires packet.Spectral? && s.frame.Some? && s.meta.Some?
    requires var f := s.frame.value;
      || packet.header.sequence < f.sequence
      || (packet.header.sequence == f.sequence
          && (packet.frameId != f.frameId || OtherDescription(s.meta.value, packet)))
    ensures Receive(s, packet) == s
  {
  }

  /** A packet of a newer frame starts that frame, whatever was missing of the one before;
      with another description it starts the whole stream over, and with the same one what
      was displayed stays. */
  lemma NewerFrameTakesOver(s: Spectrum, packet: Packet)
    requires packet.Spectral? && s.meta.Some?
    requires s.frame.Some? ==> packet.header.sequence > s.frame.value.sequence
    ensures var after := Receive(s, packet);
      && after.meta.Some? && !OtherDescription(after.meta.value, packet)
      && after.frame.Some?
      && after.frame.value.sequence == packet.header.sequence && after.frame.value.frameId == packet.frameId
      && (packet.totalBins > 0 ==> after.frame.value.bins == BinsOf(packet))
      && (OtherDescription(s.meta.value, packet) ==> after == Receive(Empty, packet))
      && (!OtherDescription(s.meta.value, packet) ==> s.shown <= after.shown)
  {
    var none: map<nat, real> := map[];
    assert none + BinsOf(packet) == BinsOf(packet);
    assert packet.totalBins > 0 ==> 0 !in none && !AllMarked(none, packet.totalBins);
  }

  // ---------------------------------------------------------------- deliveries

  /** The frames the plugin produced: one for each sequence number. */
  predicate Produced(frames: map<int, Frame>) {
    forall q :: q in frames ==> frames[q].sequence == q && WholeFrame(frames[q])
  }

  /** Chunk `k` of the frame stamped `sequence`. */
  datatype Chunk = Chunk(sequence: int, k: nat)

  predicate Exists(c: Chunk, frames: map<int, Frame>) {
    c.sequence in frames && c.k < ChunkCount(|frames[c.sequence].powers|)
  }

  function PacketOf(graphId: nat, streamId: nat, frames: map<int, Frame>, c: Chunk): Packet
    requires Exists(c, frames)
  {
    FramePacket(graphId, streamId, frames[c.sequence], c.k)
  }

  /** The stream after the chunks of `order` arrive, starting from `s`. */
  function Deliver(s: Spectrum, graphId: nat, streamId: nat, frames: map<int, Frame>, order: seq<Chunk>)
    : Spectrum
    requires forall j :: 0 <= j < |order| ==> Exists(order[j], frames)
  {
    if order == [] then s
    else Receive(Deliver(s, graphId, streamId, frames, order[..|order| - 1]),
                 PacketOf(graphId, streamId, frames, order[|order| - 1]))
  }

  function FrameMeta(frame: Frame): Meta {
    Meta(frame.fftSize, frame.hopSize, frame.rate, |frame.powers|)
  }

  /** The marked bins of the current frame hold that frame's own values. */
  predicate OwnBins(f: Current, frames: map<int, Frame>) {
    && f.sequence in frames && f.frameId == frames[f.sequence].frameId
    && forall b :: b in f.bins ==>
         b < |frames[f.sequence].powers| && f.bins[b] == Power(frames[f.sequence].powers[b])
  }

  /** A displayed spectrum is one whole frame, never a mixture. */
  predicate WholeShown(x: Shown, frames: map<int, Frame>) {
    x.sequence in frames && x.values == Powers(frames[x.sequence].powers)
  }

  predicate Intact(s: Spectrum, frames: map<int, Frame>) {
    && (s.frame.Some? ==>
          && OwnBins(s.frame.value, frames)
          && s.meta == Some(FrameMeta(frames[s.frame.value.sequence])))
    && (forall i :: 0 <= i < |s.shown| ==> WholeShown(s.shown[i], frames))
    && (forall i, j :: 0 <= i < j < |s.shown| ==> s.shown[i].sequence < s.shown[j].sequence)
    && (s.shown != [] ==>
          && s.frame.Some? && s.meta.Some?
          && s.shown[|s.shown| - 1].sequence <= s.frame.value.sequence
          && (s.shown[|s.shown| - 1].sequence == s.frame.value.sequence
              ==> AllMarked(s.frame.value.bins, s.meta.value.totalBins)))
  }

  lemma PacketBins(g: nat, t: nat, frames: map<int, Frame>, c: Chunk)
    requires Produced(frames) && Exists(c, frames)
    ensures var packet := PacketOf(g, t, frames, c);
      && packet.Spectral? && packet.header.sequence == c.sequence
      && MetaOf(packet) == FrameMeta(frames[c.sequence])
      && forall b :: b in BinsOf(packet) ==>
           && b < |frames[c.sequence].powers|
           && BinsOf(packet)[b] == Power(frames[c.sequence].powers[b])
  {
  }

  lemma JoinKeepsIntact(s: Spectrum, g: nat, t: nat, frames: map<int, Frame>, c: Chunk)
    requires Produced(frames) && Exists(c, frames) && Intact(s, frames)
    requires s.frame.Some? && s.frame.value.sequence == c.sequence
    ensures Intact(Join(s, PacketOf(g, t, frames, c)), frames)
  {
    PacketBins(g, t, frames, c);
    var packet, f := PacketOf(g, t, frames, c), s.frame.value;
    var bins := f.bins + BinsOf(packet);
    JoinedBins(f, BinsOf(packet), frames);
    if !AllMarked(f.bins, packet.totalBins) && AllMarked(bins, packet.totalBins) {
      CompleteIsWhole(bins, frames[c.sequence]);
      hide Values, Powers, BinsOf, PacketOf, OwnBins, AllMarked;
      ShownGrows(s, f.(bins := bins), Shown(f.sequence, Values(bins, packet.totalBins)), frames);
    } else {
      hide Values, Powers, BinsOf, PacketOf, OwnBins, WholeShown;
    }
  }

  lemma JoinedBins(f: Current, more: map<nat, real>, frames: map<int, Frame>)
    requires OwnBins(f, frames)
    requires forall b :: b in more ==>
      b < |frames[f.sequence].powers| && more[b] == Power(frames[f.sequence].powers[b])
    ensures OwnBins(f.(bins := f.bins + more), frames)
  {
  }

  lemma CompleteIsWhole(bins: map<nat, real>, frame: Frame)
    requires AllMarked(bins, |frame.powers|)
    requires forall b :: b in bins ==> b < |frame.powers| && bins[b] == Power(frame.powers[b])
    ensures Values(bins, |frame.powers|) == Powers(frame.powers)
  {
  }

  /** A newly completed frame is the newest displayed. */
  lemma ShownGrows(s: Spectrum, f: Current, x: Shown, frames: map<int, Frame>)
    requires Intact(s, frames) && s.frame.Some? && s.meta.Some? && s.frame.value.sequence == f.sequence
    requires !AllMarked(s.frame.value.bins, s.meta.value.totalBins)
    requires OwnBins(f, frames) && AllMarked(f.bins, s.meta.value.totalBins)
    requires WholeShown(x, frames) && x.sequence == f.sequence
    ensures Intact(Spectrum(s.meta, Some(f), s.shown + [x]), frames)
  {
    hide OwnBins, WholeShown, AllMarked;
  }

  /** One packet: bins never mix, displayed frames stay whole and in order, and the frame
      sequence never goes back. */
  lemma ReceiveKeepsIntact(s: Spectrum, g: nat, t: nat, frames: map<int, Frame>, c: Chunk)
    requires Produced(frames) && Exists(c, frames) && Intact(s, frames)
    ensures Intact(Receive(s, PacketOf(g, t, frames, c)), frames)
    ensures s.frame.Some? ==>
      && Receive(s, PacketOf(g, t, frames, c)).frame.Some?
      && s.frame.value.sequence <= Receive(s, PacketOf(g, t, frames, c)).frame.value.sequence
  {
    var packet := PacketOf(g, t, frames, c);
    PacketBins(g, t, frames, c);
    if !Stale(s, packet) {
      var ready := Begin(Prepare(s, packet), packet);
      assert Intact(ready, frames);
      JoinKeepsIntact(ready, g, t, frames, c);
    }
  }

  /** Whatever is lost, repeated or reordered, the stream is intact after every delivery. */
  lemma {:induction false} DeliveryIsIntact(g: nat, t: nat, frames: map<int, Frame>, order: seq<Chunk>)
    requires Produced(frames)
    requires forall j :: 0 <= j < |order| ==> Exists(order[j], frames)
    ensures Intact(Deliver(Empty, g, t, frames, order), frames)
  {
    if order != [] {
      var init := order[..|order| - 1];
      DeliveryIsIntact(g, t, frames, init);
      ReceiveKeepsIntact(Deliver(Empty, g, t, frames, init), g, t, frames, order[|order| - 1]);
    }
  }

  /** The bins marked are those of the chunks that arrived, and once that is all of them
      the frame has been displayed. */
  predicate Progress(s: Spectrum, frame: Frame, order: seq<Chunk>) {
    && s.meta == Some(FrameMeta(frame))
    && s.frame.Some? && s.frame.value.sequence == frame.sequence && s.frame.value.frameId == frame.frameId
    && (forall b :: 0 <= b < |frame.powers| ==>
          (b in s.frame.value.bins <==> Chunk(frame.sequence, b / MAX_SPECTRAL_BINS) in order))
    && (AllMarked(s.frame.value.bins, |frame.powers|) ==>
          s.shown != [] && s.shown[|s.shown| - 1] == Shown(frame.sequence, Powers(frame.powers)))
  }

  lemma {:induction false} DeliveryProgress(s: Spectrum, g: nat, t: nat, frames: map<int, Frame>,
                                            q: int, order: seq<Chunk>)
    requires Produced(frames) && Intact(s, frames) && q in frames && order != []
    requires s.frame.Some? ==> s.frame.value.sequence < q
    requires forall j :: 0 <= j < |order| ==> order[j].sequence == q && Exists(order[j], frames)
    ensures Progress(Deliver(s, g, t, frames, order), frames[q], order)
  {
    hide Receive, Intact, Progress;
    var init, c := order[..|order| - 1], order[|order| - 1];
    var before := Deliver(s, g, t, frames, init);
    DeliverFromIntact(s, g, t, frames, init);
    assert order == init + [c];
    if init == [] {
      FirstChunk(before, g, t, frames, c);
    } else {
      DeliveryProgress(s, g, t, frames, q, init);
      NextChunk(before, g, t, frames, init, c);
    }
  }

  /** A frame newer than the current one whose chunks all arrive, in any order and with any
      repetition but with nothing newer in between, is displayed whole. */
  lemma CompleteFrameIsShown(s: Spectrum, g: nat, t: nat, frames: map<int, Frame>,
                             q: int, order: seq<Chunk>)
    requires Produced(frames) && Intact(s, frames) && q in frames && order != []
    requires s.frame.Some? ==> s.frame.value.sequence < q
    requires forall j :: 0 <= j < |order| ==> order[j].sequence == q && Exists(order[j], frames)
    requires forall k: nat :: k < ChunkCount(|frames[q].powers|) ==> Chunk(q, k) in order
    ensures var shown := Deliver(s, g, t, frames, order).shown;
      shown != [] && shown[|shown| - 1] == Shown(q, Powers(frames[q].powers))
  {
    DeliveryProgress(s, g, t, frames, q, order);
    hide Deliver;
    assert forall b :: 0 <= b < |frames[q].powers| ==>
      0 <= b / MAX_SPECTRAL_BINS < ChunkCount(|frames[q].powers|);
  }

  lemma {:induction false} DeliverFromIntact(s: Spectrum, g: nat, t: nat, frames: map<int, Frame>,
                                             order: seq<Chunk>)
    requires Produced(frames) && Intact(s, frames)
    requires forall j :: 0 <= j < |order| ==> Exists(order[j], frames)
    ensures Intact(Deliver(s, g, t, frames, order), frames)
  {
    if order != [] {
      var init := order[..|order| - 1];
      DeliverFromIntact(s, g, t, frames, init);
      ReceiveKeepsIntact(Deliver(s, g, t, frames, init), g, t, frames, order[|order| - 1]);
    }
  }

  lemma ChunkBrings(g: nat, t: nat, frames: map<int, Frame>, c: Chunk, b: nat)
    requires Produced(frames) && Exists(c, frames) && b < |frames[c.sequence].powers|
    ensures b in BinsOf(PacketOf(g, t, frames, c)) <==> b / MAX_SPECTRAL_BINS == c.k
  {
    assert b in BinsOf(PacketOf(g, t, frames, c)) <==> Brings(PacketOf(g, t, frames, c), b);
  }

  /** Joining a chunk marks its bins, and completion is displayed at that moment. */
  lemma JoinMarks(s: Spectrum, g: nat, t: nat, frames: map<int, Frame>, order: seq<Chunk>, c: Chunk)
    requires Produced(frames) && Exists(c, frames) && Intact(s, frames)
    requires Progress(s, frames[c.sequence], order)
    ensures Progress(Join(s, PacketOf(g, t, frames, c)), frames[c.sequence], order + [c])
  {
    var frame, packet, f := frames[c.sequence], PacketOf(g, t, frames, c), s.frame.value;
    PacketBins(g, t, frames, c);
    var bins := f.bins + BinsOf(packet);
    forall b: nat | b < |frame.powers|
      ensures b in bins <==> Chunk(c.sequence, b / MAX_SPECTRAL_BINS) in order + [c]
    {
      ChunkBrings(g, t, frames, c, b);
    }
    if !AllMarked(f.bins, packet.totalBins) && AllMarked(bins, packet.totalBins) {
      assert Values(bins, packet.totalBins) == Powers(frame.powers);
    }
  }

  lemma FirstChunk(s: Spectrum, g: nat, t: nat, frames: map<int, Frame>, c: Chunk)
    requires Produced(frames) && Exists(c, frames) && Intact(s, frames)
    requires s.frame.Some? ==> s.frame.value.sequence < c.sequence
    ensures Progress(Receive(s, PacketOf(g, t, frames, c)), frames[c.sequence], [c])
  {
    var packet := PacketOf(g, t, frames, c);
    PacketBins(g, t, frames, c);
    var ready := Begin(Prepare(s, packet), packet);
    assert |frames[c.sequence].powers| > 0 && 0 !in ready.frame.value.bins;
    assert Progress(ready, frames[c.sequence], []);
    JoinMarks(ready, g, t, frames, [], c);
    assert [] + [c] == [c];
  }

  lemma NextChunk(s: Spectrum, g: nat, t: nat, frames: map<int, Frame>, order: seq<Chunk>, c: Chunk)
    requires Produced(frames) && Exists(c, frames) && Intact(s, frames)
    requires Progress(s, frames[c.sequence], order)
    ensures Progress(Receive(s, PacketOf(g, t, frames, c)), frames[c.sequence], order + [c])
  {
    PacketBins(g, t, frames, c);
    JoinMarks(s, g, t, frames, order, c);
  }
}
