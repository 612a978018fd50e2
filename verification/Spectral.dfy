/** The viewer's spectral buffer: frames assembled bin by bin in fixed arrays. */
module Spectral {
  import opened Samples
  import opened Wire
  import opened Frames
  import opened SpectralFrames
  import opened HistoryRing

  const MAX_SPECTROGRAM_TEXELS: nat := 16777216

  /** Columns of spectrogram history, or nothing when the texture would be unusable. */
  function HistoryColumns(seconds: real, m: Meta): (columns: Option<nat>)
    ensures columns.Some? ==>
      && 1 <= columns.value <= INT_MAX && m.hopSize > 0
      && (columns.value - 1) as real < seconds * m.rate as real / m.hopSize as real
      && seconds * m.rate as real / m.hopSize as real <= columns.value as real
      && columns.value * m.totalBins <= MAX_SPECTROGRAM_TEXELS
    ensures columns == None ==>
      || m.hopSize == 0 || seconds * m.rate as real / m.hopSize as real <= 0.0
      || Ceil(seconds * m.rate as real / m.hopSize as real) > INT_MAX
      || Ceil(seconds * m.rate as real / m.hopSize as real) * m.totalBins > MAX_SPECTROGRAM_TEXELS
  {
    if m.hopSize == 0 then None
    else
      var requested := Ceil(seconds * m.rate as real / m.hopSize as real);
      if requested < 1 || requested > INT_MAX || requested * m.totalBins > MAX_SPECTROGRAM_TEXELS
      then None else Some(requested)
  }

  /** A set of bins below `n` has at most `n` members, and `n` only if it has them all. */
  lemma {:induction false} FullBins(keys: set<nat>, n: nat)
    requires forall b :: b in keys ==> b < n
    ensures |keys| <= n
    ensures |keys| == n <==> forall b :: 0 <= b < n ==> b in keys
  {
    if n > 0 {
      var rest := keys - {n - 1};
      FullBins(rest, n - 1);
      if n - 1 in keys {
        assert keys == rest + {n - 1};
      } else {
        assert keys == rest;
      }
    } else {
      assert keys == {};
    }
  }

  /** The marked bins once the first `n` bins of a packet are stored. */
  function Stored(before: map<nat, real>, packet: Packet, n: nat): map<nat, real>
    requires packet.Spectral? && n <= |packet.bins|
  {
    if n == 0 then before
    else Stored(before, packet, n - 1)[packet.binOffset + n - 1 := Power(packet.bins[n - 1])]
  }

  lemma {:induction false} StoredMeans(before: map<nat, real>, packet: Packet, n: nat, b: nat)
    requires packet.Spectral? && n <= |packet.bins|
    ensures var all := Stored(before, packet, n);
      if packet.binOffset <= b < packet.binOffset + n
      then b in all && all[b] == Power(packet.bins[b - packet.binOffset])
      else (b in all <==> b in before) && (b in all ==> all[b] == before[b])
  {
    if n > 0 {
      StoredMeans(before, packet, n - 1, b);
    }
  }

  lemma StoredBins(before: map<nat, real>, packet: Packet)
    requires packet.Spectral?
    ensures Stored(before, packet, |packet.bins|) == before + BinsOf(packet)
  {
    forall b: nat
      ensures b in Stored(before, packet, |packet.bins|) <==> b in before + BinsOf(packet)
      ensures b in before + BinsOf(packet) ==>
        Stored(before, packet, |packet.bins|)[b] == (before + BinsOf(packet))[b]
    {
      StoredMeans(before, packet, |packet.bins|, b);
      assert Brings(packet, b) <==> b in BinsOf(packet);
    }
  }

  /** Every bin shows its own power, and zero in place of one that is negative or not a
      number. */
  predicate ShowsFrame(bins: seq<real>, frame: Frame) {
    && |bins| == |frame.powers|
    && forall b :: 0 <= b < |bins| ==>
         var power := frame.powers[b];
         bins[b] == if power.Finite? && power.value >= 0.0 then power.value else 0.0
  }

  lemma PowersShow(frame: Frame)
    ensures ShowsFrame(Powers(frame.powers), frame)
  {
  }

  function ShownValues(shown: seq<Shown>): (r: seq<seq<real>>)
    ensures |r| == |shown|
  {
    seq(|shown|, i requires 0 <= i < |shown| => shown[i].values)
  }

  class SpectralStream {
    const isSpectrum: bool
    const historySeconds: real
    var assemblyBins: array?<real>
    var receivedBins: array?<bool>
    var displayBins: array?<real>
    var history: array?<seq<real>>
    var historyWriteIndex: nat
    var validHistoryFrames: nat
    var described: Meta
    var frameSequence: int
    var frameId: nat
    var receivedCount: nat
    var hasFrame: bool
    var assembling: bool
    var displayReady: bool
    var unsupported: bool
    ghost var bins: map<nat, real>
    ghost var shown: seq<Shown>

    ghost function Model(): Spectrum
      reads this
    {
      if assemblyBins == null then Empty
      else Spectrum(Some(described), if hasFrame then Some(Current(frameSequence, frameId, bins)) else None, shown)
    }

    /** The assembly arrays stand for the marked bins. */
    ghost predicate BinsInv()
      reads this`assemblyBins, this`receivedBins, this`bins, this`receivedCount, this`described,
        assemblyBins, receivedBins
    {
      && assemblyBins != null && receivedBins != null
      && assemblyBins.Length == receivedBins.Length == described.totalBins
      && receivedCount == |bins.Keys|
      && (forall b :: b in bins ==> b < described.totalBins)
      && (forall b :: 0 <= b < described.totalBins ==>
            && (receivedBins[b] <==> b in bins)
            && (b in bins ==> assemblyBins[b] == bins[b]))
    }

    /** The display stands for the frames completed so far. */
    ghost predicate DisplayInv()
      reads this`displayBins, this`history, this`historyWriteIndex, this`validHistoryFrames,
        this`displayReady, this`shown, this`described, displayBins, history
    {
      if isSpectrum then
        && displayBins != null && displayBins.Length == described.totalBins
        && (displayReady <==> shown != [])
        && (displayReady ==> displayBins[..] == shown[|shown| - 1].values)
      else
        && !displayReady
        && history != null && Holds(history[..], historyWriteIndex, validHistoryFrames, ShownValues(shown))
    }

    ghost predicate Valid()
      reads this, assemblyBins, receivedBins, displayBins, history
    {
      && (assemblyBins == null ==> !hasFrame && !displayReady && validHistoryFrames == 0)
      && (assemblyBins != null ==>
            && !unsupported && DisplayInv()
            && assemblyBins != displayBins
            && receivedBins != null
            && assemblyBins.Length == receivedBins.Length == described.totalBins > 0
            && (!hasFrame ==> shown == [])
            && (hasFrame ==> BinsInv() && (assembling <==> receivedCount != described.totalBins)))
    }

    constructor (isSpectrum: bool, historySeconds: real)
      ensures Valid() && Model() == Empty && !unsupported
      ensures assemblyBins == null && receivedBins == null && displayBins == null && history == null
      ensures this.isSpectrum == isSpectrum && this.historySeconds == historySeconds
    {
      this.isSpectrum, this.historySeconds := isSpectrum, historySeconds;
      assemblyBins, receivedBins, displayBins, history := null, null, null, null;
      historyWriteIndex, validHistoryFrames, described := 0, 0, Meta(0, 0, 0, 0);
      frameSequence, frameId, receivedCount := 0, 0, 0;
      hasFrame, assembling, displayReady, unsupported := false, false, false, false;
      bins, shown := map[], [];
    }

    method ClearFrame()
      modifies this`frameSequence, this`frameId, this`receivedCount, this`hasFrame, this`assembling,
        this`displayReady, this`unsupported, this`bins, this`shown
      ensures !hasFrame && !displayReady && !unsupported && bins == map[] && shown == []
    {
      frameSequence, frameId, receivedCount := 0, 0, 0;
      hasFrame, assembling, displayReady, unsupported := false, false, false, false;
      bins, shown := map[], [];
    }

    method ClearBuffers()
      modifies this`assemblyBins, this`receivedBins, this`displayBins, this`history,
        this`historyWriteIndex, this`validHistoryFrames, this`described
      ensures assemblyBins == null && receivedBins == null && displayBins == null && history == null
      ensures historyWriteIndex == validHistoryFrames == 0 && described == Meta(0, 0, 0, 0)
    {
      assemblyBins, receivedBins, displayBins, history := null, null, null, null;
      historyWriteIndex, validHistoryFrames, described := 0, 0, Meta(0, 0, 0, 0);
    }

    /** `clear_spectral_stream`; also what a theme change does to a spectrogram. */
    method Clear()
      modifies this
      ensures Valid() && Model() == Empty && assemblyBins == null && !unsupported
      ensures bins == map[] && shown == [] && !hasFrame && described == Meta(0, 0, 0, 0)
      ensures historyWriteIndex == validHistoryFrames == 0 && !displayReady
      ensures receivedBins == null && displayBins == null && history == null
    {
      hide BinsInv, DisplayInv;
      ClearBuffers();
      ClearFrame();
    }

    method Reject(m: Meta)
      modifies this
      ensures Valid() && Model() == Empty && assemblyBins == null && unsupported && described == m
      ensures receivedBins == null && displayBins == null && history == null
    {
      Clear();
      described, unsupported := m, true;
    }

    /** `ensure_spectral_stream`. `hasMemory` covers every allocation and the texture. */
    method EnsureSpectralStream(packet: Packet, hasMemory: bool) returns (ok: bool)
      requires Valid() && packet.Spectral? && packet.totalBins > 0
      modifies this
      ensures Valid()
      ensures ok <==> assemblyBins != null
      ensures ok ==> Model() == Prepare(old(Model()), packet) && described == MetaOf(packet)
      ensures !ok ==> Model() == Empty && unsupported && described == MetaOf(packet)
      ensures !ok ==> receivedBins == null || receivedBins == old(receivedBins)
      ensures !ok ==> displayBins == null || displayBins == old(displayBins)
      ensures !ok ==> history == null || history == old(history)
      ensures old(Model()).meta == Some(MetaOf(packet)) ==> ok && unchanged(this)
      ensures old(Model()).meta != Some(MetaOf(packet)) ==>
        (ok <==> hasMemory && !old(unsupported && described == MetaOf(packet))
                 && (isSpectrum || HistoryColumns(historySeconds, MetaOf(packet)).Some?))
      ensures ok && old(Model()).meta != Some(MetaOf(packet)) ==>
        && fresh(assemblyBins) && fresh(receivedBins)
        && (if isSpectrum then fresh(displayBins) && history == null
            else fresh(history) && displayBins == null)
    {
      hide BinsInv, HistoryColumns, ShownValues;
      var m := MetaOf(packet);
      if unsupported && described == m {
        return false;
      }
      if assemblyBins != null && described == m {
        return true;
      }
      Clear();
      var columns := HistoryColumns(historySeconds, m);
      if !hasMemory || (!isSpectrum && columns == None) {
        Reject(m);
        return false;
      }
      SetUp(m, if columns.Some? then columns.value else 0);
      return true;
    }

    /** Buffers for a description, with nothing in them. */
    method SetUp(m: Meta, columns: nat)
      requires m.totalBins > 0 && (!isSpectrum ==> columns > 0)
      requires displayBins == null && history == null && !unsupported && !hasFrame && !displayReady
      requires shown == [] && historyWriteIndex == validHistoryFrames == 0
      modifies this`described, this`displayBins, this`history, this`assemblyBins, this`receivedBins
      ensures Valid() && described == m && assemblyBins != null && fresh(assemblyBins)
      ensures receivedBins != null && fresh(receivedBins)
      ensures if isSpectrum then displayBins != null && fresh(displayBins) && history == null
              else history != null && fresh(history) && displayBins == null
    {
      hide BinsInv;
      described := m;
      if isSpectrum {
        displayBins := new real[m.totalBins](_ => 0.0);
      } else {
        history := new seq<real>[columns](_ => []);
      }
      assemblyBins := new real[m.totalBins](_ => 0.0);
      receivedBins := new bool[m.totalBins](_ => false);
    }

    method ClearMarks()
      requires receivedBins != null
      modifies receivedBins
      ensures forall j :: 0 <= j < receivedBins.Length ==> !receivedBins[j]
    {
      for b := 0 to receivedBins.Length
        invariant forall j :: 0 <= j < b ==> !receivedBins[j]
        invariant unchanged(this)
      {
        receivedBins[b] := false;
      }
    }

    method BeginSpectralFrame(packet: Packet)
      requires Valid() && assemblyBins != null && packet.Spectral? && described == MetaOf(packet)
      requires !hasFrame || packet.header.sequence > frameSequence
      modifies this`receivedCount, this`frameSequence, this`frameId, this`hasFrame, this`assembling,
        this`bins, receivedBins
      ensures Valid() && hasFrame && assembling && bins == map[]
      ensures Model() == Begin(old(Model()), packet)
    {
      hide BinsInv, DisplayInv;
      ClearMarks();
      StartFrame(packet.header.sequence, packet.frameId);
    }

    method StartFrame(sequence: int, id: nat)
      requires assemblyBins != null && receivedBins != null
      requires assemblyBins.Length == receivedBins.Length == described.totalBins
      requires forall j :: 0 <= j < receivedBins.Length ==> !receivedBins[j]
      modifies this`receivedCount, this`frameSequence, this`frameId, this`hasFrame, this`assembling, this`bins
      ensures BinsInv() && receivedCount == 0 && bins == map[]
      ensures frameSequence == sequence && frameId == id && hasFrame && assembling
    {
      receivedCount, bins := 0, map[];
      frameSequence, frameId := sequence, id;
      hasFrame, assembling := true, true;
    }

    /** Writes one bin of the current frame and counts it the first time. */
    method StoreBin(b: nat, value: real)
      requires BinsInv() && b < described.totalBins
      modifies this`receivedCount, this`bins, assemblyBins, receivedBins
      ensures BinsInv() && bins == old(bins)[b := value]
    {
      assert bins[b := value].Keys == bins.Keys + {b};
      assemblyBins[b] := value;
      if !receivedBins[b] {
        receivedBins[b] := true;
        receivedCount := receivedCount + 1;
      }
      bins := bins[b := value];
    }

    method StoreBins(packet: Packet)
      requires BinsInv() && packet.Spectral?
      requires packet.binOffset + |packet.bins| <= described.totalBins
      modifies this`receivedCount, this`bins, assemblyBins, receivedBins
      ensures BinsInv() && bins == old(bins) + BinsOf(packet)
    {
      hide BinsInv, BinsOf, Power;
      for i := 0 to |packet.bins|
        invariant BinsInv() && bins == Stored(old(bins), packet, i)
      {
        StoreBin(packet.binOffset + i, Power(packet.bins[i]));
      }
      StoredBins(old(bins), packet);
    }

    /** The completed frame as `Join` records it. */
    ghost function Entry(): Shown
      reads this`frameSequence, this`bins, this`described
    {
      Shown(frameSequence, Values(bins, described.totalBins))
    }

    lemma EntryIsAssembly()
      requires BinsInv() && AllMarked(bins, described.totalBins)
      ensures assemblyBins[..] == Entry().values
    {
    }

    lemma ShownGrows(x: Shown)
      ensures ShownValues(shown + [x]) == ShownValues(shown) + [x.values]
    {
    }

    /** The completed frame replaces the displayed spectrum. */
    method ShowSpectrum()
      requires isSpectrum && BinsInv() && DisplayInv() && assemblyBins != displayBins
      requires AllMarked(bins, described.totalBins)
      modifies this`displayReady, this`shown, displayBins
      ensures DisplayInv() && BinsInv() && shown == old(shown) + [Entry()]
    {
      EntryIsAssembly();
      for b := 0 to displayBins.Length
        invariant unchanged(this) && unchanged(assemblyBins)
        invariant forall j :: 0 <= j < b ==> displayBins[j] == assemblyBins[j]
      {
        displayBins[b] := assemblyBins[b];
      }
      assert displayBins[..] == assemblyBins[..];
      displayReady := true;
      shown := shown + [Entry()];
    }

    /** The completed frame becomes the newest history column. */
    method AppendSpectrogramFrame()
      requires !isSpectrum && BinsInv() && DisplayInv()
      requires AllMarked(bins, described.totalBins)
      modifies this`historyWriteIndex, this`validHistoryFrames, this`shown, history
      ensures DisplayInv() && BinsInv() && shown == old(shown) + [Entry()]
    {
      EntryIsAssembly();
      ShownGrows(Entry());
      ghost var before := history[..];
      Push(before, historyWriteIndex, validHistoryFrames, ShownValues(shown), Entry().values);
      history[historyWriteIndex] := assemblyBins[..];
      assert history[..] == before[historyWriteIndex := Entry().values];
      historyWriteIndex := (historyWriteIndex + 1) % history.Length;
      if validHistoryFrames < history.Length {
        validHistoryFrames := validHistoryFrames + 1;
      }
      shown := shown + [Entry()];
    }

    /** A stream with a current frame, spelt out. */
    ghost predicate HasCurrent()
      reads this, assemblyBins, receivedBins, displayBins, history
    {
      && BinsInv() && DisplayInv() && hasFrame && !unsupported && described.totalBins > 0
      && assemblyBins != displayBins
    }

    lemma CurrentIs()
      requires assemblyBins != null && hasFrame
      ensures Valid() <==> HasCurrent() && (assembling <==> receivedCount != described.totalBins)
      ensures Model() == Spectrum(Some(described), Some(Current(frameSequence, frameId, bins)), shown)
    {
      hide BinsInv, DisplayInv;
      if BinsInv() {
        BinsFit();
      }
    }

    lemma BinsFit()
      requires BinsInv()
      ensures receivedBins != null && assemblyBins != null
      ensures assemblyBins.Length == receivedBins.Length == described.totalBins
    {
    }

    /** Every bin has arrived. A texture that cannot be updated rejects the stream. */
    method CompleteFrame(textureOk: bool)
      requires HasCurrent() && receivedCount == described.totalBins && !unsupported
      modifies this, displayBins, history
      ensures Valid() && described == old(described)
      ensures isSpectrum || textureOk ==>
        Model() == old(Model()).(shown := old(shown) + [old(Entry())]) && !unsupported
      ensures !(isSpectrum || textureOk) ==> Model() == Empty && unsupported
      ensures assemblyBins == null || assemblyBins == old(assemblyBins)
      ensures receivedBins == null || receivedBins == old(receivedBins)
      ensures displayBins == null || displayBins == old(displayBins)
      ensures history == null || history == old(history)
    {
      hide *;
      if isSpectrum || textureOk {
        FinishFrame();
      } else {
        Reject(described);
      }
    }

    method FinishFrame()
      requires HasCurrent() && receivedCount == described.totalBins
      modifies this`assembling, this`displayReady, this`historyWriteIndex, this`validHistoryFrames,
        this`shown, displayBins, history
      ensures Valid()
      ensures Model() == old(Model()).(shown := old(shown) + [old(Entry())])
    {
      MarkedMeans();
      hide BinsInv, DisplayInv, Valid, Model, AllMarked, Entry;
      assembling := false;
      ShowFrame();
      CurrentIs();
    }

    method ShowFrame()
      requires BinsInv() && DisplayInv() && assemblyBins != displayBins
      requires AllMarked(bins, described.totalBins)
      modifies this`displayReady, this`historyWriteIndex, this`validHistoryFrames, this`shown,
        displayBins, history
      ensures DisplayInv() && BinsInv() && shown == old(shown) + [Entry()]
    {
      if isSpectrum {
        ShowSpectrum();
      } else {
        AppendSpectrogramFrame();
      }
    }

    /** The bins of a packet of the current frame. */
    method JoinPacket(packet: Packet, textureOk: bool)
      requires Valid() && assemblyBins != null && hasFrame && assembling
      requires packet.Spectral? && described == MetaOf(packet)
      requires packet.binOffset + |packet.bins| <= packet.totalBins
      modifies this, assemblyBins, receivedBins, displayBins, history
      ensures Valid()
      ensures isSpectrum || textureOk ==> Model() == Join(old(Model()), packet) && !unsupported
      ensures Model() == Join(old(Model()), packet)
        || (Model() == Empty && unsupported && described == old(described))
      ensures assemblyBins == null || assemblyBins == old(assemblyBins)
      ensures receivedBins == null || receivedBins == old(receivedBins)
      ensures displayBins == null || displayBins == old(displayBins)
      ensures history == null || history == old(history)
    {
      StorePacket(packet);
      hide *;
      if receivedCount == described.totalBins {
        CompleteFrame(textureOk);
      } else {
        CurrentIs();
      }
    }

    /** What is left to do once the bins of a packet are stored. */
    method StorePacket(packet: Packet)
      requires Valid() && assemblyBins != null && hasFrame && assembling
      requires packet.Spectral? && described == MetaOf(packet)
      requires packet.binOffset + |packet.bins| <= packet.totalBins
      modifies this`receivedCount, this`bins, assemblyBins, receivedBins
      ensures HasCurrent()
      ensures Join(old(Model()), packet) ==
        if receivedCount == described.totalBins then Model().(shown := shown + [Entry()]) else Model()
    {
      JoinMeaning(packet);
      hide *;
      StoreCurrent(packet);
      MarkedMeans();
    }

    method StoreCurrent(packet: Packet)
      requires HasCurrent() && packet.Spectral?
      requires packet.binOffset + |packet.bins| <= described.totalBins
      modifies this`receivedCount, this`bins, assemblyBins, receivedBins
      ensures HasCurrent() && bins == old(bins) + BinsOf(packet)
    {
      hide BinsInv, DisplayInv, BinsOf;
      StoreBins(packet);
    }

    lemma MarkedMeans()
      requires HasCurrent()
      ensures receivedCount == described.totalBins <==> AllMarked(bins, described.totalBins)
      ensures Model() == Spectrum(Some(described), Some(Current(frameSequence, frameId, bins)), shown)
      ensures Entry() == Shown(frameSequence, Values(bins, described.totalBins))
    {
      BinsCounted();
      CurrentIs();
    }

    lemma BinsCounted()
      requires BinsInv()
      ensures receivedCount == described.totalBins <==> AllMarked(bins, described.totalBins)
    {
      FullBins(bins.Keys, described.totalBins);
    }

    lemma JoinMeaning(packet: Packet)
      requires Valid() && assemblyBins != null && hasFrame && assembling
      requires packet.Spectral? && described == MetaOf(packet)
      ensures HasCurrent() && packet.totalBins == described.totalBins
      ensures var all := bins + BinsOf(packet);
        Join(Model(), packet) == Spectrum(
          Some(described), Some(Current(frameSequence, frameId, all)),
          if AllMarked(all, described.totalBins)
          then shown + [Shown(frameSequence, Values(all, described.totalBins))] else shown)
    {
      BinsCounted();
      CurrentIs();
    }

    /** `process_spectral_packet`, once the graph is known to be spectral. Without a
        rejection it does exactly what `Receive` says. */
    method ProcessSpectral(packet: Packet, received: int, hasMemory: bool, textureOk: bool)
      requires Valid()
      modifies this, assemblyBins, receivedBins, displayBins, history
      ensures Valid()
      ensures !ValidateSpectral(packet, received) ==> Model() == old(Model())
      ensures ValidateSpectral(packet, received) ==>
        Model() == Receive(old(Model()), packet)
        || (Model() == Empty && unsupported && described == MetaOf(packet))
      ensures ValidateSpectral(packet, received) && hasMemory
        && !old(unsupported && described == MetaOf(packet))
        && (isSpectrum || (textureOk && HistoryColumns(historySeconds, MetaOf(packet)).Some?))
        ==> Model() == Receive(old(Model()), packet) && !unsupported
      ensures assemblyBins == null || assemblyBins == old(assemblyBins) || fresh(assemblyBins)
      ensures receivedBins == null || receivedBins == old(receivedBins) || fresh(receivedBins)
      ensures displayBins == null || displayBins == old(displayBins) || fresh(displayBins)
      ensures history == null || history == old(history) || fresh(history)
    {
      hide BinsInv, DisplayInv, HistoryColumns, Values, BinsOf;
      if !ValidateSpectral(packet, received) {
        return;
      }
      if hasFrame && packet.header.sequence < frameSequence {
        return;
      }
      if hasFrame && packet.header.sequence == frameSequence
         && (packet.frameId != frameId || MetaOf(packet) != described) {
        return;
      }
      assert !Stale(Model(), packet);
      var ok := EnsureSpectralStream(packet, hasMemory);
      if !ok {
        return;
      }
      if !hasFrame || packet.header.sequence > frameSequence {
        BeginSpectralFrame(packet);
      } else if packet.header.sequence < frameSequence || packet.frameId != frameId || !assembling {
        BinsCounted();
        return;
      }
      hide Join;
      JoinPacket(packet, textureOk);
    }

    /** What is displayed is one whole produced frame; a history lists whole produced frames. */
    ghost predicate ShowsWholeFrames(frames: map<int, Frame>)
      requires Valid()
      reads this, assemblyBins, receivedBins, displayBins, history
    {
      && (displayReady ==>
            && displayBins != null
            && exists q :: q in frames && ShowsFrame(displayBins[..], frames[q]))
      && (!isSpectrum && assemblyBins != null ==>
            && history != null
            && forall k :: 0 <= k < validHistoryFrames ==> IsFrameOf(history[..], historyWriteIndex, k, frames))
    }

    ghost predicate IsFrameOf(ring: seq<seq<real>>, write: nat, k: nat, frames: map<int, Frame>)
      reads this`validHistoryFrames
    {
      var at := Slot(|ring|, write, validHistoryFrames, k);
      0 <= at < |ring| && exists q :: q in frames && ShowsFrame(ring[at], frames[q])
    }

    lemma IntactIsShown(frames: map<int, Frame>)
      requires Valid() && Intact(Model(), frames)
      ensures ShowsWholeFrames(frames)
    {
      hide BinsInv, OwnBins, Powers, ShowsFrame;
      if displayReady {
        var last := shown[|shown| - 1];
        assert WholeShown(last, frames);
        PowersShow(frames[last.sequence]);
      }
      if !isSpectrum && assemblyBins != null {
        forall k | 0 <= k < validHistoryFrames
          ensures IsFrameOf(history[..], historyWriteIndex, k, frames)
        {
          var at := Slot(|history[..]|, historyWriteIndex, validHistoryFrames, k);
          assert history[..][at] == ShownValues(shown)[|shown| - validHistoryFrames + k];
          var x := shown[|shown| - validHistoryFrames + k];
          assert WholeShown(x, frames);
          PowersShow(frames[x.sequence]);
        }
      }
    }
  }

  /** What can happen to a stream: a packet, for which memory and the texture may or may not
      do, or a theme change that clears a spectrogram. */
  datatype Arrival = Arrives(chunk: Chunk, hasMemory: bool, textureOk: bool) | Cleared

  predicate Possible(x: Arrival, frames: map<int, Frame>) {
    x.Arrives? ==> Exists(x.chunk, frames)
  }

  /** Whatever is lost, repeated or reordered, and however often the stream is rejected or
      cleared in between, what it displays is always whole produced frames. */
  method ReceiveSpectra(s: SpectralStream, graphId: nat, streamId: nat, frames: map<int, Frame>,
                        arrivals: seq<Arrival>)
    requires s.Valid() && s.Model() == Empty && Produced(frames)
    requires s.assemblyBins == null && s.receivedBins == null && s.displayBins == null && s.history == null
    requires forall j :: 0 <= j < |arrivals| ==> Possible(arrivals[j], frames)
    modifies s
    ensures s.Valid() && Intact(s.Model(), frames) && s.ShowsWholeFrames(frames)
  {
    hide SpectralStream.BinsInv, SpectralStream.DisplayInv, Intact, Receive, SpectralStream.Valid;
    NothingIsIntact(frames);
    for j := 0 to |arrivals|
      invariant s.Valid() && Intact(s.Model(), frames)
      invariant s.assemblyBins == null || fresh(s.assemblyBins)
      invariant s.receivedBins == null || fresh(s.receivedBins)
      invariant s.displayBins == null || fresh(s.displayBins)
      invariant s.history == null || fresh(s.history)
    {
      match arrivals[j] {
        case Cleared => s.Clear();
        case Arrives(c, hasMemory, textureOk) =>
          assert Possible(arrivals[j], frames);
          var packet := PacketOf(graphId, streamId, frames, c);
          ReceiveKeepsIntact(s.Model(), graphId, streamId, frames, c);
          s.ProcessSpectral(packet, DatagramSize(packet), hasMemory, textureOk);
      }
    }
    s.IntactIsShown(frames);
  }

  lemma NothingIsIntact(frames: map<int, Frame>)
    ensures Intact(Empty, frames)
  {
  }
}
