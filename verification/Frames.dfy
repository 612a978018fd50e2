/** Spectral frames and how the plugin cuts them into packets. */
module Frames {
  import opened Samples
  import opened Wire

  /** One analysis frame, with the power of each of its `fftSize / 2 + 1` bins. */
  datatype Frame = Frame(sequence: int, frameId: nat, fftSize: nat, hopSize: nat, rate: nat,
                         powers: seq<Float>)

  predicate WholeFrame(frame: Frame) {
    |frame.powers| == frame.fftSize / 2 + 1
  }

  function ChunkCount(total: nat): nat {
    (total + MAX_SPECTRAL_BINS - 1) / MAX_SPECTRAL_BINS
  }

  /** Chunk `k` of a frame. */
  function FramePacket(graphId: nat, streamId: nat, frame: Frame, k: nat): Packet
    requires k < ChunkCount(|frame.powers|)
  {
    var offset := k * MAX_SPECTRAL_BINS;
    var count := Min(|frame.powers| - offset, MAX_SPECTRAL_BINS);
    Spectral(Header(WATCH_MAGIC, PROT_VERSION, SpectralData, frame.sequence,
                    SPECTRAL_PREFIX + count * FLOAT_SIZE),
             graphId, streamId, frame.frameId, frame.fftSize, frame.hopSize, frame.rate,
             offset, |frame.powers|, frame.powers[offset..offset + count])
  }

  /** The first `n` chunks of a frame, in order. */
  function FramePackets(graphId: nat, streamId: nat, frame: Frame, n: nat): (r: seq<Packet>)
    requires n <= ChunkCount(|frame.powers|)
    ensures |r| == n
  {
    seq(n, k requires 0 <= k < n => FramePacket(graphId, streamId, frame, k))
  }
}
