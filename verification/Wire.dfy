/** Datagram layouts, their byte sizes, and the viewer's validators. */
module Wire {
  import opened Samples

  const MAX_STREAM_SAMPLES: nat := 256
  const MAX_POINT_SAMPLES: nat := 128
  const MAX_SPECTRAL_BINS: nat := 256
  const MAX_STREAMS: nat := 64
  const MAX_METER_CHANNELS: nat := 32
  const MAX_FTABLE_SAMPLES: nat := 0x4000_0000
  const MAX_SPECTRAL_TOTAL_BINS: nat := 1048576
  const WATCH_PACKETS_PER_STREAM_PASS: nat := 8
  const INT_MAX: nat := 0x7fff_ffff
  const WATCH_MAGIC: nat := 0x57415448
  const PROT_VERSION: nat := 6

  // Byte layout: every header is 24 bytes, a float is 4.
  const HEADER_SIZE: nat := 24
  const FLOAT_SIZE: nat := 4
  const DATA_PREFIX: nat := 16      // offsetof(WATCH_MSG_DATA, samples)
  const METER_PREFIX: nat := 12     // offsetof(WATCH_MSG_METER_DATA, levels)
  const SPECTRAL_PREFIX: nat := 40  // offsetof(WATCH_MSG_SPECTRAL_DATA, bins)
  const FTABLE_PREFIX: nat := 24    // offsetof(WATCH_MSG_FTABLE_DATA, samples)

  datatype Kind = NoKind | Data | PointData | SpectralData | MeterData | FtableData

  datatype Header = Header(magic: nat, version: nat, kind: Kind, sequence: int, payloadSize: nat)

  /** One packet of a stream. `Time` carries audio, control and point samples:
      points are two interleaved floats, and `sampleCount` counts points. */
  datatype Packet =
    | Time(header: Header, graphId: nat, streamId: nat, sampleRate: Float,
           sampleCount: nat, samples: seq<Float>)
    | Spectral(header: Header, graphId: nat, streamId: nat, frameId: nat, fftSize: nat,
               hopSize: nat, rate: nat, binOffset: nat, totalBins: nat, bins: seq<Float>)
    | Meter(header: Header, graphId: nat, streamId: nat, levels: seq<Float>)
    | Ftable(header: Header, graphId: nat, streamId: nat, transferId: nat,
             sampleOffset: nat, totalSamples: nat, chunk: seq<Float>)

  /** What the sender's size switch allows for each packet type. */
  function MaxPayload(kind: Kind): nat {
    match kind
    case Data | PointData => DATA_PREFIX + MAX_STREAM_SAMPLES * FLOAT_SIZE
    case MeterData => METER_PREFIX + MAX_METER_CHANNELS * FLOAT_SIZE
    case SpectralData => SPECTRAL_PREFIX + MAX_SPECTRAL_BINS * FLOAT_SIZE
    case FtableData => FTABLE_PREFIX + MAX_STREAM_SAMPLES * FLOAT_SIZE
    case NoKind => 0
  }

  /** Bytes handed to the socket for a packet. */
  function DatagramSize(p: Packet): nat {
    HEADER_SIZE + p.header.payloadSize
  }

  predicate ValidateHeader(h: Header, received: int) {
    && received >= HEADER_SIZE
    && h.magic == WATCH_MAGIC
    && h.version == PROT_VERSION
    && HEADER_SIZE + h.payloadSize == received
  }

  predicate ValidStream(p: Packet) {
    p.header.sequence >= 0 && p.graphId != 0 && p.streamId < MAX_STREAMS
  }

  predicate ValidateData(p: Packet, received: int) {
    && p.Time?
    && ValidateHeader(p.header, received)
    && p.header.kind == Data
    && ValidStream(p)
    && p.sampleRate.Finite? && p.sampleRate.value > 0.0
    && 0 < p.sampleCount <= MAX_STREAM_SAMPLES
    && p.header.payloadSize == DATA_PREFIX + p.sampleCount * FLOAT_SIZE
  }

  predicate ValidatePoint(p: Packet, received: int) {
    && p.Time?
    && ValidateHeader(p.header, received)
    && p.header.kind == PointData
    && ValidStream(p)
    && p.sampleRate.Finite? && p.sampleRate.value > 0.0
    && 0 < p.sampleCount <= MAX_POINT_SAMPLES
    && p.header.payloadSize == DATA_PREFIX + p.sampleCount * 2 * FLOAT_SIZE
  }

  predicate ValidateSpectral(p: Packet, received: int) {
    && p.Spectral?
    && ValidateHeader(p.header, received)
    && p.header.kind == SpectralData
    && ValidStream(p)
    && p.rate != 0
    && p.fftSize != 0 && p.fftSize % 2 == 0
    && 0 < p.hopSize <= p.fftSize
    && 0 < |p.bins| <= MAX_SPECTRAL_BINS
    && p.totalBins <= MAX_SPECTRAL_TOTAL_BINS
    && p.totalBins == p.fftSize / 2 + 1
    && p.binOffset < p.totalBins
    && |p.bins| <= p.totalBins - p.binOffset
    && p.header.payloadSize == SPECTRAL_PREFIX + |p.bins| * FLOAT_SIZE
  }

  predicate ValidateMeter(p: Packet, received: int) {
    && p.Meter?
    && ValidateHeader(p.header, received)
    && p.header.kind == MeterData
    && ValidStream(p)
    && 0 < |p.levels| <= MAX_METER_CHANNELS
    && p.header.payloadSize == METER_PREFIX + |p.levels| * FLOAT_SIZE
  }

  predicate ValidateFtable(p: Packet, received: int) {
    && p.Ftable?
    && ValidateHeader(p.header, received)
    && p.header.kind == FtableData
    && ValidStream(p)
    && p.transferId != 0
    && 0 < |p.chunk| <= MAX_STREAM_SAMPLES
    && 0 < p.totalSamples <= MAX_FTABLE_SAMPLES
    && p.sampleOffset < p.totalSamples
    && p.sampleOffset % MAX_STREAM_SAMPLES == 0
    && |p.chunk| == Min(p.totalSamples - p.sampleOffset, MAX_STREAM_SAMPLES)
    && p.header.payloadSize == FTABLE_PREFIX + |p.chunk| * FLOAT_SIZE
  }
}
