/** The trail of a moving point. */
module Points {
  import opened Samples
  import opened Wire
  import opened HistoryRing

  const POINT_TRAIL_MAX_SAMPLES: nat := 16384

  /** The single-precision value nearest to a tenth. */
  const POINT_TRAIL_SECONDS: real := 13421773.0 / 134217728.0

  datatype Point = Point(x: real, y: real)

  /** `point_trail_capacity`: the fewest points that last a tenth of a second, within fixed
      bounds. */
  function PointTrailCapacity(sampleRate: real): (n: nat)
    ensures 2 <= n <= POINT_TRAIL_MAX_SAMPLES
    ensures n < POINT_TRAIL_MAX_SAMPLES ==> POINT_TRAIL_SECONDS * sampleRate <= n as real
    ensures n > 2 ==> (n - 1) as real < POINT_TRAIL_SECONDS * sampleRate
  {
    var samples := Ceil(POINT_TRAIL_SECONDS * sampleRate);
    if samples < 2 then 2
    else if samples > POINT_TRAIL_MAX_SAMPLES then POINT_TRAIL_MAX_SAMPLES
    else samples
  }

  /** The points a packet carries, two interleaved floats each. */
  function PacketPoints(samples: seq<Float>, n: nat): (r: seq<Point>)
    requires 2 * n <= |samples|
    ensures |r| == n
  {
    seq(n, i requires 0 <= i < n => Point(Sanitize(samples[2 * i]), Sanitize(samples[2 * i + 1])))
  }

  /** The ring slots as points. */
  function AsPoints(coordinates: seq<real>): (r: seq<Point>)
    ensures |r| == |coordinates| / 2
  {
    seq(|coordinates| / 2, i requires 0 <= i < |coordinates| / 2 =>
      Point(coordinates[2 * i], coordinates[2 * i + 1]))
  }

  lemma PutPair(coordinates: seq<real>, at: nat, point: Point)
    requires 2 * at + 1 < |coordinates|
    ensures AsPoints(coordinates[2 * at := point.x][2 * at + 1 := point.y])
      == AsPoints(coordinates)[at := point]
  {
  }

  class PointTrail {
    var coordinates: array?<real>
    var capacity: nat
    var writeIndex: nat
    var validPoints: nat
    var sampleRate: real
    var unsupported: bool
    ghost var all: seq<Point>

    ghost predicate RingInv()
      reads this`coordinates, this`capacity, this`writeIndex, this`validPoints, this`all, coordinates
    {
      && coordinates != null && capacity > 0 && coordinates.Length == 2 * capacity
      && Holds(AsPoints(coordinates[..]), writeIndex, validPoints, all)
    }

    ghost predicate Valid()
      reads this, coordinates
    {
      && (coordinates == null ==> validPoints == 0 && all == [])
      && (coordinates != null ==> RingInv() && !unsupported)
    }

    constructor ()
      ensures Valid() && coordinates == null && !unsupported && all == []
    {
      coordinates, capacity, writeIndex, validPoints, sampleRate, unsupported := null, 0, 0, 0, 0.0, false;
      all := [];
    }

    method AppendPoint(x: Float, y: Float)
      requires RingInv()
      modifies this`writeIndex, this`validPoints, this`all, coordinates
      ensures RingInv() && all == old(all) + [Point(Sanitize(x), Sanitize(y))]
    {
      ghost var point := Point(Sanitize(x), Sanitize(y));
      Push(AsPoints(coordinates[..]), writeIndex, validPoints, all, point);
      hide AsPoints;
      StorePair(writeIndex, Sanitize(x), Sanitize(y));
      writeIndex := (writeIndex + 1) % capacity;
      if validPoints < capacity {
        validPoints := validPoints + 1;
      }
      all := all + [point];
    }

    method StorePair(at: nat, x: real, y: real)
      requires coordinates != null && 2 * at + 1 < coordinates.Length
      modifies coordinates
      ensures AsPoints(coordinates[..]) == AsPoints(old(coordinates[..]))[at := Point(x, y)]
    {
      PutPair(coordinates[..], at, Point(x, y));
      hide AsPoints;
      coordinates[2 * at] := x;
      coordinates[2 * at + 1] := y;
      assert coordinates[..] == old(coordinates[..])[2 * at := x][2 * at + 1 := y];
    }

    /** `ensure_point_buffer`: the trail survives a change of rate that needs the same room. */
    method EnsurePointBuffer(rate: real, hasMemory: bool) returns (ok: bool)
      requires Valid()
      modifies this
      ensures Valid() && sampleRate == rate && (ok <==> coordinates != null)
      ensures ok <==>
        && !old(unsupported && sampleRate == rate)
        && (hasMemory || old(coordinates != null && capacity == PointTrailCapacity(rate)))
      ensures ok ==> capacity == PointTrailCapacity(rate)
      ensures old(coordinates != null && capacity == PointTrailCapacity(rate)) ==>
        coordinates == old(coordinates) && all == old(all)
      ensures ok && !old(coordinates != null && capacity == PointTrailCapacity(rate)) ==>
        fresh(coordinates) && all == []
      ensures !ok ==> unsupported
    {
      if unsupported && sampleRate == rate {
        return false;
      }
      var room := PointTrailCapacity(rate);
      if coordinates != null && capacity == room {
        sampleRate := rate;
        return true;
      }
      coordinates, capacity, writeIndex, validPoints, unsupported := null, 0, 0, 0, false;
      all := [];
      sampleRate := rate;
      if !hasMemory {
        unsupported := true;
        return false;
      }
      coordinates := new real[2 * room](_ => 0.0);
      capacity := room;
      return true;
    }

    /** `process_point_packet`, once the graph is known to be a plane. */
    method ProcessPoints(packet: Packet, received: int, hasMemory: bool) returns (accepted: bool)
      requires Valid()
      requires packet.Time? ==> |packet.samples| == MAX_STREAM_SAMPLES
      modifies this, coordinates
      ensures Valid()
      ensures !ValidatePoint(packet, received) ==> !accepted && all == old(all)
      ensures accepted <==>
        && ValidatePoint(packet, received)
        && !old(unsupported && sampleRate == packet.sampleRate.value)
        && (hasMemory || old(coordinates != null && capacity == PointTrailCapacity(packet.sampleRate.value)))
      ensures accepted ==>
        var kept := old(coordinates != null && capacity == PointTrailCapacity(packet.sampleRate.value));
        all == (if kept then old(all) else []) + PacketPoints(packet.samples, packet.sampleCount)
      ensures accepted ==> coordinates != null && capacity == PointTrailCapacity(packet.sampleRate.value)
      ensures accepted ==> coordinates == old(coordinates) || fresh(coordinates)
    {
      if !ValidatePoint(packet, received) {
        return false;
      }
      accepted := EnsurePointBuffer(packet.sampleRate.value, hasMemory);
      if !accepted {
        return;
      }
      AppendPoints(packet.samples, packet.sampleCount);
    }

    method AppendPoints(samples: seq<Float>, n: nat)
      requires RingInv() && 2 * n <= |samples|
      modifies this`writeIndex, this`validPoints, this`all, coordinates
      ensures RingInv() && all == old(all) + PacketPoints(samples, n)
    {
      ghost var points := PacketPoints(samples, n);
      for i := 0 to n
        invariant RingInv() && all == old(all) + points[..i]
      {
        AppendPoint(samples[i * 2], samples[i * 2 + 1]);
      }
      assert points[..n] == points;
    }

    /** The read-out loop of `render_point` lists the last `validPoints` points, oldest
        first. */
    method ReadTrail() returns (trail: seq<Point>)
      requires Valid()
      ensures validPoints <= |all| && trail == Last(all, validPoints)
      ensures coordinates != null ==> |trail| == Min(|all|, capacity)
    {
      trail := [];
      if coordinates == null {
        return;
      }
      var first := (writeIndex + capacity - validPoints) % capacity;
      for i := 0 to validPoints
        invariant trail == Last(all, validPoints)[..i]
      {
        var point := ReadPoint(first, i);
        trail := trail + [point];
      }
    }

    method ReadPoint(first: nat, i: nat) returns (point: Point)
      requires RingInv() && i < validPoints
      requires first == (writeIndex + capacity - validPoints) % capacity
      ensures point == Last(all, validPoints)[i]
    {
      ghost var ring := AsPoints(coordinates[..]);
      ReadOrder(ring, writeIndex, validPoints, all, i);
      var at := (first + i) % capacity;
      assert at == ReadSlot(|ring|, writeIndex, validPoints, i);
      hide ReadSlot;
      var base := at * 2;
      point := Point(coordinates[base], coordinates[base + 1]);
      assert ring[at] == point;
    }
  }
}
