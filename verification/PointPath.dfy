/** From the opcode that offers a point to the trail the viewer draws. */
module PointPath {
  import opened Samples
  import opened Wire
  import opened Items
  import opened StreamRing
  import opened StreamRuns
  import opened WireAgreement
  import opened Points
  import opened EndToEnd

  /** What is shown for an offered coordinate. */
  predicate Coordinate(offered: Float, shown: real) {
    if offered.Finite? then shown == offered.value else shown == 0.0
  }

  /** A pair was offered at this position, and the point shows its first float as x and its
      second as y. */
  predicate OfferedPoint(log: seq<Logged>, position: int, point: Point) {
    exists j :: 0 <= j < |log| && ShowsPair(log[j].item, position, point)
  }

  predicate ShowsPair(item: Item, position: int, point: Point) {
    && item.position == position && |item.cell| == 2
    && Coordinate(item.cell[0], point.x) && Coordinate(item.cell[1], point.y)
  }

  /** A run of a point stream. */
  predicate PointRun(p: Params, states: seq<Ring>, actions: seq<StreamRing.Action>, k: nat) {
    TimeRun(p, states, actions, k) && p.kind == PointData
  }

  /** The `i`-th point of a packet is the `i`-th pair of floats. */
  lemma PointIsPair(samples: seq<Float>, n: nat, i: nat)
    requires 2 * n <= |samples| && i < n
    ensures var pair, point := Cell(samples, 2, i), PacketPoints(samples, n)[i];
      |pair| == 2 && Coordinate(pair[0], point.x) && Coordinate(pair[1], point.y)
  {
    StrideOfSamples(i);
  }

  lemma SentPoint(p: Params, states: seq<Ring>, actions: seq<StreamRing.Action>, k: nat, w: nat, i: nat)
    requires PointRun(p, states, actions, k) && w < |states[k].wire|
    requires i < states[k].wire[w].sampleCount
    ensures var packet := states[k].wire[w];
      && 2 * packet.sampleCount <= |packet.samples|
      && OfferedPoint(states[k].log, packet.header.sequence + i,
                      PacketPoints(packet.samples, packet.sampleCount)[i])
  {
    var packet := states[k].wire[w];
    SentIsSealed(p, states, actions, k, w);
    StrideOfSamples(packet.sampleCount);
    PointIsPair(packet.samples, packet.sampleCount, i);
    WireIsFaithful(p, states, actions, k, w, i);
    var item := Item(packet.header.sequence + i, Cell(packet.samples, 2, i));
    var j :| 0 <= j < |states[k].log| && states[k].log[j].item == item;
    hide Cell, PacketPoints, Coordinate;
    assert ShowsPair(states[k].log[j].item, item.position, PacketPoints(packet.samples, packet.sampleCount)[i]);
  }

  // ---------------------------------------------------------------- what packets hold

  predicate PointPackets(packets: seq<Packet>) {
    forall j :: 0 <= j < |packets| ==> packets[j].Time? && 2 * packets[j].sampleCount <= |packets[j].samples|
  }

  /** The points of some packets, one after the other. */
  function PointsIn(packets: seq<Packet>): seq<Point>
    requires PointPackets(packets)
  {
    if packets == [] then []
    else
      var last := packets[|packets| - 1];
      PointsIn(packets[..|packets| - 1]) + PacketPoints(last.samples, last.sampleCount)
  }

  /** The positions those points were stamped with. */
  function PositionsIn(packets: seq<Packet>): (r: seq<int>)
    requires PointPackets(packets)
    ensures |r| == |PointsIn(packets)|
  {
    if packets == [] then []
    else
      var last := packets[|packets| - 1];
      PositionsIn(packets[..|packets| - 1])
        + seq(last.sampleCount, i requires 0 <= i < last.sampleCount => last.header.sequence + i)
  }

  /** Every point of the packet was offered at its own position. */
  predicate PacketOffered(log: seq<Logged>, packet: Packet)
    requires packet.Time? && 2 * packet.sampleCount <= |packet.samples|
  {
    forall i :: 0 <= i < packet.sampleCount ==>
      OfferedPoint(log, packet.header.sequence + i, PacketPoints(packet.samples, packet.sampleCount)[i])
  }

  lemma {:induction false} AllOffered(log: seq<Logged>, packets: seq<Packet>, j: nat)
    requires PointPackets(packets) && j < |PointsIn(packets)|
    requires forall w :: 0 <= w < |packets| ==> PacketOffered(log, packets[w])
    ensures OfferedPoint(log, PositionsIn(packets)[j], PointsIn(packets)[j])
  {
    hide OfferedPoint, PacketPoints;
    var init, last := packets[..|packets| - 1], packets[|packets| - 1];
    var before := |PointsIn(init)|;
    if j < before {
      AllOffered(log, init, j);
    } else {
      assert PacketOffered(log, last);
      assert PointsIn(packets)[j] == PacketPoints(last.samples, last.sampleCount)[j - before];
    }
  }

  /** Packets that cover stretches in order stamp their points in order. */
  lemma {:induction false} PositionsRise(packets: seq<Packet>, i: nat, j: nat)
    requires PointPackets(packets) && i < j < |PositionsIn(packets)|
    requires forall a, b :: 0 <= a < b < |packets| ==>
      packets[a].header.sequence + packets[a].sampleCount <= packets[b].header.sequence
    ensures PositionsIn(packets)[i] < PositionsIn(packets)[j]
  {
    var init, last := packets[..|packets| - 1], packets[|packets| - 1];
    if j < |PositionsIn(init)| {
      PositionsRise(init, i, j);
    } else if i < |PositionsIn(init)| {
      var a := PacketOfPosition(init, i);
      assert init[a] == packets[a];
    }
  }

  lemma {:induction false} PacketOfPosition(packets: seq<Packet>, i: nat) returns (a: nat)
    requires PointPackets(packets) && i < |PositionsIn(packets)|
    ensures a < |packets|
    ensures PositionsIn(packets)[i] < packets[a].header.sequence + packets[a].sampleCount
  {
    var init := packets[..|packets| - 1];
    if i < |PositionsIn(init)| {
      a := PacketOfPosition(init, i);
    } else {
      a := |packets| - 1;
    }
  }

  // ---------------------------------------------------------------- the viewer's loop

  /** A point packet of a stream of this rate, as it comes off the socket. */
  predicate ReceivablePoint(packet: Packet, rate: real) {
    && packet.Time? && |packet.samples| == MAX_STREAM_SAMPLES
    && packet.sampleRate == Finite(rate)
    && ValidatePoint(packet, DatagramSize(packet))
  }

  ghost predicate Holding(trail: PointTrail, packets: seq<Packet>, rate: real)
    reads trail
  {
    && PointPackets(packets) && trail.all == PointsIn(packets) && !trail.unsupported
    && (packets != [] ==> trail.coordinates != null && trail.capacity == PointTrailCapacity(rate))
    && (packets == [] ==> trail.coordinates == null)
  }

  lemma PointsSnoc(packets: seq<Packet>, packet: Packet)
    requires PointPackets(packets) && packet.Time? && 2 * packet.sampleCount <= |packet.samples|
    ensures PointPackets(packets + [packet])
    ensures PointsIn(packets + [packet]) == PointsIn(packets) + PacketPoints(packet.samples, packet.sampleCount)
  {
    assert (packets + [packet])[..|packets|] == packets;
  }

  /** A fresh trail that is given the packets one by one holds their points, in order. */
  method ReceivePoints(trail: PointTrail, packets: seq<Packet>, rate: real)
    requires trail.Valid() && trail.coordinates == null && trail.all == [] && !trail.unsupported
    requires forall j :: 0 <= j < |packets| ==> ReceivablePoint(packets[j], rate)
    modifies trail
    ensures trail.Valid() && Holding(trail, packets, rate)
  {
    ghost var done: seq<Packet> := [];
    for j := 0 to |packets|
      invariant trail.Valid() && done == packets[..j] && Holding(trail, done, rate)
      invariant trail.coordinates == null || fresh(trail.coordinates)
    {
      ReceivePoint(trail, done, packets[j], rate);
      done := done + [packets[j]];
    }
    assert done == packets;
  }

  method ReceivePoint(trail: PointTrail, ghost done: seq<Packet>, packet: Packet, rate: real)
    requires trail.Valid() && Holding(trail, done, rate) && ReceivablePoint(packet, rate)
    modifies trail, trail.coordinates
    ensures trail.Valid() && Holding(trail, done + [packet], rate)
    ensures trail.coordinates == old(trail.coordinates) || fresh(trail.coordinates)
  {
    PointsSnoc(done, packet);
    hide PointsIn, PacketPoints, PointTrail.RingInv, PointTrailCapacity;
    var accepted := trail.ProcessPoints(packet, DatagramSize(packet), true);
    assert accepted;
  }

  lemma PickedPoints(p: Params, states: seq<Ring>, actions: seq<StreamRing.Action>, k: nat, order: seq<nat>)
    requires PointRun(p, states, actions, k) && Identified(p) && PositiveRate(p.sampleRate)
    requires forall j :: 0 <= j < |states[k].log| ==> states[k].log[j].item.position >= 0
    requires forall j :: 0 <= j < |order| ==> order[j] < |states[k].wire|
    ensures var packets := Picked(states[k].wire, order);
      && PointPackets(packets)
      && forall j :: 0 <= j < |packets| ==>
           ReceivablePoint(packets[j], p.sampleRate.value) && PacketOffered(states[k].log, packets[j])
  {
    forall j | 0 <= j < |order|
      ensures var packet := states[k].wire[order[j]];
        && ReceivablePoint(packet, p.sampleRate.value) && 2 * packet.sampleCount <= |packet.samples|
        && PacketOffered(states[k].log, packet)
    {
      PickedPoint(p, states, actions, k, order[j]);
    }
  }

  lemma PickedPoint(p: Params, states: seq<Ring>, actions: seq<StreamRing.Action>, k: nat, w: nat)
    requires PointRun(p, states, actions, k) && Identified(p) && PositiveRate(p.sampleRate)
    requires forall j :: 0 <= j < |states[k].log| ==> states[k].log[j].item.position >= 0
    requires w < |states[k].wire|
    ensures var packet := states[k].wire[w];
      && ReceivablePoint(packet, p.sampleRate.value) && 2 * packet.sampleCount <= |packet.samples|
      && PacketOffered(states[k].log, packet)
  {
    var packet := states[k].wire[w];
    SentIsSealed(p, states, actions, k, w);
    EverySentPacketIsAccepted(p, states, actions, k, w);
    assert packet.header.kind == PointData;
    forall i: nat | i < packet.sampleCount
      ensures 2 * packet.sampleCount <= |packet.samples|
      ensures OfferedPoint(states[k].log, packet.header.sequence + i,
                           PacketPoints(packet.samples, packet.sampleCount)[i])
    {
      SentPoint(p, states, actions, k, w, i);
    }
    SentPoint(p, states, actions, k, w, 0);
  }

  /** What is drawn of the packets a fresh viewer is given. */
  method DrawPoints(packets: seq<Packet>, rate: real) returns (drawn: seq<Point>)
    requires forall j :: 0 <= j < |packets| ==> ReceivablePoint(packets[j], rate)
    ensures PointPackets(packets)
    ensures |drawn| == Min(|PointsIn(packets)|, PointTrailCapacity(rate))
    ensures drawn == Last(PointsIn(packets), |drawn|)
  {
    hide PointsIn, PointTrailCapacity, PointTrail.RingInv, ReceivablePoint;
    var trail := new PointTrail();
    ReceivePoints(trail, packets, rate);
    drawn := trail.ReadTrail();
    NothingDrawn(packets);
  }

  lemma NothingDrawn(packets: seq<Packet>)
    requires PointPackets(packets)
    ensures packets == [] ==> PointsIn(packets) == []
  {
  }

  predicate Rises(xs: seq<int>) {
    forall i, j :: 0 <= i < j < |xs| ==> xs[i] < xs[j]
  }

  /** The whole way: the packets of any run of a point stream, lost, repeated and reordered
      at will, reach a fresh viewer, and its trail is drawn. Every point drawn is the pair
      offered at the position it was stamped with, the newest points that arrived are drawn
      in the order they arrived, and with loss alone that is the order they were offered. */
  method ReadPoints(ghost p: Params, ghost states: seq<Ring>, ghost actions: seq<StreamRing.Action>,
                    ghost k: nat, ghost order: seq<nat>, packets: seq<Packet>, rate: real)
    returns (drawn: seq<Point>, ghost positions: seq<int>)
    requires PointRun(p, states, actions, k) && Identified(p) && p.sampleRate == Finite(rate) && rate > 0.0
    requires forall j :: 0 <= j < |states[k].log| ==> states[k].log[j].item.position >= 0
    requires forall j :: 0 <= j < |order| ==> order[j] < |states[k].wire|
    requires packets == Picked(states[k].wire, order)
    ensures PointPackets(packets)
    ensures |drawn| == Min(|PositionsIn(packets)|, PointTrailCapacity(rate))
    ensures positions == Last(PositionsIn(packets), |drawn|)
    ensures forall j :: 0 <= j < |drawn| ==> OfferedPoint(states[k].log, positions[j], drawn[j])
    ensures Rises(order) ==> Rises(positions)
  {
    PickedPoints(p, states, actions, k, order);
    hide PointRun, ReceivablePoint, PacketOffered, OfferedPoint, PointsIn, PositionsIn, Rises, PointTrailCapacity;
    drawn := DrawPoints(packets, rate);
    positions := Last(PositionsIn(packets), |drawn|);
    DrawnIsOffered(states[k].log, packets, drawn);
    InOrderRises(p, states, actions, k, order, |drawn|);
  }

  lemma DrawnIsOffered(log: seq<Logged>, packets: seq<Packet>, drawn: seq<Point>)
    requires PointPackets(packets) && forall w :: 0 <= w < |packets| ==> PacketOffered(log, packets[w])
    requires |drawn| <= |PointsIn(packets)| && drawn == Last(PointsIn(packets), |drawn|)
    ensures forall j :: 0 <= j < |drawn| ==>
      OfferedPoint(log, Last(PositionsIn(packets), |drawn|)[j], drawn[j])
  {
    hide PacketOffered, OfferedPoint, PointsIn, PositionsIn;
    forall j | 0 <= j < |drawn|
      ensures OfferedPoint(log, Last(PositionsIn(packets), |drawn|)[j], drawn[j])
    {
      AllOffered(log, packets, |PointsIn(packets)| - |drawn| + j);
    }
  }

  lemma InOrderRises(p: Params, states: seq<Ring>, actions: seq<StreamRing.Action>, k: nat, order: seq<nat>, n: nat)
    requires PointRun(p, states, actions, k)
    requires forall j :: 0 <= j < |order| ==> order[j] < |states[k].wire|
    requires PointPackets(Picked(states[k].wire, order)) && n <= |PositionsIn(Picked(states[k].wire, order))|
    ensures Rises(order) ==> Rises(Last(PositionsIn(Picked(states[k].wire, order)), n))
  {
    if Rises(order) {
      var packets := Picked(states[k].wire, order);
      forall a, b | 0 <= a < b < |packets|
        ensures packets[a].header.sequence + packets[a].sampleCount <= packets[b].header.sequence
      {
        SentRises(p, states, actions, k, order[a], order[b]);
      }
      LastRise(packets, n);
    }
  }

  lemma LastRise(packets: seq<Packet>, n: nat)
    requires PointPackets(packets) && n <= |PositionsIn(packets)|
    requires forall a, b :: 0 <= a < b < |packets| ==>
      packets[a].header.sequence + packets[a].sampleCount <= packets[b].header.sequence
    ensures Rises(Last(PositionsIn(packets), n))
  {
    hide PositionsIn;
    var positions, skip := Last(PositionsIn(packets), n), |PositionsIn(packets)| - n;
    forall i, j | 0 <= i < j < n
      ensures positions[i] < positions[j]
    {
      PositionsRise(packets, skip + i, skip + j);
    }
  }
}
