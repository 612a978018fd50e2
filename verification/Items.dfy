/** Offered samples: how they lie in a payload, and the log that says which were kept. */
module Items {
  import opened Samples
  import opened Wire

  /** One offered sample: its position on the timeline (or its bin) and its floats. */
  datatype Item = Item(position: int, cell: seq<Float>)

  /** An offered sample, and whether the producer kept it or counted it as dropped. */
  datatype Logged = Logged(item: Item, kept: bool)

  /** `i * f`, the float offset of sample `i`; recursive so that proofs stay linear. */
  function Stride(i: nat, f: nat): nat {
    if i == 0 then 0 else Stride(i - 1, f) + f
  }

  /** A payload as `Calloc` leaves it. */
  function Blank(): (r: seq<Float>)
    ensures |r| == MAX_STREAM_SAMPLES
  {
    seq(MAX_STREAM_SAMPLES, i => Finite(0.0))
  }

  /** The floats of sample `i` in an interleaved payload. */
  function Cell(samples: seq<Float>, f: nat, i: nat): seq<Float> {
    var at := Stride(i, f);
    if at + f <= |samples| then samples[at..at + f] else []
  }

  function Cells(samples: seq<Float>, f: nat, position: int, count: nat): (r: seq<Item>)
    ensures |r| == count
  {
    seq(count, i requires 0 <= i < count => Item(position + i, Cell(samples, f, i)))
  }

  function WriteAt(samples: seq<Float>, at: nat, cell: seq<Float>): (r: seq<Float>)
    ensures |r| == |samples|
  {
    if at + |cell| <= |samples| then samples[..at] + cell + samples[at + |cell|..] else samples
  }

  function PacketItems(f: nat, packet: Packet): seq<Item> {
    match packet
    case Time(h, _, _, _, count, samples) => Cells(samples, f, h.sequence, count)
    case Spectral(_, _, _, _, _, _, _, offset, _, bins) => Cells(bins, 1, offset, |bins|)
    case Meter(h, _, _, levels) => [Item(h.sequence, levels)]
    case Ftable(_, _, _, _, offset, _, chunk) => Cells(chunk, 1, offset, |chunk|)
  }

  function Flat(f: nat, packets: seq<Packet>): seq<Item> {
    if packets == [] then []
    else Flat(f, packets[..|packets| - 1]) + PacketItems(f, packets[|packets| - 1])
  }

  function Kept(log: seq<Logged>): seq<Item> {
    if log == [] then []
    else
      var last := log[|log| - 1];
      Kept(log[..|log| - 1]) + (if last.kept then [last.item] else [])
  }

  function Mark(items: seq<Item>, kept: bool): (r: seq<Logged>)
    ensures |r| == |items|
  {
    seq(|items|, i requires 0 <= i < |items| => Logged(items[i], kept))
  }

  lemma {:induction false} StrideIsProduct(i: nat, f: nat)
    ensures Stride(i, f) == i * f
  {
    if i > 0 {
      StrideIsProduct(i - 1, f);
    }
  }

  lemma {:induction false} StrideApart(i: nat, j: nat, f: nat)
    requires i < j
    ensures Stride(i, f) + f <= Stride(j, f)
  {
    if i + 1 < j {
      StrideApart(i, j - 1, f);
    }
  }

  lemma FlatSnoc(f: nat, packets: seq<Packet>, packet: Packet)
    ensures Flat(f, packets + [packet]) == Flat(f, packets) + PacketItems(f, packet)
  {
    assert (packets + [packet])[..|packets|] == packets;
  }

  lemma {:induction false} FlatAppend(f: nat, a: seq<Packet>, b: seq<Packet>)
    ensures Flat(f, a + b) == Flat(f, a) + Flat(f, b)
    decreases |b|
  {
    if b == [] {
      assert a + b == a;
    } else {
      var init, last := b[..|b| - 1], b[|b| - 1];
      SnocAppend(a, b);
      FlatAppend(f, a, init);
      FlatSnoc(f, a + init, last);
      hide Flat, PacketItems;
      FlatUnfold(f, b);
      Regroup(Flat(f, a + init), Flat(f, a), Flat(f, init), PacketItems(f, last));
    }
  }

  lemma FlatUnfold(f: nat, packets: seq<Packet>)
    requires packets != []
    ensures Flat(f, packets)
      == Flat(f, packets[..|packets| - 1]) + PacketItems(f, packets[|packets| - 1])
  {
  }

  lemma SnocAppend<T>(a: seq<T>, b: seq<T>)
    requires b != []
    ensures a + b == (a + b[..|b| - 1]) + [b[|b| - 1]]
  {
  }

  lemma Regroup<T>(ab: seq<T>, a: seq<T>, b: seq<T>, c: seq<T>)
    requires ab == a + b
    ensures ab + c == a + (b + c)
  {
  }

  lemma {:induction false} KeptMark(log: seq<Logged>, items: seq<Item>, kept: bool)
    ensures Kept(log + Mark(items, kept)) == Kept(log) + if kept then items else []
    decreases |items|
  {
    if items == [] {
      assert log + Mark(items, kept) == log;
    } else {
      var init, last := items[..|items| - 1], items[|items| - 1];
      KeptMark(log, init, kept);
      MarkSnoc(log, items, kept);
      KeptSnoc(log + Mark(init, kept), Logged(last, kept));
      hide Kept, Mark;
      if kept {
        SnocAppend(Kept(log), items);
      }
    }
  }

  lemma KeptSnoc(log: seq<Logged>, x: Logged)
    ensures Kept(log + [x]) == if x.kept then Kept(log) + [x.item] else Kept(log)
  {
    assert (log + [x])[..|log|] == log;
  }

  lemma MarkSnoc(log: seq<Logged>, items: seq<Item>, kept: bool)
    requires items != []
    ensures log + Mark(items, kept)
      == (log + Mark(items[..|items| - 1], kept)) + [Logged(items[|items| - 1], kept)]
  {
  }

  /** Replacing a stretch of a sequence leaves every stretch beside it alone. */
  lemma SliceBeside<T>(samples: seq<T>, at: nat, cell: seq<T>, lo: nat, hi: nat)
    requires at + |cell| <= |samples| && lo <= hi <= |samples|
    requires hi <= at || at + |cell| <= lo
    ensures (samples[..at] + cell + samples[at + |cell|..])[lo..hi] == samples[lo..hi]
  {
  }

  lemma SliceWritten<T>(samples: seq<T>, at: nat, cell: seq<T>)
    requires at + |cell| <= |samples|
    ensures (samples[..at] + cell + samples[at + |cell|..])[at..at + |cell|] == cell
  {
  }

  /** Writing cell `i` inside the payload changes that cell and no other. */
  lemma CellsAfterWrite(samples: seq<Float>, f: nat, i: nat, cell: seq<Float>, k: nat)
    requires |cell| == f && Stride(i, f) + f <= |samples|
    ensures Cell(WriteAt(samples, Stride(i, f), cell), f, k)
         == if k == i then cell else Cell(samples, f, k)
  {
    hide Cell, WriteAt, Stride;
    if k == i {
      CellWritten(samples, f, i, cell);
    } else {
      CellUnwritten(samples, f, i, cell, k);
    }
  }

  lemma CellUnwritten(samples: seq<Float>, f: nat, i: nat, cell: seq<Float>, k: nat)
    requires |cell| == f && Stride(i, f) + f <= |samples| && k != i
    ensures Cell(WriteAt(samples, Stride(i, f), cell), f, k) == Cell(samples, f, k)
  {
    if k < i { StrideApart(k, i, f); } else { StrideApart(i, k, f); }
    hide Stride, WriteAt;
    CellBeside(samples, Stride(i, f), cell, Stride(k, f));
  }

  lemma CellWritten(samples: seq<Float>, f: nat, i: nat, cell: seq<Float>)
    requires |cell| == f && Stride(i, f) + f <= |samples|
    ensures Cell(WriteAt(samples, Stride(i, f), cell), f, i) == cell
  {
    hide Stride;
    SliceWritten(samples, Stride(i, f), cell);
  }

  /** A cell that does not overlap the written one. */
  lemma CellBeside(samples: seq<Float>, at: nat, cell: seq<Float>, lo: nat)
    requires at + |cell| <= |samples| && (lo + |cell| <= at || at + |cell| <= lo)
    ensures lo + |cell| <= |samples| ==>
      WriteAt(samples, at, cell)[lo..lo + |cell|] == samples[lo..lo + |cell|]
  {
    if lo + |cell| <= |samples| {
      SliceBeside(samples, at, cell, lo, lo + |cell|);
    }
  }
}
