/** Fixed-size histories: a ring that always holds the newest entries, oldest first. */
module HistoryRing {
  import opened Samples
  import Modulo

  /** Where the `k`-th oldest of `valid` entries lies when the next goes to `write`. */
  function Slot(capacity: nat, write: nat, valid: nat, k: nat): int {
    var at := write + k - valid;
    if at < 0 then at + capacity else at
  }

  /** `ring` holds exactly the last `min(|all|, capacity)` entries of `all`. */
  predicate Holds<T(==)>(ring: seq<T>, write: nat, valid: nat, all: seq<T>) {
    && |ring| > 0 && write < |ring|
    && valid == Min(|all|, |ring|)
    && (valid < |ring| ==> write == valid)
    && forall k {:trigger Slot(|ring|, write, valid, k)} :: 0 <= k < valid ==>
         ring[Slot(|ring|, write, valid, k)] == all[|all| - valid + k]
  }

  /** One append: the entry replaces the oldest once the ring is full. */
  lemma Push<T>(ring: seq<T>, write: nat, valid: nat, all: seq<T>, x: T)
    requires Holds(ring, write, valid, all)
    ensures Holds(ring[write := x], (write + 1) % |ring|,
                  if valid < |ring| then valid + 1 else valid, all + [x])
  {
    var n := |ring|;
    Modulo.Small(write + 1, n);
    var write' := (write + 1) % n;
    var valid' := if valid < n then valid + 1 else valid;
    forall k | 0 <= k < valid'
      ensures ring[write := x][Slot(n, write', valid', k)] == (all + [x])[|all| + 1 - valid' + k]
    {
      if k < valid' - 1 {
        var j := if valid < n then k else k + 1;
        assert Slot(n, write, valid, j) == Slot(n, write', valid', k);
        assert ring[Slot(n, write, valid, j)] == all[|all| - valid + j];
      }
    }
  }

  /** Where the point trail reads its `i`-th point. */
  function ReadSlot(capacity: nat, write: nat, valid: nat, i: nat): nat
    requires capacity > 0 && valid <= capacity
  {
    ((write + capacity - valid) % capacity + i) % capacity
  }

  lemma ReadSlotIsSlot(capacity: nat, write: nat, valid: nat, i: nat)
    requires write < capacity && i < valid <= capacity
    ensures ReadSlot(capacity, write, valid, i) == Slot(capacity, write, valid, i) < capacity
  {
    Modulo.Small(write + capacity - valid, capacity);
    Modulo.Small((write + capacity - valid) % capacity + i, capacity);
  }

  /** Reading from there onwards lists the newest entries, oldest first, each slot once. */
  lemma ReadOrder<T>(ring: seq<T>, write: nat, valid: nat, all: seq<T>, i: nat)
    requires Holds(ring, write, valid, all) && i < valid
    ensures ReadSlot(|ring|, write, valid, i) < |ring|
    ensures ring[ReadSlot(|ring|, write, valid, i)] == Last(all, valid)[i]
    ensures forall j: nat {:trigger Slot(|ring|, write, valid, j)} :: j < valid && j != i ==>
      Slot(|ring|, write, valid, j) != ReadSlot(|ring|, write, valid, i)
  {
    ReadSlotIsSlot(|ring|, write, valid, i);
    assert ring[Slot(|ring|, write, valid, i)] == all[|all| - valid + i];
  }

  /** The stretches of the spectrogram texture that are drawn, left to right. */
  function Segments<T>(ring: seq<T>, write: nat, valid: nat): seq<T>
    requires write < |ring| && valid <= |ring|
  {
    if valid < |ring| then ring[..valid] else ring[write..] + ring[..write]
  }

  /** Drawing one stretch, or two when the ring has wrapped, shows exactly the newest
      entries in order. */
  lemma SegmentsInOrder<T>(ring: seq<T>, write: nat, valid: nat, all: seq<T>)
    requires Holds(ring, write, valid, all)
    ensures Segments(ring, write, valid) == Last(all, valid)
  {
    var n := |ring|;
    forall k | 0 <= k < valid
      ensures Segments(ring, write, valid)[k] == Last(all, valid)[k]
    {
      assert ring[Slot(n, write, valid, k)] == all[|all| - valid + k];
    }
  }
}
