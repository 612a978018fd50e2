/** Minimum/maximum decimation: cutting samples into ranges without losing an extreme. */
module Extremes {
  import Modulo

  /** `[lo, hi)` */
  datatype Range = Range(lo: nat, hi: nat)

  predicate Holds(r: Range, i: int) {
    r.lo <= i < r.hi
  }

  /** One pixel column: the extent drawn, and the samples its neighbours connect to. */
  datatype Span = Span(minimum: real, maximum: real, first: real, last: real)

  predicate IsMin(m: real, s: seq<real>) {
    m in s && forall i :: 0 <= i < |s| ==> m <= s[i]
  }

  predicate IsMax(m: real, s: seq<real>) {
    m in s && forall i :: 0 <= i < |s| ==> s[i] <= m
  }

  predicate IsMinIn(m: real, s: seq<real>, r: Range) {
    r.lo < r.hi <= |s| && IsMin(m, s[r.lo..r.hi])
  }

  predicate IsMaxIn(m: real, s: seq<real>, r: Range) {
    r.lo < r.hi <= |s| && IsMax(m, s[r.lo..r.hi])
  }

  lemma ExtremesOne(x: real)
    ensures IsMin(x, [x]) && IsMax(x, [x])
  {
  }

  /** One more value: what the scanning loops do. */
  lemma ExtremesSnoc(lo: real, hi: real, s: seq<real>, x: real)
    requires IsMin(lo, s) && IsMax(hi, s)
    ensures IsMin(if x < lo then x else lo, s + [x]) && IsMax(if x > hi then x else hi, s + [x])
  {
    assert (s + [x])[|s|] == x;
    assert forall y :: y in s ==> y in s + [x];
  }

  // ---------------------------------------------------------------- range arithmetic

  /** Where bucket `b` of `count` begins among `n` elements. */
  function Boundary(b: nat, n: nat, count: nat): nat
    requires count > 0
  {
    (b * n) / count
  }

  function Bucket(b: nat, n: nat, count: nat): Range
    requires count > 0
  {
    Range(Boundary(b, n, count), Boundary(b + 1, n, count))
  }

  /** A column of the renderer: never empty, even when there are more columns than buckets. */
  function Column(c: nat, n: nat, count: nat): Range
    requires count > 0
  {
    var r := Bucket(c, n, count);
    if r.hi <= r.lo then Range(r.lo, r.lo + 1) else r
  }

  lemma BoundaryEnds(n: nat, count: nat)
    requires count > 0
    ensures Boundary(0, n, count) == 0 && Boundary(count, n, count) == n
  {
    Modulo.QuotientIs(count * n, n, count);
  }

  lemma BoundarySteps(b: nat, n: nat, count: nat)
    requires count > 0
    ensures Boundary(b, n, count) <= Boundary(b + 1, n, count)
    ensures n >= count ==> Boundary(b, n, count) < Boundary(b + 1, n, count)
  {
    assert (b + 1) * n == b * n + n;
    Modulo.QuotientGrows(b * n, n, count);
  }

  lemma {:induction false} BoundaryBelow(b: nat, n: nat, count: nat)
    requires b <= count && count > 0
    ensures Boundary(b, n, count) <= n
    decreases count - b
  {
    if b == count {
      BoundaryEnds(n, count);
    } else {
      BoundaryBelow(b + 1, n, count);
      BoundarySteps(b, n, count);
    }
  }

  lemma ColumnStartsInside(b: nat, n: nat, count: nat)
    requires b < count && n > 0
    ensures Boundary(b, n, count) < n
  {
    assert n * count == b * n + (count - b) * n;
    assert (count - b) * n == n + (count - b - 1) * n;
    Modulo.QuotientBelow(b * n, n, count);
  }

  /** Every bucket lies inside, and with at least as many elements as buckets none is empty. */
  lemma BucketInside(b: nat, n: nat, count: nat)
    requires b < count
    ensures var r := Bucket(b, n, count); r.lo <= r.hi <= n && (n >= count ==> r.lo < r.hi)
  {
    BoundarySteps(b, n, count);
    BoundaryBelow(b + 1, n, count);
  }

  lemma ColumnInside(c: nat, n: nat, count: nat)
    requires c < count && n > 0
    ensures var r := Column(c, n, count); r.lo < r.hi <= n
  {
    BucketInside(c, n, count);
    ColumnStartsInside(c, n, count);
  }

  /** The bucket an element belongs to, among the first `b`. */
  lemma {:induction false} BucketOf(i: nat, b: nat, n: nat, count: nat) returns (k: nat)
    requires count > 0 && b <= count && i < Boundary(b, n, count)
    ensures k < b && Boundary(k, n, count) <= i < Boundary(k + 1, n, count)
  {
    BoundaryEnds(n, count);
    if b > 0 && Boundary(b - 1, n, count) <= i {
      k := b - 1;
    } else {
      k := BucketOf(i, b - 1, n, count);
    }
  }

  // ---------------------------------------------------------------- what lies under a column

  /** Element `i` of `n` ends inside the `c`-th of `count` equal widths. */
  predicate EndsIn(i: int, c: int, n: int, count: int) {
    c * n < (i + 1) * count <= (c + 1) * n
  }

  /** Element `i` of `n` lies across the left edge of the `c`-th of `count` equal widths. */
  predicate LiesAt(i: int, c: int, n: int, count: int) {
    i * count <= c * n < (i + 1) * count
  }

  /** Where a bucket begins, without division. */
  lemma BoundaryIs(b: nat, n: nat, count: nat, i: int)
    requires count > 0 && i >= -1
    ensures Boundary(b, n, count) <= i <==> b * n < (i + 1) * count
  {
    var q := Boundary(b, n, count);
    Modulo.DivisionIs(b * n, count);
    if q <= i {
      Modulo.TimesGrows(q + 1, i + 1, count);
    } else {
      Modulo.TimesGrows(i + 1, q, count);
    }
  }

  /** The elements of a bucket are those that end inside it: the buckets are as equal as
      whole elements allow. */
  lemma BucketHolds(b: nat, n: nat, count: nat, i: nat)
    requires count > 0
    ensures Holds(Bucket(b, n, count), i) <==> EndsIn(i, b, n, count)
  {
    hide Boundary;
    BoundaryIs(b, n, count, i);
    BoundaryIs(b + 1, n, count, i);
  }

  /** With no more columns than buckets a column is a bucket of buckets; with more, it is the
      one bucket at its left edge. */
  lemma ColumnHolds(c: nat, n: nat, count: nat, b: nat)
    requires c < count && n > 0
    ensures Holds(Column(c, n, count), b) <==>
      if count <= n then EndsIn(b, c, n, count) else LiesAt(b, c, n, count)
  {
    hide Boundary;
    BoundarySteps(c, n, count);
    BucketHolds(c, n, count, b);
    if n < count {
      BoundaryIs(c, n, count, b);
      BoundaryStepsByOne(c, n, count);
      BoundaryIs(c, n, count, b - 1);
    }
  }

  lemma BoundaryStepsByOne(c: nat, n: nat, count: nat)
    requires n < count
    ensures Boundary(c + 1, n, count) <= Boundary(c, n, count) + 1
  {
    var q := Boundary(c, n, count);
    BoundaryIs(c, n, count, q);
    BoundaryIs(c + 1, n, count, q + 1);
    assert (q + 1 + 1) * count == (q + 1) * count + count;
    assert (c + 1) * n == c * n + n;
  }

  lemma {:induction false} BoundaryMonotone(a: nat, b: nat, n: nat, count: nat)
    requires a <= b && count > 0
    ensures Boundary(a, n, count) <= Boundary(b, n, count)
  {
    if a < b {
      BoundaryMonotone(a, b - 1, n, count);
      BoundarySteps(b - 1, n, count);
    }
  }

  /** The elements under column `c` of `columns`, when `n` elements are first gathered in
      `count` buckets. */
  function Under(c: nat, n: nat, count: nat, columns: nat): Range
    requires count > 0 && columns > 0
  {
    var r := Column(c, count, columns);
    Range(Boundary(r.lo, n, count), Boundary(r.hi, n, count))
  }

  /** An element is under a column exactly when its bucket is. */
  lemma UnderHolds(c: nat, n: nat, count: nat, columns: nat, i: nat)
    requires 0 < count <= n && c < columns && i < n
    ensures Holds(Under(c, n, count, columns), i) <==>
      exists b: nat :: b < count && EndsIn(i, b, n, count) && Holds(Column(c, count, columns), b)
  {
    hide Boundary;
    BoundaryEnds(n, count);
    var k := BucketOf(i, count, n, count);
    BucketHolds(k, n, count, i);
    var r := Column(c, count, columns);
    ColumnInside(c, count, columns);
    if k < r.lo {
      BoundaryMonotone(k + 1, r.lo, n, count);
    } else if r.hi <= k {
      BoundaryMonotone(r.hi, k, n, count);
    } else {
      BoundaryMonotone(r.lo, k, n, count);
      BoundaryMonotone(k + 1, r.hi, n, count);
      assert Holds(r, k) && EndsIn(i, k, n, count);
    }
    forall b: nat | b < count && EndsIn(i, b, n, count)
      ensures b == k
    {
      BucketHolds(b, n, count, i);
      if b < k {
        BoundaryMonotone(b + 1, k, n, count);
      } else if k < b {
        BoundaryMonotone(k + 1, b, n, count);
      }
    }
  }

  lemma UnderInside(c: nat, n: nat, count: nat, columns: nat)
    requires 0 < count <= n && c < columns
    ensures var r := Under(c, n, count, columns); r.lo < r.hi <= n
  {
    hide Boundary;
    var r := Column(c, count, columns);
    ColumnInside(c, count, columns);
    BoundarySteps(r.lo, n, count);
    BoundaryMonotone(r.lo + 1, r.hi, n, count);
    BoundaryBelow(r.hi, n, count);
  }

  // ---------------------------------------------------------------- covers

  predicate Inside(ranges: seq<Range>, n: nat) {
    forall c :: 0 <= c < |ranges| ==> ranges[c].lo < ranges[c].hi <= n
  }

  predicate Held(ranges: seq<Range>, i: int) {
    exists c :: 0 <= c < |ranges| && Holds(ranges[c], i)
  }

  /** Every range is a non-empty stretch of the `n` elements, and no element is left out. */
  predicate Cover(ranges: seq<Range>, n: nat) {
    && Inside(ranges, n)
    && forall i :: 0 <= i < n ==> Held(ranges, i)
  }

  /** Ranges in order, each starting where the one before it ends. */
  predicate Partition(ranges: seq<Range>, n: nat) {
    && Cover(ranges, n)
    && forall c :: 0 < c < |ranges| ==> ranges[c - 1].hi == ranges[c].lo
  }

  function Buckets(n: nat, count: nat): (r: seq<Range>)
    requires count > 0
    ensures |r| == count
  {
    seq(count, b requires 0 <= b < count => Bucket(b, n, count))
  }

  function Columns(n: nat, count: nat): (r: seq<Range>)
    requires count > 0
    ensures |r| == count
  {
    seq(count, c requires 0 <= c < count => Column(c, n, count))
  }

  lemma BucketsPartition(n: nat, count: nat)
    requires 1 <= count <= n
    ensures Partition(Buckets(n, count), n)
  {
    var ranges := Buckets(n, count);
    hide Boundary;
    forall b | 0 <= b < count ensures ranges[b].lo < ranges[b].hi <= n {
      BucketInside(b, n, count);
    }
    forall i | 0 <= i < n ensures Held(ranges, i) {
      BoundaryEnds(n, count);
      var k := BucketOf(i, count, n, count);
      assert Holds(ranges[k], i);
    }
  }

  /** The renderer's columns stay in bounds and reach every bucket, for any number of
      columns: fewer than there are buckets, or more. */
  lemma ColumnsCover(n: nat, count: nat)
    requires n > 0 && count > 0
    ensures Cover(Columns(n, count), n)
  {
    var ranges := Columns(n, count);
    hide Boundary;
    forall c | 0 <= c < count ensures ranges[c].lo < ranges[c].hi <= n {
      ColumnInside(c, n, count);
    }
    forall i | 0 <= i < n ensures Held(ranges, i) {
      BoundaryEnds(n, count);
      var k := BucketOf(i, count, n, count);
      assert Holds(ranges[k], i);
    }
  }

  /** With no more columns than buckets the columns too are a partition. */
  lemma ColumnsPartition(n: nat, count: nat)
    requires 1 <= count <= n
    ensures Partition(Columns(n, count), n)
  {
    hide Boundary, Partition;
    BucketsPartition(n, count);
    forall c | 0 <= c < count
      ensures Columns(n, count)[c] == Buckets(n, count)[c]
    {
      BucketInside(c, n, count);
    }
    assert Columns(n, count) == Buckets(n, count);
  }

  /** With more columns than buckets each is one bucket, and the buckets come in order, none
      left out. */
  lemma ColumnsRepeat(n: nat, count: nat, c: nat)
    requires 0 < n < count && c + 1 < count
    ensures var r, next := Column(c, n, count), Column(c + 1, n, count);
      r.hi == r.lo + 1 && r.lo <= next.lo <= r.lo + 1
  {
    hide Boundary;
    BoundarySteps(c, n, count);
    BoundaryStepsByOne(c, n, count);
  }

  /** A bucket among those from `r.lo` to `r.hi` lies inside what they span. */
  lemma BucketWithin(b: nat, n: nat, count: nat, r: Range)
    requires count > 0 && Holds(r, b) && r.hi <= count
    ensures var bucket := Bucket(b, n, count);
      Boundary(r.lo, n, count) <= bucket.lo <= bucket.hi <= Boundary(r.hi, n, count) <= n
  {
    BoundaryMonotone(r.lo, b, n, count);
    BoundarySteps(b, n, count);
    BoundaryMonotone(b + 1, r.hi, n, count);
    BoundaryBelow(r.hi, n, count);
  }

  /** An element of what they span lies in one of them. */
  lemma BucketAmong(i: nat, n: nat, count: nat, r: Range) returns (b: nat)
    requires count > 0 && r.hi <= count && Boundary(r.lo, n, count) <= i < Boundary(r.hi, n, count)
    ensures Holds(r, b) && Holds(Bucket(b, n, count), i)
  {
    hide Boundary;
    b := BucketOf(i, r.hi, n, count);
    if b < r.lo {
      BoundaryMonotone(b + 1, r.lo, n, count);
    }
  }

  /** The least of some buckets' minima is the least element under those buckets. */
  lemma MinOverBuckets(s: seq<real>, mins: seq<real>, m: real, r: Range)
    requires 0 < |mins| <= |s| && r.hi <= |mins| && IsMinIn(m, mins, r)
    requires forall b :: 0 <= b < |mins| ==> IsMinIn(mins[b], s, Bucket(b, |s|, |mins|))
    ensures IsMinIn(m, s, Range(Boundary(r.lo, |s|, |mins|), Boundary(r.hi, |s|, |mins|)))
  {
    hide Boundary, IsMinIn;
    var n, count := |s|, |mins|;
    var stretch := Range(Boundary(r.lo, n, count), Boundary(r.hi, n, count));
    var k := FindMin(m, mins, r);
    var j := FindMin(mins[k], s, Bucket(k, n, count));
    BucketWithin(k, n, count, r);
    forall i | Holds(stretch, i) ensures m <= s[i] {
      var b := BucketAmong(i, n, count, r);
      var _ := FindMin(mins[b], s, Bucket(b, n, count));
      assert mins[b] <= s[i];
    }
    BucketWithin(r.hi - 1, n, count, r);
    MakeMin(m, s, stretch, j);
  }

  lemma FindMin(m: real, s: seq<real>, r: Range) returns (k: nat)
    requires IsMinIn(m, s, r)
    ensures r.hi <= |s| && Holds(r, k) && s[k] == m
    ensures forall i :: Holds(r, i) ==> m <= s[i]
  {
    var at :| 0 <= at < r.hi - r.lo && s[r.lo..r.hi][at] == m;
    k := r.lo + at;
    forall i | Holds(r, i) ensures m <= s[i] {
      assert s[r.lo..r.hi][i - r.lo] == s[i];
    }
  }

  lemma MakeMin(m: real, s: seq<real>, r: Range, k: nat)
    requires r.hi <= |s| && Holds(r, k) && s[k] == m
    requires forall i :: Holds(r, i) ==> m <= s[i]
    ensures IsMinIn(m, s, r)
  {
    assert s[r.lo..r.hi][k - r.lo] == m;
  }

  /** The greatest of some buckets' maxima is the greatest element under those buckets. */
  lemma MaxOverBuckets(s: seq<real>, maxs: seq<real>, m: real, r: Range)
    requires 0 < |maxs| <= |s| && r.hi <= |maxs| && IsMaxIn(m, maxs, r)
    requires forall b :: 0 <= b < |maxs| ==> IsMaxIn(maxs[b], s, Bucket(b, |s|, |maxs|))
    ensures IsMaxIn(m, s, Range(Boundary(r.lo, |s|, |maxs|), Boundary(r.hi, |s|, |maxs|)))
  {
    hide Boundary, IsMaxIn;
    var n, count := |s|, |maxs|;
    var stretch := Range(Boundary(r.lo, n, count), Boundary(r.hi, n, count));
    var k := FindMax(m, maxs, r);
    var j := FindMax(maxs[k], s, Bucket(k, n, count));
    BucketWithin(k, n, count, r);
    forall i | Holds(stretch, i) ensures s[i] <= m {
      var b := BucketAmong(i, n, count, r);
      var _ := FindMax(maxs[b], s, Bucket(b, n, count));
      assert s[i] <= maxs[b];
    }
    BucketWithin(r.hi - 1, n, count, r);
    MakeMax(m, s, stretch, j);
  }

  lemma FindMax(m: real, s: seq<real>, r: Range) returns (k: nat)
    requires IsMaxIn(m, s, r)
    ensures r.hi <= |s| && Holds(r, k) && s[k] == m
    ensures forall i :: Holds(r, i) ==> s[i] <= m
  {
    var at :| 0 <= at < r.hi - r.lo && s[r.lo..r.hi][at] == m;
    k := r.lo + at;
    forall i | Holds(r, i) ensures s[i] <= m {
      assert s[r.lo..r.hi][i - r.lo] == s[i];
    }
  }

  lemma MakeMax(m: real, s: seq<real>, r: Range, k: nat)
    requires r.hi <= |s| && Holds(r, k) && s[k] == m
    requires forall i :: Holds(r, i) ==> s[i] <= m
    ensures IsMaxIn(m, s, r)
  {
    assert s[r.lo..r.hi][k - r.lo] == m;
  }

  /** The least of the ranges' minima is the least element. */
  lemma MinOverCover(s: seq<real>, ranges: seq<Range>, mins: seq<real>, m: real)
    requires Cover(ranges, |s|) && |mins| == |ranges|
    requires forall c :: 0 <= c < |ranges| ==> IsMin(mins[c], s[ranges[c].lo..ranges[c].hi])
    requires IsMin(m, mins)
    ensures IsMin(m, s)
  {
    assert forall c :: 0 <= c < |ranges| ==> IsMinIn(mins[c], s, ranges[c]);
    assert forall c :: 0 <= c < |mins| ==> mins[c] >= m;
    hide IsMinIn;
    var k :| 0 <= k < |mins| && mins[k] == m;
    var j := FindMin(mins[k], s, ranges[k]);
    forall i | 0 <= i < |s| ensures m <= s[i] {
      assert Held(ranges, i);
      var c :| 0 <= c < |ranges| && Holds(ranges[c], i);
      var _ := FindMin(mins[c], s, ranges[c]);
    }
  }

  lemma MaxOverCover(s: seq<real>, ranges: seq<Range>, maxs: seq<real>, m: real)
    requires Cover(ranges, |s|) && |maxs| == |ranges|
    requires forall c :: 0 <= c < |ranges| ==> IsMax(maxs[c], s[ranges[c].lo..ranges[c].hi])
    requires IsMax(m, maxs)
    ensures IsMax(m, s)
  {
    assert forall c :: 0 <= c < |ranges| ==> IsMaxIn(maxs[c], s, ranges[c]);
    assert forall c :: 0 <= c < |maxs| ==> maxs[c] <= m;
    hide IsMaxIn;
    var k :| 0 <= k < |maxs| && maxs[k] == m;
    var j := FindMax(maxs[k], s, ranges[k]);
    forall i | 0 <= i < |s| ensures s[i] <= m {
      assert Held(ranges, i);
      var c :| 0 <= c < |ranges| && Holds(ranges[c], i);
      var _ := FindMax(maxs[c], s, ranges[c]);
    }
  }

  lemma MinIsUnique(a: real, b: real, s: seq<real>)
    requires IsMin(a, s) && IsMin(b, s)
    ensures a == b
  {
  }

  function Minima(columns: seq<Span>): (r: seq<real>)
    ensures |r| == |columns|
  {
    seq(|columns|, c requires 0 <= c < |columns| => columns[c].minimum)
  }

  function Maxima(columns: seq<Span>): (r: seq<real>)
    ensures |r| == |columns|
  {
    seq(|columns|, c requires 0 <= c < |columns| => columns[c].maximum)
  }

  lemma MaxIsUnique(a: real, b: real, s: seq<real>)
    requires IsMax(a, s) && IsMax(b, s)
    ensures a == b
  {
  }
}
