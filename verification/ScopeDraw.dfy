/** Which samples of a time-domain stream are drawn, and how they are reduced to columns. */
module ScopeDraw {
  import opened Samples
  import opened Timeline
  import opened Extremes
  import opened DisplayClock

  /** A `double` converted to a 64-bit integer: rounded toward zero. */
  function Truncate(x: real): (r: int)
    ensures if x >= 0.0 then r as real <= x < (r + 1) as real else (r - 1) as real < x <= r as real
  {
    if x >= 0.0 then x.Floor else -((-x).Floor)
  }

  /** The drawn samples are `[first, first + count)`. */
  datatype Visible = Visible(first: int, count: nat)

  function VisibleAt(v: View, end: real): Option<Visible> {
    var oldest := v.next - v.valid;
    var displayEnd := Min(Truncate(end), v.next);
    if displayEnd <= oldest then None
    else
      var count := Min(displayEnd - oldest, v.window);
      if count == 0 then None else Some(Visible(displayEnd - count, count))
  }

  /** Nothing is visible exactly when the window is empty or the display end has not passed
      the oldest sample held. Otherwise what is visible ends at the display end, or at the
      newest sample if that comes first, and is a whole window or all there is before it. */
  lemma VisibleExactly(v: View, end: real)
    ensures var displayEnd, oldest := Min(Truncate(end), v.next), v.next - v.valid;
      && (VisibleAt(v, end) == None <==> v.window == 0 || displayEnd <= oldest)
      && (VisibleAt(v, end).Some? ==>
            var w := VisibleAt(v, end).value;
            && w.first + w.count == displayEnd
            && (w.count == v.window || (w.count < v.window && w.first == oldest)))
  {
  }

  /** Nothing is drawn that the ring does not hold, and never more than a window. */
  lemma VisibleIsHeld(v: View, end: real)
    requires VisibleAt(v, end).Some?
    ensures var w := VisibleAt(v, end).value;
      v.next - v.valid <= w.first && w.first + w.count <= v.next && 0 < w.count <= v.window
  {
  }

  /** Where the clock says a window is available, exactly one full window is drawn, and it
      ends at the display end. */
  lemma FullWindowIsDrawn(v: View, end: real)
    requires HasFullWindow(v) && v.window > 0
    requires FullWindowEnd(v) as real <= end <= v.next as real
    ensures VisibleAt(v, end) == Some(Visible(Truncate(end) - v.window, v.window))
  {
  }

  /** After any frame that satisfies the catch-up condition, every active stream with a
      full window is drawn with a full window. */
  lemma CaughtUpStreamsAreFull(c: Clock, views: seq<View>, scan: Scan, nowNs: nat, i: nat)
    requires Scanned(views, scan) && scan.rate > 0.0 && CatchUp(scan)
    requires c.started ==> c.lastNs <= nowNs && c.end <= scan.received as real
    requires i < |views| && HasFullWindow(views[i]) && views[i].window > 0
    ensures var w := VisibleAt(views[i], Advance(c, scan, nowNs).end);
      w.Some? && w.value.count == views[i].window
  {
    FrameIsSound(c, views, scan, nowNs);
    FullWindowIsDrawn(views[i], Advance(c, scan, nowNs).end);
  }

  // ---------------------------------------------------------------- drawing

  datatype Drawing =
    | Nothing
    | Polyline(samples: seq<real>)
    | Spans(columns: seq<Span>)

  /** The timeline's samples inside a visible stretch. */
  ghost function Shown(s: ScopeStream, w: Visible): (r: seq<real>)
    requires s.Valid() && s.hasSequence && s.buffer != null
    requires s.nextSequence - s.validSamples <= w.first && w.first + w.count <= s.nextSequence
    reads s, s.buffer
    ensures |r| == w.count
    ensures forall i :: 0 <= i < w.count ==> r[i] == s.history[w.first - s.start + i]
  {
    s.history[w.first - s.start..w.first - s.start + w.count]
  }

  /** `scope_display_sample` */
  method DisplaySample(s: ScopeStream, w: Visible, i: nat) returns (x: real)
    requires s.Valid() && s.hasSequence && s.buffer != null
    requires s.nextSequence - s.validSamples <= w.first && w.first + w.count <= s.nextSequence
    requires i < w.count
    ensures x == Shown(s, w)[i]
  {
    s.ReadBack(w.first, i);
    x := s.buffer[(s.ScopeBufferIndex(w.first) + i) % s.capacity];
  }

  method SpanOf(s: ScopeStream, w: Visible, r: Range) returns (minimum: real, maximum: real)
    requires s.Valid() && s.hasSequence && s.buffer != null
    requires s.nextSequence - s.validSamples <= w.first && w.first + w.count <= s.nextSequence
    requires r.lo < r.hi <= w.count
    ensures IsMin(minimum, Shown(s, w)[r.lo..r.hi]) && IsMax(maximum, Shown(s, w)[r.lo..r.hi])
  {
    hide *;
    ghost var shown := Shown(s, w);
    minimum := DisplaySample(s, w, r.lo);
    maximum := minimum;
    FirstOf(shown, r.lo);
    for i := r.lo + 1 to r.hi
      invariant IsMin(minimum, shown[r.lo..i]) && IsMax(maximum, shown[r.lo..i])
    {
      var x := DisplaySample(s, w, i);
      NextOf(shown, r.lo, i, minimum, maximum);
      if x < minimum {
        minimum := x;
      }
      if x > maximum {
        maximum := x;
      }
    }
  }

  lemma FirstOf(shown: seq<real>, lo: nat)
    requires lo < |shown|
    ensures IsMin(shown[lo], shown[lo..lo + 1]) && IsMax(shown[lo], shown[lo..lo + 1])
  {
    assert shown[lo..lo + 1] == [shown[lo]];
    ExtremesOne(shown[lo]);
  }

  lemma NextOf(shown: seq<real>, lo: nat, i: nat, minimum: real, maximum: real)
    requires lo < i < |shown| && IsMin(minimum, shown[lo..i]) && IsMax(maximum, shown[lo..i])
    ensures IsMin(if shown[i] < minimum then shown[i] else minimum, shown[lo..i + 1])
    ensures IsMax(if shown[i] > maximum then shown[i] else maximum, shown[lo..i + 1])
  {
    assert shown[lo..i + 1] == shown[lo..i] + [shown[i]];
    ExtremesSnoc(minimum, maximum, shown[lo..i], shown[i]);
  }

  /** The sample selection and column reduction of `draw_scope_stream`. Every column spans
      exactly its own stretch of the timeline, the stretches partition what is visible,
      and so no extreme is lost. */
  method DrawScope(s: ScopeStream, end: real, columnCount: nat) returns (drawing: Drawing)
    requires s.Valid()
    ensures drawing == Nothing <==>
      s.buffer == null || s.validSamples == 0 || VisibleAt(ViewOf(s), end) == None
    ensures drawing != Nothing ==>
      && s.buffer != null && s.hasSequence && VisibleAt(ViewOf(s), end).Some?
      && Shows(drawing, Shown(s, VisibleAt(ViewOf(s), end).value), columnCount)
    ensures drawing == Nothing <==>
      || s.buffer == null || s.validSamples == 0
      || Min(Truncate(end), s.nextSequence) <= s.nextSequence - s.validSamples
    ensures drawing != Nothing ==>
      var w := VisibleAt(ViewOf(s), end).value;
      && w.first + w.count == Min(Truncate(end), s.nextSequence)
      && (w.count == s.windowSamples
          || (w.count < s.windowSamples && w.first == s.nextSequence - s.validSamples))
  {
    VisibleExactly(ViewOf(s), end);
    if s.buffer == null || s.validSamples == 0 {
      return Nothing;
    }
    var visible := VisibleAt(ViewOf(s), end);
    if visible == None {
      return Nothing;
    }
    var w := visible.value;
    VisibleIsHeld(ViewOf(s), end);
    hide VisibleAt, Shows;
    if columnCount > 0 && w.count > columnCount * 2 {
      drawing := DrawColumns(s, w, columnCount);
    } else {
      var samples := AllSamples(s, w);
      drawing := Polyline(samples);
    }
  }

  method AllSamples(s: ScopeStream, w: Visible) returns (samples: seq<real>)
    requires s.Valid() && s.hasSequence && s.buffer != null
    requires s.nextSequence - s.validSamples <= w.first && w.first + w.count <= s.nextSequence
    ensures samples == Shown(s, w)
  {
    samples := [];
    for i := 0 to w.count
      invariant samples == Shown(s, w)[..i]
    {
      var x := DisplaySample(s, w, i);
      samples := samples + [x];
    }
    assert Shown(s, w)[..w.count] == Shown(s, w);
  }

  predicate IsSpan(span: Span, r: Range, shown: seq<real>) {
    && r.lo < r.hi <= |shown|
    && IsMin(span.minimum, shown[r.lo..r.hi]) && IsMax(span.maximum, shown[r.lo..r.hi])
    && span.first == shown[r.lo] && span.last == shown[r.hi - 1]
  }

  predicate AreSpans(columns: seq<Span>, ranges: seq<Range>, shown: seq<real>) {
    && |columns| == |ranges|
    && forall c :: 0 <= c < |columns| ==> IsSpan(columns[c], ranges[c], shown)
  }

  /** Columns over a cover keep the extremes of what they show. */
  lemma SpansKeepExtremes(columns: seq<Span>, ranges: seq<Range>, shown: seq<real>, lo: real, hi: real)
    requires Cover(ranges, |shown|) && AreSpans(columns, ranges, shown)
    requires IsMin(lo, Minima(columns)) && IsMax(hi, Maxima(columns))
    ensures IsMin(lo, shown) && IsMax(hi, shown)
  {
    assert forall c :: 0 <= c < |columns| ==> IsSpan(columns[c], ranges[c], shown);
    MinOverCover(shown, ranges, Minima(columns), lo);
    MaxOverCover(shown, ranges, Maxima(columns), hi);
  }

  /** What a drawing says about the visible samples. */
  ghost predicate Shows(d: Drawing, shown: seq<real>, columnCount: nat) {
    match d
    case Nothing => false
    case Polyline(samples) => samples == shown && (columnCount == 0 || |shown| <= columnCount * 2)
    case Spans(columns) =>
      && 0 < columnCount && columnCount * 2 < |shown|
      && Partition(Buckets(|shown|, columnCount), |shown|)
      && AreSpans(columns, Buckets(|shown|, columnCount), shown)
  }

  method DrawColumn(s: ScopeStream, w: Visible, r: Range) returns (span: Span)
    requires s.Valid() && s.hasSequence && s.buffer != null
    requires s.nextSequence - s.validSamples <= w.first && w.first + w.count <= s.nextSequence
    requires r.lo < r.hi <= w.count
    ensures IsSpan(span, r, Shown(s, w))
  {
    var minimum, maximum := SpanOf(s, w, r);
    var first := DisplaySample(s, w, r.lo);
    var last := DisplaySample(s, w, r.hi - 1);
    span := Span(minimum, maximum, first, last);
  }

  method DrawColumns(s: ScopeStream, w: Visible, columnCount: nat) returns (d: Drawing)
    requires s.Valid() && s.hasSequence && s.buffer != null
    requires s.nextSequence - s.validSamples <= w.first && w.first + w.count <= s.nextSequence
    requires 0 < columnCount && columnCount * 2 < w.count
    ensures d.Spans? && Shows(d, Shown(s, w), columnCount)
  {
    hide Boundary, IsSpan;
    ghost var shown := Shown(s, w);
    ghost var ranges := Buckets(w.count, columnCount);
    BucketsPartition(w.count, columnCount);
    var columns := [];
    for c := 0 to columnCount
      invariant |columns| == c
      invariant forall j :: 0 <= j < c ==> IsSpan(columns[j], ranges[j], shown)
    {
      var r := Bucket(c, w.count, columnCount);
      assert r == ranges[c];
      var span := DrawColumn(s, w, r);
      columns := columns + [span];
    }
    d := Spans(columns);
  }
}
