/** The display clock one graph shares among its time-domain streams.

    Sample positions are integers; the clock itself advances by elapsed time and is a
    real. Rounding of the `double` arithmetic is not modelled. */
module DisplayClock {
  import opened Samples
  import opened Timeline
  import opened Wire
  import Items

  const NANOSECONDS_PER_SECOND: real := 1000000000.0

  /** What the clock reads of one stream. */
  datatype View = View(hasBuffer: bool, hasSequence: bool, next: int, valid: nat, window: nat,
                       latency: nat, rate: real)

  function ViewOf(s: ScopeStream): View
    reads s
  {
    View(s.buffer != null, s.hasSequence, s.nextSequence, s.validSamples, s.windowSamples,
         LatencySamples(s.sampleRate), s.sampleRate)
  }

  predicate Active(v: View) {
    v.hasBuffer && v.hasSequence && v.valid > 0
  }

  predicate HasFullWindow(v: View) {
    Active(v) && v.valid >= v.window
  }

  /** The earliest display end that still has a whole window of this stream behind it. */
  function FullWindowEnd(v: View): int {
    v.next - v.valid + v.window
  }

  // ---------------------------------------------------------------- what a scan finds

  /** `safe` and `received` are least over the active streams, `fullEnd` is greatest over
      those with a full window, `rate` is the first active stream's. */
  datatype Scan = Scan(safe: int, received: int, fullEnd: Option<int>, rate: real)

  function SafeEnd(v: View): int { v.next - v.latency }

  ghost predicate IsLeastSafe(views: seq<View>, n: nat, m: int)
    requires n <= |views|
  {
    && (exists i :: 0 <= i < n && Active(views[i]) && SafeEnd(views[i]) == m)
    && (forall i :: 0 <= i < n && Active(views[i]) ==> m <= SafeEnd(views[i]))
  }

  ghost predicate IsLeastReceived(views: seq<View>, n: nat, m: int)
    requires n <= |views|
  {
    && (exists i :: 0 <= i < n && Active(views[i]) && views[i].next == m)
    && (forall i :: 0 <= i < n && Active(views[i]) ==> m <= views[i].next)
  }

  ghost predicate IsLatestFull(views: seq<View>, n: nat, m: int)
    requires n <= |views|
  {
    && (exists i :: 0 <= i < n && HasFullWindow(views[i]) && FullWindowEnd(views[i]) == m)
    && (forall i :: 0 <= i < n && HasFullWindow(views[i]) ==> FullWindowEnd(views[i]) <= m)
  }

  ghost predicate IsFullEnd(views: seq<View>, n: nat, m: Option<int>)
    requires n <= |views|
  {
    if m.Some? then IsLatestFull(views, n, m.value)
    else forall i :: 0 <= i < n ==> !HasFullWindow(views[i])
  }

  predicate IsFirstActive(views: seq<View>, i: nat) {
    i < |views| && Active(views[i]) && forall j :: 0 <= j < i ==> !Active(views[j])
  }

  /** What the first `n` streams contribute. */
  ghost predicate ScannedUpTo(views: seq<View>, n: nat, scan: Scan)
    requires n <= |views|
  {
    && IsLeastSafe(views, n, scan.safe)
    && IsLeastReceived(views, n, scan.received)
    && IsFullEnd(views, n, scan.fullEnd)
    && (exists i :: 0 <= i < n && IsFirstActive(views, i) && views[i].rate == scan.rate)
  }

  ghost predicate Scanned(views: seq<View>, scan: Scan) {
    ScannedUpTo(views, |views|, scan)
  }

  predicate AnyActive(views: seq<View>) {
    exists i :: 0 <= i < |views| && Active(views[i])
  }

  // ---------------------------------------------------------------- one frame

  datatype Clock = Clock(end: real, lastNs: nat, started: bool)

  /** The condition under which the clock may jump over a backlog. */
  predicate CatchUp(scan: Scan) {
    scan.fullEnd.Some? && scan.fullEnd.value <= scan.safe
  }

  /** `now_ns - scope_last_render_ns` in 64 unsigned bits. */
  function ElapsedNs(nowNs: nat, lastNs: nat): (ns: int)
    ensures nowNs < 0x1_0000_0000_0000_0000 && lastNs < 0x1_0000_0000_0000_0000 ==>
      0 <= ns < 0x1_0000_0000_0000_0000 && (lastNs + ns) % 0x1_0000_0000_0000_0000 == nowNs
  {
    if lastNs <= nowNs then nowNs - lastNs else nowNs - lastNs + 0x1_0000_0000_0000_0000
  }

  /** Where the clock would be by elapsed time alone. */
  function Unforced(c: Clock, scan: Scan, nowNs: nat): real {
    if !c.started then scan.safe as real
    else c.end + ElapsedNs(nowNs, c.lastNs) as real * scan.rate / NANOSECONDS_PER_SECOND
  }

  function Advance(c: Clock, scan: Scan, nowNs: nat): Clock {
    var end0 := Unforced(c, scan, nowNs);
    var end1 := if CatchUp(scan) && end0 < scan.fullEnd.value as real
                then scan.fullEnd.value as real else end0;
    var end2 := if end1 > scan.received as real then scan.received as real else end1;
    Clock(end2, nowNs, true)
  }

  /** No active stream has yet to receive what is displayed. */
  predicate EndsBefore(views: seq<View>, end: real) {
    forall i :: 0 <= i < |views| && Active(views[i]) ==> end <= views[i].next as real
  }

  /** Every stream that holds a full window still holds the one that ends at `end`. */
  predicate WindowsAvailable(views: seq<View>, end: real) {
    forall i :: 0 <= i < |views| && HasFullWindow(views[i]) ==> FullWindowEnd(views[i]) as real <= end
  }

  /** One frame: the display end never passes the newest sample of any active stream,
      never moves back, and under the catch-up condition lands where every stream with a
      full window still has one. */
  lemma FrameIsSound(c: Clock, views: seq<View>, scan: Scan, nowNs: nat)
    requires Scanned(views, scan) && scan.rate > 0.0
    requires c.started ==> c.lastNs <= nowNs && c.end <= scan.received as real
    ensures var c' := Advance(c, scan, nowNs);
      && c'.started && c'.lastNs == nowNs
      && c'.end <= scan.received as real
      && EndsBefore(views, c'.end)
      && (c.started ==> c.end <= c'.end)
      && (CatchUp(scan) ==> WindowsAvailable(views, c'.end))
  {
    SafeBeforeReceived(views, scan);
    if c.started {
      Elapsed(nowNs - c.lastNs, scan.rate);
    }
  }

  lemma Elapsed(ns: nat, rate: real)
    requires rate > 0.0
    ensures ns as real * rate / NANOSECONDS_PER_SECOND >= 0.0
  {
    assert ns as real * rate >= 0.0;
  }

  lemma SafeBeforeReceived(views: seq<View>, scan: Scan)
    requires Scanned(views, scan)
    ensures scan.safe <= scan.received
  {
    var i :| 0 <= i < |views| && Active(views[i]) && views[i].next == scan.received;
    assert scan.safe <= SafeEnd(views[i]);
  }

  /** How a started clock moves in `ns` nanoseconds: to the latest full-window end if it may
      jump there and would be behind it, no further than what has been received, and
      otherwise by exactly the samples that pass in that time. */
  ghost predicate Moves(end: real, end': real, ns: int, scan: Scan) {
    var moved := ns as real * scan.rate;
    if CatchUp(scan) && (scan.fullEnd.value as real - end) * NANOSECONDS_PER_SECOND > moved
    then end' == scan.fullEnd.value as real
    else if (scan.received as real - end) * NANOSECONDS_PER_SECOND < moved
    then end' == scan.received as real
    else (end' - end) * NANOSECONDS_PER_SECOND == moved
  }

  /** A clock starts at the earliest end any active stream has received, less its latency. */
  ghost predicate StartsAt(views: seq<View>, end: real) {
    && (exists i :: 0 <= i < |views| && Active(views[i]) && end == (views[i].next - views[i].latency) as real)
    && (forall i :: 0 <= i < |views| && Active(views[i]) ==> end <= (views[i].next - views[i].latency) as real)
  }

  /** One frame, exactly: where the clock starts, and how far it moves. */
  lemma FrameIsExact(c: Clock, views: seq<View>, scan: Scan, nowNs: nat)
    requires Scanned(views, scan)
    ensures var c' := Advance(c, scan, nowNs);
      && c'.started && c'.lastNs == nowNs
      && (!c.started ==> StartsAt(views, c'.end))
      && (c.started ==> Moves(c.end, c'.end, ElapsedNs(nowNs, c.lastNs), scan))
  {
    SafeBeforeReceived(views, scan);
    hide Moves, StartsAt, Scanned, ElapsedNs;
    if c.started {
      AdvanceMoves(c, scan, nowNs);
    } else {
      assert Advance(c, scan, nowNs).end == scan.safe as real;
      hide Advance, CatchUp;
      StartIsLeast(views, scan);
    }
  }

  lemma AdvanceMoves(c: Clock, scan: Scan, nowNs: nat)
    requires c.started && scan.safe <= scan.received
    ensures Moves(c.end, Advance(c, scan, nowNs).end, ElapsedNs(nowNs, c.lastNs), scan)
  {
    hide ElapsedNs;
  }

  lemma StartIsLeast(views: seq<View>, scan: Scan)
    requires Scanned(views, scan)
    ensures StartsAt(views, scan.safe as real)
  {
    var i :| 0 <= i < |views| && Active(views[i]) && SafeEnd(views[i]) == scan.safe;
    assert scan.safe == views[i].next - views[i].latency;
    forall j | 0 <= j < |views| && Active(views[j])
      ensures scan.safe <= views[j].next - views[j].latency
    {
      assert scan.safe <= SafeEnd(views[j]);
    }
  }

  // ---------------------------------------------------------------- whole runs

  /** What one rendered frame sees. */
  datatype Frame = Frame(views: seq<View>, nowNs: nat)

  /** The same streams stay active, their ends do not move back, and time does not either. */
  predicate Follows(a: Frame, b: Frame) {
    && |a.views| == |b.views| && a.nowNs <= b.nowNs
    && forall i :: 0 <= i < |a.views| ==>
         && (Active(a.views[i]) <==> Active(b.views[i]))
         && (Active(a.views[i]) ==> a.views[i].next <= b.views[i].next)
  }

  ghost predicate IsRun(frames: seq<Frame>, scans: seq<Scan>, clocks: seq<Clock>) {
    && |scans| == |frames| && |clocks| == |frames| + 1
    && !clocks[0].started
    && (forall k :: 0 <= k < |frames| ==> Scanned(frames[k].views, scans[k]) && scans[k].rate > 0.0)
    && (forall k :: 0 < k < |frames| ==> Follows(frames[k - 1], frames[k]))
    && (forall k :: 0 <= k < |frames| ==> clocks[k + 1] == Advance(clocks[k], scans[k], frames[k].nowNs))
  }

  lemma ReceivedGrows(a: Frame, b: Frame, s: Scan, t: Scan)
    requires Follows(a, b) && Scanned(a.views, s) && Scanned(b.views, t)
    ensures s.received <= t.received
  {
    var i :| 0 <= i < |b.views| && Active(b.views[i]) && b.views[i].next == t.received;
    assert Active(a.views[i]);
  }

  lemma {:induction false} RunClock(frames: seq<Frame>, scans: seq<Scan>, clocks: seq<Clock>, k: nat)
    requires IsRun(frames, scans, clocks) && 0 < k <= |frames|
    ensures clocks[k].started && clocks[k].lastNs == frames[k - 1].nowNs
    ensures clocks[k].end <= scans[k - 1].received as real
    ensures EndsBefore(frames[k - 1].views, clocks[k].end)
    ensures k > 1 ==> clocks[k - 1].end <= clocks[k].end
    ensures CatchUp(scans[k - 1]) ==>
      WindowsAvailable(frames[k - 1].views, clocks[k].end)
  {
    if k > 1 {
      RunClock(frames, scans, clocks, k - 1);
      ReceivedGrows(frames[k - 2], frames[k - 1], scans[k - 2], scans[k - 1]);
    }
    FrameIsSound(clocks[k - 1], frames[k - 1].views, scans[k - 1], frames[k - 1].nowNs);
  }

  /** Over a whole run the display end only moves forward. */
  lemma {:induction false} DisplayNeverGoesBack(frames: seq<Frame>, scans: seq<Scan>, clocks: seq<Clock>,
                                                j: nat, k: nat)
    requires IsRun(frames, scans, clocks) && 0 < j <= k <= |frames|
    ensures clocks[j].end <= clocks[k].end
  {
    if j < k {
      DisplayNeverGoesBack(frames, scans, clocks, j, k - 1);
      RunClock(frames, scans, clocks, k);
    }
  }

  /** In frame `k` the clock neither jumps nor is held back, and time runs at `rate`. */
  ghost predicate RunsFree(frames: seq<Frame>, scans: seq<Scan>, clocks: seq<Clock>, k: nat, rate: real)
    requires IsRun(frames, scans, clocks) && k < |frames|
  {
    scans[k].rate == rate && !CatchUp(scans[k]) && clocks[k + 1].end < scans[k].received as real
  }

  lemma RunStarts(frames: seq<Frame>, scans: seq<Scan>, clocks: seq<Clock>)
    requires IsRun(frames, scans, clocks) && frames != []
    ensures StartsAt(frames[0].views, clocks[1].end)
  {
    FrameIsExact(clocks[0], frames[0].views, scans[0], frames[0].nowNs);
  }

  /** Every later frame moves the clock exactly. */
  lemma RunMoves(frames: seq<Frame>, scans: seq<Scan>, clocks: seq<Clock>, k: nat)
    requires IsRun(frames, scans, clocks) && 0 < k < |frames|
    ensures frames[k - 1].nowNs <= frames[k].nowNs
    ensures Moves(clocks[k].end, clocks[k + 1].end, frames[k].nowNs - frames[k - 1].nowNs, scans[k])
  {
    RunClock(frames, scans, clocks, k);
    assert Follows(frames[k - 1], frames[k]);
    FrameIsExact(clocks[k], frames[k].views, scans[k], frames[k].nowNs);
  }

  lemma FreeStep(end: real, end': real, ns: nat, scan: Scan)
    requires Moves(end, end', ns, scan) && !CatchUp(scan) && end' < scan.received as real
    ensures (end' - end) * NANOSECONDS_PER_SECOND == ns as real * scan.rate
  {
  }

  lemma MovesAdd(x: real, y: real, z: real, a: int, b: int, rate: real)
    requires (y - x) * NANOSECONDS_PER_SECOND == a as real * rate
    requires (z - y) * NANOSECONDS_PER_SECOND == b as real * rate
    ensures (z - x) * NANOSECONDS_PER_SECOND == (a + b) as real * rate
  {
    assert (a + b) as real * rate == a as real * rate + b as real * rate;
    assert (z - x) * NANOSECONDS_PER_SECOND == (z - y) * NANOSECONDS_PER_SECOND + (y - x) * NANOSECONDS_PER_SECOND;
  }

  /** Over a whole run the display advances by exactly the samples of the time that passes,
      however the frames fall, as long as it neither jumps nor catches up with what has been
      received. */
  lemma {:induction false} DisplayKeepsTime(frames: seq<Frame>, scans: seq<Scan>, clocks: seq<Clock>,
                                            j: nat, k: nat, rate: real)
    requires IsRun(frames, scans, clocks) && j <= k < |frames|
    requires forall f :: j < f <= k ==> RunsFree(frames, scans, clocks, f, rate)
    ensures frames[j].nowNs <= frames[k].nowNs
    ensures (clocks[k + 1].end - clocks[j + 1].end) * NANOSECONDS_PER_SECOND
      == (frames[k].nowNs - frames[j].nowNs) as real * rate
  {
    hide Scanned, Follows, Advance, Moves, CatchUp;
    if j < k {
      DisplayKeepsTime(frames, scans, clocks, j, k - 1, rate);
      RunMoves(frames, scans, clocks, k);
      assert RunsFree(frames, scans, clocks, k, rate);
      FreeStep(clocks[k].end, clocks[k + 1].end, frames[k].nowNs - frames[k - 1].nowNs, scans[k]);
      hide *;
      MovesAdd(clocks[j + 1].end, clocks[k].end, clocks[k + 1].end,
               frames[k - 1].nowNs - frames[j].nowNs, frames[k].nowNs - frames[k - 1].nowNs, rate);
    }
  }

  // ---------------------------------------------------------------- when catch-up applies

  /** With one active stream the condition is: a window plus the latency is buffered. */
  lemma SingleStreamCatchUp(views: seq<View>, i: nat, scan: Scan)
    requires Scanned(views, scan) && i < |views| && Active(views[i])
    requires forall j :: 0 <= j < |views| && j != i ==> !Active(views[j])
    ensures CatchUp(scan) <==> views[i].valid >= views[i].window + views[i].latency
  {
    assert scan.safe == SafeEnd(views[i]);
    if scan.fullEnd.Some? {
      assert scan.fullEnd.value == FullWindowEnd(views[i]);
    } else {
      assert !HasFullWindow(views[i]);
    }
  }

  /** A single stream whose ring is full always meets it, because the ring holds a window,
      the latency and one packet. */
  lemma FullRingCatchesUp(s: ScopeStream, views: seq<View>, i: nat, scan: Scan)
    requires s.Valid() && s.buffer != null && s.hasSequence && s.validSamples == s.capacity
    requires Scanned(views, scan) && i < |views| && views[i] == ViewOf(s)
    requires forall j :: 0 <= j < |views| && j != i ==> !Active(views[j])
    ensures CatchUp(scan)
  {
    SingleStreamCatchUp(views, i, scan);
  }

  /** In general, every full window is still held at the new display end exactly when there
      is none, or the latest of their ends has been received from every active stream and
      the clock either may jump there or has passed it anyway. */
  lemma WindowsExactly(c: Clock, views: seq<View>, scan: Scan, nowNs: nat)
    requires Scanned(views, scan)
    ensures WindowsAvailable(views, Advance(c, scan, nowNs).end) <==>
      || scan.fullEnd == None
      || (scan.fullEnd.value <= scan.received
          && (CatchUp(scan) || scan.fullEnd.value as real <= Unforced(c, scan, nowNs)))
  {
    if scan.fullEnd.Some? {
      var i :| 0 <= i < |views| && HasFullWindow(views[i]) && FullWindowEnd(views[i]) == scan.fullEnd.value;
      assert FullWindowEnd(views[i]) <= scan.fullEnd.value;
    }
  }

  /** With several streams the condition can fail, and then the display end may sit where a
      stream has already overwritten its window: a late second stream holds the clock back. */
  lemma LateViewsMissWindow() returns (views: seq<View>, scan: Scan)
    ensures views == [View(true, true, 100000, 806, 500, 50, 1000.0), View(true, true, 1000, 200, 500, 50, 1000.0)]
    ensures Scanned(views, scan) && !CatchUp(scan)
    ensures !WindowsAvailable(views, Advance(Clock(0.0, 0, false), scan, 0).end)
  {
    views := [View(true, true, 100000, 806, 500, 50, 1000.0), View(true, true, 1000, 200, 500, 50, 1000.0)];
    scan := Scan(950, 1000, Some(99694), 1000.0);
    assert SafeEnd(views[1]) == 950 && views[1].next == 1000;
    assert HasFullWindow(views[0]) && IsFirstActive(views, 0);
  }

  /** A packet of one sample at 1 kHz. */
  function OneSample(sequence: int): Packet {
    Time(Header(WATCH_MAGIC, PROT_VERSION, Data, sequence, DATA_PREFIX + FLOAT_SIZE), 1, 0,
         Finite(1000.0), 1, Items.Blank())
  }

  const ONE_SAMPLE_SIZE: nat := HEADER_SIZE + DATA_PREFIX + FLOAT_SIZE

  lemma OneSampleIsValid(sequence: nat)
    ensures ValidateData(OneSample(sequence), ONE_SAMPLE_SIZE)
    ensures |PacketSamples(OneSample(sequence))| == 1
  {
  }

  lemma HalfSecond()
    ensures ScopeGeometry(0.5, 1000.0) == Some(Geometry(500, 806)) && LatencySamples(1000.0) == 50
  {
  }

  /** Appending one sample past the end makes the timeline end there. */
  lemma OneMore(line: Option<Line>, samples: seq<real>, sequence: int)
    requires |samples| == 1 && (line.Some? ==> End(line.value) <= sequence)
    ensures var start := if line.Some? then line.value.start else sequence;
      var longer := Append(line, samples, sequence);
      longer.start == start && |longer.values| == sequence + 1 - start
  {
  }

  /** A stream gets one sample, the first or one past its end. */
  method Receive(s: ScopeStream, sequence: nat)
    requires s.Valid() && ((s.Cleared() && !s.unsupported) || s.Fits(0.5, 1000.0))
    requires s.hasSequence ==> s.nextSequence <= sequence
    modifies s, s.buffer
    ensures s.Valid() && s.Fits(0.5, 1000.0) && s.hasSequence
    ensures s.start == if old(s.hasSequence) then old(s.start) else sequence
    ensures |s.history| == sequence + 1 - s.start
    ensures fresh(s.buffer) || s.buffer == old(s.buffer)
  {
    OneSampleIsValid(sequence);
    HalfSecond();
    OneMore(s.Timeline(), PacketSamples(OneSample(sequence)), sequence);
    hide *;
    var accepted := s.ProcessData(OneSample(sequence), ONE_SAMPLE_SIZE, 0.5, true);
    assert accepted && s.Timeline().Some?;
  }

  lemma ViewOfHalfSecond(s: ScopeStream)
    requires s.Valid() && s.Fits(0.5, 1000.0) && s.hasSequence
    ensures ViewOf(s) == View(true, true, s.start + |s.history|, Min(|s.history|, 806), 500, 50, 1000.0)
  {
    HalfSecond();
  }

  /** A half-second window at 1 kHz that has received its first and its newest sample. */
  method StreamBetween(first: nat, newest: nat) returns (s: ScopeStream)
    requires first < newest
    ensures fresh(s) && s.Valid()
    ensures ViewOf(s) == View(true, true, newest + 1, Min(newest + 1 - first, 806), 500, 50, 1000.0)
  {
    hide ScopeStream.RingInv, ScopeGeometry, LatencySamples;
    s := new ScopeStream();
    Receive(s, first);
    Receive(s, newest);
    ViewOfHalfSecond(s);
  }

  /** Two streams of one graph that received packets the plugin can send, in order. */
  method LateStreamMissesWindow() returns (ahead: ScopeStream, late: ScopeStream, ghost scan: Scan)
    ensures ahead.Valid() && late.Valid()
    ensures Scanned([ViewOf(ahead), ViewOf(late)], scan) && !CatchUp(scan)
    ensures !WindowsAvailable([ViewOf(ahead), ViewOf(late)], Advance(Clock(0.0, 0, false), scan, 0).end)
  {
    ahead := StreamBetween(0, 99999);
    late := StreamBetween(800, 999);
    ghost var views;
    views, scan := LateViewsMissWindow();
    assert views == [ViewOf(ahead), ViewOf(late)];
  }

  // ---------------------------------------------------------------- the clock object

  /** The later of the full-window ends so far and this stream's own, if it has one. */
  function LaterFull(fullEnd: Option<int>, v: View): Option<int> {
    if v.valid >= v.window && (fullEnd == None || FullWindowEnd(v) > fullEnd.value)
    then Some(FullWindowEnd(v)) else fullEnd
  }

  lemma ScanFirst(views: seq<View>, k: nat)
    requires IsFirstActive(views, k)
    ensures var v := views[k];
      ScannedUpTo(views, k + 1, Scan(SafeEnd(v), v.next, LaterFull(None, v), v.rate))
  {
  }

  lemma ScanNext(views: seq<View>, k: nat, scan: Scan)
    requires k < |views| && Active(views[k]) && ScannedUpTo(views, k, scan)
    ensures var v := views[k];
      ScannedUpTo(views, k + 1, Scan(
        Min(scan.safe, SafeEnd(v)), Min(scan.received, v.next), LaterFull(scan.fullEnd, v), scan.rate))
  {
    hide IsFirstActive;
    NextFull(views, k, scan.fullEnd);
  }

  lemma NextFull(views: seq<View>, k: nat, fullEnd: Option<int>)
    requires k < |views| && Active(views[k]) && IsFullEnd(views, k, fullEnd)
    ensures IsFullEnd(views, k + 1, LaterFull(fullEnd, views[k]))
  {
  }

  lemma ScanSkip(views: seq<View>, k: nat, scan: Scan)
    requires k < |views| && !Active(views[k]) && ScannedUpTo(views, k, scan)
    ensures ScannedUpTo(views, k + 1, scan)
  {
    hide IsFirstActive;
  }

  /** The scanning loop of `advance_scope_timeline`. */
  method ScanStreams(views: seq<View>)
    returns (found: bool, safe: int, received: int, fullEnd: Option<int>, rate: real)
    ensures found == AnyActive(views)
    ensures found ==> Scanned(views, Scan(safe, received, fullEnd, rate))
  {
    hide ScannedUpTo, Active;
    safe, received, fullEnd, rate := 0, 0, None, 0.0;
    found := false;
    for k := 0 to |views|
      invariant found <==> exists i :: 0 <= i < k && Active(views[i])
      invariant if found then ScannedUpTo(views, k, Scan(safe, received, fullEnd, rate)) else fullEnd == None
    {
      var v := views[k];
      if Active(v) {
        if found {
          ScanNext(views, k, Scan(safe, received, fullEnd, rate));
        } else {
          ScanFirst(views, k);
        }
        if !found || SafeEnd(v) < safe {
          safe := SafeEnd(v);
        }
        if !found || v.next < received {
          received := v.next;
        }
        if !found {
          rate := v.rate;
        }
        if v.valid >= v.window && (fullEnd == None || FullWindowEnd(v) > fullEnd.value) {
          fullEnd := Some(FullWindowEnd(v));
        }
        found := true;
      } else if found {
        ScanSkip(views, k, Scan(safe, received, fullEnd, rate));
      }
    }
  }

  class ScopeClock {
    var displayEnd: real
    var lastRenderNs: nat
    var started: bool

    ghost function Now(): Clock
      reads this
    {
      Clock(displayEnd, lastRenderNs, started)
    }

    constructor ()
      ensures !started
    {
      displayEnd, lastRenderNs, started := 0.0, 0, false;
    }

    /** `advance_scope_timeline` */
    method AdvanceScopeTimeline(views: seq<View>, nowNs: nat) returns (found: bool, ghost scan: Scan)
      modifies this
      ensures found == AnyActive(views)
      ensures !found ==> Now() == old(Now())
      ensures found ==> Scanned(views, scan) && Now() == Advance(old(Now()), scan, nowNs)
      ensures found ==> started && lastRenderNs == nowNs
      ensures found && !old(started) ==> StartsAt(views, displayEnd)
      ensures found && old(started) ==>
        Moves(old(displayEnd), displayEnd, ElapsedNs(nowNs, old(lastRenderNs)), scan)
    {
      hide Scanned, ScannedUpTo, AnyActive, Moves, StartsAt, IsFullEnd, ElapsedNs;
      var safe, received, fullEnd, rate;
      found, safe, received, fullEnd, rate := ScanStreams(views);
      scan := Scan(safe, received, fullEnd, rate);
      if !found {
        return;
      }
      FrameIsExact(Now(), views, scan, nowNs);
      if !started {
        displayEnd := safe as real;
        lastRenderNs := nowNs;
        started := true;
      } else {
        var elapsed := ElapsedNs(nowNs, lastRenderNs);
        displayEnd := displayEnd + elapsed as real * rate / NANOSECONDS_PER_SECOND;
        lastRenderNs := nowNs;
      }
      if fullEnd.Some? && fullEnd.value <= safe && displayEnd < fullEnd.value as real {
        displayEnd := fullEnd.value as real;
      }
      if displayEnd > received as real {
        displayEnd := received as real;
      }
    }
  }
}
