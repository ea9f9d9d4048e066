/** The in-process engine: the loops that run a query over its source, proved
    against the window specifications. A source is the records read until it
    closes or the query is cancelled; every such prefix is a run of its own. */
module MeosEngine {
  import opened Records
  import H = Hopping
  import T = Tumbling
  import WindowLaws
  import R = Runs
  import G = HopGrid
  import opened Wrappers

  /** The records of `buf` whose time, kept beside them, lies in [lo, hi). */
  function Within(buf: seq<Instant>, times: seq<int>, n: nat, lo: int, hi: int): seq<Instant>
    requires n <= |buf| == |times|
  {
    if n == 0 then []
    else
      var w := Within(buf, times, n - 1, lo, hi);
      if lo <= times[n - 1] < hi then w + [buf[n - 1]] else w
  }

  /** The buffer is the stream from position d on, with its times. */
  ghost predicate Mirrors(buf: seq<Instant>, times: seq<int>, source: seq<Instant>, d: nat, n: nat) {
    && d <= n <= |source|
    && buf == source[d..n]
    && |times| == |buf|
    && forall j :: 0 <= j < |times| ==> times[j] == H.At(source, d + j)
  }

  /** Filtering the buffer is picking from the stream. */
  lemma {:induction false} WithinIsPick(buf: seq<Instant>, times: seq<int>, source: seq<Instant>, d: nat, n: nat,
                                        k: nat, lo: int, hi: int)
    requires Mirrors(buf, times, source, d, n) && k <= |buf|
    ensures var w := H.Pick(source, d, d + k, lo, hi);
            && (w != [] ==> H.Within(source, w))
            && Within(buf, times, k, lo, hi) == H.Select(source, w)
  {
    if k == 0 {
      assert H.Select(source, []) == [];
    } else {
      WithinIsPick(buf, times, source, d, n, k - 1, lo, hi);
      assert buf[k - 1] == source[d + k - 1];
    }
  }

  /** What the first n records leave to emit at boundary e, which the last of them
      has just crossed: the buffer holds all of it, since everything evicted lies
      before the span. */
  lemma BoundaryWindow(buf: seq<Instant>, times: seq<int>, source: seq<Instant>, d: nat, n: nat, span: int, e: int)
    requires 0 < n && Mirrors(buf, times, source, d, n)
    requires forall p :: 0 <= p < d ==> H.At(source, p) < e - span
    requires forall p :: 0 <= p < n - 1 ==> H.At(source, p) < e
    requires e <= H.At(source, n - 1)
    ensures e <= H.Latest(source, n)
    ensures var w := H.WindowAt(source, n, span, e);
            && (w != [] ==> H.Within(source, w))
            && Within(buf, times, |buf|, e - span, e) == H.Select(source, w)
  {
    H.LatestIsMaximum(source, n);
    assert H.Crossing(source, n, e) == n - 1;
    assert H.Pick(source, 0, n, e - span, e) == H.Pick(source, 0, n - 1, e - span, e);
    H.PickSkips(source, d, n, e - span, e);
    WithinIsPick(buf, times, source, d, n, |buf|, e - span, e);
  }

  /** Collects the buffered records of one window. */
  method CollectWindow(buf: seq<Instant>, times: seq<int>, lo: int, hi: int) returns (win: seq<Instant>)
    requires |buf| == |times|
    ensures win == Within(buf, times, |buf|, lo, hi)
  {
    win := [];
    for i := 0 to |times|
      invariant win == Within(buf, times, i, lo, hi)
    {
      if lo <= times[i] && times[i] < hi {
        win := win + [buf[i]];
      }
    }
  }

  /** How many leading times lie before `keepFrom`: the records to evict. */
  method EvictCount(times: seq<int>, keepFrom: int) returns (k: nat)
    ensures k <= |times|
    ensures forall j :: 0 <= j < k ==> times[j] < keepFrom
    ensures k < |times| ==> keepFrom <= times[k]
  {
    k := 0;
    while k < |times| && times[k] < keepFrom
      invariant k <= |times|
      invariant forall j :: 0 <= j < k ==> times[j] < keepFrom
    {
      k := k + 1;
    }
  }

  /** Where HOPPING stands while it catches up with record n - 1: the windows
      emitted so far and those still due at nextEmit and later are all of them. */
  ghost predicate Progress(source: seq<Instant>, n: nat, span: int, hop: int, nextEmit: int, done: seq<H.Picked>)
    requires 0 < n <= |source| && hop > 0
  {
    var e0 := H.FirstBoundary(source, hop);
    && H.AllWithin(source, done)
    && H.NextEmit(source, n, hop, nextEmit) == H.NextEmit(source, n, hop, e0)
    && done + H.Hops(source, n, span, hop, nextEmit) == H.Hops(source, n, span, hop, e0)
    && (forall p :: 0 <= p < n - 1 ==> H.At(source, p) < nextEmit)
    && (WindowLaws.InOrder(source) ==> nextEmit - hop <= H.At(source, n - 1))
  }

  lemma ProgressStart(source: seq<Instant>, span: int, hop: int)
    requires source != [] && hop > 0
    ensures Progress(source, 1, span, hop, H.FirstBoundary(source, hop), [])
  {
    var rest := H.Hops(source, 1, span, hop, H.FirstBoundary(source, hop));
    assert [] + rest == rest;
  }

  /** Once every record is before the boundary, all due windows are out. */
  lemma ProgressComplete(source: seq<Instant>, n: nat, span: int, hop: int, nextEmit: int, done: seq<H.Picked>)
    requires 0 < n <= |source| && hop > 0 && Progress(source, n, span, hop, nextEmit, done)
    requires H.At(source, n - 1) < nextEmit
    ensures H.Latest(source, n) < nextEmit
    ensures nextEmit == H.NextEmit(source, n, hop, H.FirstBoundary(source, hop))
    ensures done == H.Hops(source, n, span, hop, H.FirstBoundary(source, hop))
  {
    H.LatestIsMaximum(source, n);
    assert H.Hops(source, n, span, hop, nextEmit) == [];
    assert done + [] == done;
  }

  lemma ProgressReceive(source: seq<Instant>, n: nat, span: int, hop: int, nextEmit: int, done: seq<H.Picked>)
    requires 0 < n < |source| && hop > 0 && Progress(source, n, span, hop, nextEmit, done)
    requires H.At(source, n - 1) < nextEmit
    ensures Progress(source, n + 1, span, hop, nextEmit, done)
  {
    hide H.Hops, H.NextEmit, H.Latest;
    ProgressComplete(source, n, span, hop, nextEmit, done);
    H.HopsExtend(source, n, span, hop, H.FirstBoundary(source, hop));
    assert WindowLaws.InOrder(source) ==> H.At(source, n - 1) <= H.At(source, n);
  }

  lemma ProgressEmit(source: seq<Instant>, n: nat, span: int, hop: int, nextEmit: int, done: seq<H.Picked>, w: seq<int>)
    requires 0 < n <= |source| && hop > 0 && Progress(source, n, span, hop, nextEmit, done)
    requires nextEmit <= H.At(source, n - 1) && nextEmit <= H.Latest(source, n)
    requires w == H.WindowAt(source, n, span, nextEmit) && (w != [] ==> H.Within(source, w))
    ensures Progress(source, n, span, hop, nextEmit + hop, done + H.NonEmpty(w))
    ensures done + H.NonEmpty(w) <= H.Positions(source, span, hop)
  {
    hide H.WindowAt, H.Latest, H.Within, WindowLaws.InOrder;
    var e0 := H.FirstBoundary(source, hop);
    var rest := H.Hops(source, n, span, hop, nextEmit + hop);
    assert H.Hops(source, n, span, hop, nextEmit) == H.NonEmpty(w) + rest;
    assert done + (H.NonEmpty(w) + rest) == (done + H.NonEmpty(w)) + rest;
    H.HopsPrefix(source, n, |source|, span, hop, e0);
  }

  /** The buffer mirrors the stream from position d on, and everything evicted
      lies before every window still to come. */
  ghost predicate Holds(buf: seq<Instant>, times: seq<int>, source: seq<Instant>, d: nat, n: nat, span: int,
                        nextEmit: int)
  {
    && Mirrors(buf, times, source, d, n)
    && forall p :: 0 <= p < d ==> H.At(source, p) < nextEmit - span
  }

  lemma HoldsReceive(buf: seq<Instant>, times: seq<int>, source: seq<Instant>, d: nat, n: nat, span: int, nextEmit: int)
    requires Holds(buf, times, source, d, n, span, nextEmit) && n < |source|
    ensures Holds(buf + [source[n]], times + [H.At(source, n)], source, d, n + 1, span, nextEmit)
  {
    assert source[d..n] + [source[n]] == source[d..n + 1];
  }

  lemma HoldsEvict(buf: seq<Instant>, times: seq<int>, source: seq<Instant>, d: nat, n: nat, span: int,
                   nextEmit: int, later: int, k: nat)
    requires Holds(buf, times, source, d, n, span, nextEmit) && nextEmit <= later
    requires k <= |times| && forall j :: 0 <= j < k ==> times[j] < later - span
    ensures Holds(buf[k..], times[k..], source, d + k, n, span, later)
  {
    forall p | 0 <= p < d + k ensures H.At(source, p) < later - span {
      if d <= p {
        assert times[p - d] == H.At(source, p);
      }
    }
  }

  lemma NothingDue(done: seq<H.Picked>, w: seq<int>)
    requires w == []
    ensures done + H.NonEmpty(w) == done
  {}

  /** Delivering the window of positions w brings the results up to date again. */
  lemma WindowSent(source: seq<Instant>, results: seq<Event>, done: seq<H.Picked>, w: seq<int>, win: seq<Instant>,
                   emit: Emitter)
    requires Synced(source, results, done, emit)
    requires w != [] && H.Within(source, w) && win == H.Select(source, w)
    requires emit(|results|, Closed(win)) == Sent
    ensures Synced(source, results + [ToEvent(Closed(win))], done + H.NonEmpty(w), emit)
  {
    H.ContentsAppend(source, done, H.Picked(w));
    DeliveredOne(results, H.Contents(source, done), Closed(win), emit);
  }

  lemma WindowNotSent(source: seq<Instant>, results: seq<Event>, status: Status, done: seq<H.Picked>, w: seq<int>,
                      win: seq<Instant>, span: int, hop: int, emit: Emitter)
    requires hop > 0 && Synced(source, results, done, emit)
    requires w != [] && H.Within(source, w) && win == H.Select(source, w)
    requires done + H.NonEmpty(w) <= H.Positions(source, span, hop)
    requires emit(|results|, Closed(win)) != Sent
    requires status == if emit(|results|, Closed(win)) == AggregateFailed then Failed else Stopped
    ensures EndedEarly(source, results, status, span, hop, emit)
  {
    H.ContentsAppend(source, done, H.Picked(w));
    H.ContentsPrefix(source, done + H.NonEmpty(w), H.Positions(source, span, hop));
    Undelivered(results, status, H.Contents(source, done), Closed(win), H.HoppingWindows(source, span, hop), emit);
  }

  /** In order, eviction leaves no record more than a window behind. */
  ghost predicate Bounded(times: seq<int>, nextEmit: int, width: int) {
    forall j :: 0 <= j < |times| ==> nextEmit - width <= times[j]
  }

  function Wider(span: int, hop: int): int {
    if span >= hop then span else hop
  }

  lemma BoundedReceive(times: seq<int>, source: seq<Instant>, n: nat, span: int, hop: int, nextEmit: int,
                       done: seq<H.Picked>)
    requires 0 < n <= |source| && hop > 0 && Progress(source, n, span, hop, nextEmit, done)
    requires WindowLaws.InOrder(source) && Bounded(times, nextEmit, Wider(span, hop))
    ensures Bounded(times + [H.At(source, n - 1)], nextEmit, Wider(span, hop))
  {}

  lemma BoundedEvict(buf: seq<Instant>, times: seq<int>, source: seq<Instant>, d: nat, n: nat, span: int, hop: int,
                     before: int, nextEmit: int, k: nat)
    requires Holds(buf, times, source, d, n, span, before) && WindowLaws.InOrder(source) && k <= |times|
    requires k < |times| ==> nextEmit - span <= times[k]
    ensures Bounded(times[k..], nextEmit, Wider(span, hop))
  {
    forall j | 0 <= j < |times[k..]| ensures nextEmit - Wider(span, hop) <= times[k..][j] {
      assert times[k..][j] == times[k + j] == H.At(source, d + k + j);
      assert H.At(source, d + k) <= H.At(source, d + k + j);
    }
  }

  /** The state of HOPPING while it handles record n - 1. */
  ghost predicate Handling(buf: seq<Instant>, times: seq<int>, source: seq<Instant>, d: nat, n: nat, span: int,
                           hop: int, nextEmit: int, done: seq<H.Picked>)
    requires 0 < n <= |source| && hop > 0
  {
    && Holds(buf, times, source, d, n, span, nextEmit)
    && Progress(source, n, span, hop, nextEmit, done)
    && (WindowLaws.InOrder(source) ==> Bounded(times, nextEmit, Wider(span, hop)))
  }

  lemma HandleFirst(source: seq<Instant>, span: int, hop: int)
    requires source != [] && hop > 0
    ensures var t := InstantUnix(source[0], 0);
            t == H.At(source, 0) && Handling([source[0]], [t], source, 0, 1, span, hop, FirstEnd(t, hop), [])
  {
    HoldsReceive([], [], source, 0, 0, span, H.FirstBoundary(source, hop));
    assert [] + [source[0]] == [source[0]] && [] + [H.At(source, 0)] == [H.At(source, 0)];
    ProgressStart(source, span, hop);
    hide H.Hops, H.NextEmit;
  }

  lemma HandleNext(buf: seq<Instant>, times: seq<int>, source: seq<Instant>, d: nat, n: nat, span: int, hop: int,
                   nextEmit: int, done: seq<H.Picked>)
    requires 0 < n < |source| && hop > 0 && Handling(buf, times, source, d, n, span, hop, nextEmit, done)
    requires H.At(source, n - 1) < nextEmit
    ensures var t := InstantUnix(source[n], n);
            && t == H.At(source, n)
            && Handling(buf + [source[n]], times + [t], source, d, n + 1, span, hop, nextEmit, done)
  {
    hide Holds, Progress, Bounded, WindowLaws.InOrder;
    HoldsReceive(buf, times, source, d, n, span, nextEmit);
    ProgressReceive(source, n, span, hop, nextEmit, done);
    if WindowLaws.InOrder(source) {
      BoundedReceive(times, source, n + 1, span, hop, nextEmit, done);
    }
  }

  /** BoundaryWindow in terms of the loop's state. */
  lemma WindowDue(buf: seq<Instant>, times: seq<int>, source: seq<Instant>, d: nat, n: nat, span: int, hop: int,
                  nextEmit: int, done: seq<H.Picked>)
    requires 0 < n <= |source| && hop > 0 && nextEmit <= H.At(source, n - 1)
    requires Handling(buf, times, source, d, n, span, hop, nextEmit, done)
    ensures |buf| == |times| && nextEmit <= H.Latest(source, n)
    ensures var w := H.WindowAt(source, n, span, nextEmit);
            && (w != [] ==> H.Within(source, w))
            && (w == [] <==> Within(buf, times, |buf|, nextEmit - span, nextEmit) == [])
            && (w != [] ==> Within(buf, times, |buf|, nextEmit - span, nextEmit) == H.Select(source, w))
    ensures done + H.NonEmpty(H.WindowAt(source, n, span, nextEmit)) <= H.Positions(source, span, hop)
    ensures Progress(source, n, span, hop, nextEmit + hop, done + H.NonEmpty(H.WindowAt(source, n, span, nextEmit)))
  {
    BoundaryWindow(buf, times, source, d, n, span, nextEmit);
    ProgressEmit(source, n, span, hop, nextEmit, done, H.WindowAt(source, n, span, nextEmit));
  }

  /** Every window found so far has been delivered. */
  ghost predicate Synced(source: seq<Instant>, results: seq<Event>, done: seq<H.Picked>, emit: Emitter) {
    H.AllWithin(source, done) && UpToDate(results, H.Contents(source, done), emit)
  }

  /** The query ended at a window that could not be delivered. */
  ghost predicate EndedEarly(source: seq<Instant>, results: seq<Event>, status: Status, span: int, hop: int,
                             emit: Emitter)
    requires hop > 0
  {
    var ws := H.HoppingWindows(source, span, hop);
    |results| < |ws| && Delivers(results, status, ws, emit)
  }

  lemma RunStart(source: seq<Instant>, emit: Emitter)
    ensures Synced(source, [], [], emit)
  {}

  lemma EarlyEnd(source: seq<Instant>, results: seq<Event>, status: Status, span: int, hop: int, emit: Emitter)
    requires hop > 0 && EndedEarly(source, results, status, span, hop, emit)
    ensures |results| < |H.HoppingWindows(source, span, hop)|
    ensures Delivers(results, status, H.HoppingWindows(source, span, hop), emit)
  {}

  /** At the end of the source every window due has been delivered. */
  lemma RunEnd(buf: seq<Instant>, times: seq<int>, source: seq<Instant>, d: nat, results: seq<Event>, span: int,
               hop: int, nextEmit: int, done: seq<H.Picked>, emit: Emitter)
    requires hop > 0 && Synced(source, results, done, emit)
    requires source == [] ==> done == []
    requires source != [] ==> Handling(buf, times, source, d, |source|, span, hop, nextEmit, done)
    requires source != [] ==> H.At(source, |source| - 1) < nextEmit
    ensures Delivers(results, Stopped, H.HoppingWindows(source, span, hop), emit)
  {
    if source != [] {
      ProgressComplete(source, |source|, span, hop, nextEmit, done);
    }
    assert done == H.Positions(source, span, hop);
    AllDelivered(results, H.Contents(source, done), emit);
  }

  /** HOPPING between two records: every window due has been delivered, and the buffer
      still has all that later ones need. */
  ghost predicate Waiting(buf: seq<Instant>, times: seq<int>, source: seq<Instant>, d: nat, n: nat, span: int,
                          hop: int, nextEmit: int, done: seq<H.Picked>, results: seq<Event>, emit: Emitter)
    requires n <= |source| && hop > 0
  {
    && Synced(source, results, done, emit)
    && if n == 0 then done == [] && d == 0 && buf == [] && times == []
       else Handling(buf, times, source, d, n, span, hop, nextEmit, done) && H.At(source, n - 1) < nextEmit
  }

  lemma WaitingAtStart(source: seq<Instant>, span: int, hop: int, emit: Emitter)
    requires hop > 0
    ensures Waiting([], [], source, 0, 0, span, hop, 0, [], [], emit)
  {
    RunStart(source, emit);
  }

  /** Taking the next record. */
  lemma Receive(buf: seq<Instant>, times: seq<int>, source: seq<Instant>, d: nat, n: nat, span: int, hop: int,
                nextEmit: int, done: seq<H.Picked>, results: seq<Event>, emit: Emitter)
    requires n < |source| && hop > 0 && Waiting(buf, times, source, d, n, span, hop, nextEmit, done, results, emit)
    ensures Synced(source, results, done, emit)
    ensures var t := InstantUnix(source[n], n);
            && t == H.At(source, n)
            && Handling(buf + [source[n]], times + [t], source, d, n + 1, span, hop,
                        if n == 0 then FirstEnd(t, hop) else nextEmit, done)
  {
    hide Handling, Synced, FirstEnd, InstantUnix;
    if n == 0 {
      HandleFirst(source, span, hop);
      assert [] + [source[0]] == [source[0]] && [] + [InstantUnix(source[0], 0)] == [InstantUnix(source[0], 0)];
    } else {
      HandleNext(buf, times, source, d, n, span, hop, nextEmit, done);
    }
  }

  lemma Caught(buf: seq<Instant>, times: seq<int>, source: seq<Instant>, d: nat, n: nat, span: int, hop: int,
               nextEmit: int, done: seq<H.Picked>, results: seq<Event>, emit: Emitter)
    requires 0 < n <= |source| && hop > 0 && H.At(source, n - 1) < nextEmit && Synced(source, results, done, emit)
    requires Handling(buf, times, source, d, n, span, hop, nextEmit, done)
    ensures Waiting(buf, times, source, d, n, span, hop, nextEmit, done, results, emit)
  {}

  lemma RunsOut(buf: seq<Instant>, times: seq<int>, source: seq<Instant>, d: nat, span: int, hop: int,
                nextEmit: int, done: seq<H.Picked>, results: seq<Event>, emit: Emitter)
    requires hop > 0 && Waiting(buf, times, source, d, |source|, span, hop, nextEmit, done, results, emit)
    ensures Delivers(results, Stopped, H.HoppingWindows(source, span, hop), emit)
    ensures Retained(buf, times, source, span, hop, nextEmit)
  {
    hide Handling, Synced, Delivers, WindowLaws.InOrder;
    RunEnd(buf, times, source, d, results, span, hop, nextEmit, done, emit);
    if source != [] {
      hide Retained;
      LeftOver(buf, times, source, d, span, hop, nextEmit, done);
    }
  }

  /** Eviction behind the boundary just emitted. */
  lemma HandleEvict(buf: seq<Instant>, times: seq<int>, source: seq<Instant>, d: nat, n: nat, span: int, hop: int,
                    nextEmit: int, done: seq<H.Picked>, later: seq<H.Picked>, k: nat)
    requires 0 < n <= |source| && hop > 0 && Handling(buf, times, source, d, n, span, hop, nextEmit, done)
    requires Progress(source, n, span, hop, nextEmit + hop, later)
    requires k <= |times| && forall j :: 0 <= j < k ==> times[j] < nextEmit + hop - span
    requires k < |times| ==> nextEmit + hop - span <= times[k]
    ensures k <= |buf| && Handling(buf[k..], times[k..], source, d + k, n, span, hop, nextEmit + hop, later)
  {
    hide Progress, Bounded, WindowLaws.InOrder;
    HoldsEvict(buf, times, source, d, n, span, nextEmit, nextEmit + hop, k);
    if WindowLaws.InOrder(source) {
      BoundedEvict(buf, times, source, d, n, span, hop, nextEmit, nextEmit + hop, k);
    }
  }

  /** What is left in the buffer: the end of the stream, before the boundary, and for a
      stream in order no further behind it than the wider of span and hop. */
  ghost predicate Retained(buf: seq<Instant>, times: seq<int>, source: seq<Instant>, span: int, hop: int,
                           nextEmit: int)
  {
    && |buf| == |times| <= |source| && buf == source[|source| - |buf|..]
    && (forall j :: 0 <= j < |times| ==> times[j] < nextEmit)
    && (WindowLaws.InOrder(source) ==>
          forall j :: 0 <= j < |times| ==> nextEmit - (if span < hop then hop else span) <= times[j])
  }

  lemma LeftOver(buf: seq<Instant>, times: seq<int>, source: seq<Instant>, d: nat, span: int, hop: int, nextEmit: int,
                 done: seq<H.Picked>)
    requires source != [] && hop > 0 && Handling(buf, times, source, d, |source|, span, hop, nextEmit, done)
    requires H.At(source, |source| - 1) < nextEmit
    ensures Retained(buf, times, source, span, hop, nextEmit)
  {
    hide H.Hops, H.NextEmit, H.Latest, H.AllWithin, WindowLaws.InOrder;
    forall j | 0 <= j < |times| ensures times[j] < nextEmit {
      assert times[j] == H.At(source, d + j);
    }
  }

  /** A window's event runs from its first record's timestamp to its last's, and is
      over its records. */
  ghost predicate BoundedBy(e: Event, win: seq<Instant>)
    requires win != []
  {
    e.WindowEvent? && e.windowStart == win[0].text && e.windowEnd == win[|win| - 1].text && e.over.records == win
  }

  /** The events are the first records, each lifted and accepted. */
  ghost predicate AllLifted(results: seq<Event>, source: seq<Instant>, lift: real -> Option<real>,
                            accept: nat -> bool)
  {
    && |results| <= |source|
    && forall k :: 0 <= k < |results| ==>
         accept(k) && lift(source[k].v).Some? && results[k] == InstantEvent(source[k].text, lift(source[k].v).value)
  }

  /** How a transform ends: with the first record that cannot be lifted, or whose event
      is not accepted, or with the source. */
  ghost predicate TransformRun(results: seq<Event>, status: Status, source: seq<Instant>,
                               lift: real -> Option<real>, accept: nat -> bool)
  {
    && AllLifted(results, source, lift, accept)
    && (|results| < |source| ==> lift(source[|results|].v).None? || !accept(|results|))
    && status == if |results| < |source| && lift(source[|results|].v).None? then Failed else Stopped
  }

  /** The operation lifts every value, as f does. */
  ghost predicate Lifts(lift: real -> Option<real>, f: real -> real) {
    forall v :: lift(v) == Some(f(v))
  }

  lemma LiftedIsTransform(results: seq<Event>, source: seq<Instant>, lift: real -> Option<real>, accept: nat -> bool)
    requires AllLifted(results, source, lift, accept)
    ensures forall f: real -> real | Lifts(lift, f) :: results == Transformed(source[..|results|], f)
  {
    forall f: real -> real | Lifts(lift, f) ensures results == Transformed(source[..|results|], f) {}
  }

  /** TUMBLING after i records: the open window, and every closed one delivered. */
  ghost predicate TumblingAt(source: seq<Instant>, i: nat, span: int, win: seq<Instant>, winEnd: int,
                             results: seq<Event>, emit: Emitter)
    requires i <= |source| && span > 0
  {
    var st := T.Tumble(source, i, span);
    win == st.win && winEnd == st.end && NoneEmpty(st.closed) && UpToDate(results, st.closed, emit)
  }

  lemma TumblingStart(source: seq<Instant>, span: int, emit: Emitter)
    requires span > 0
    ensures TumblingAt(source, 0, span, [], 0, [], emit)
  {}

  /** A record past the end closes the open window, which is delivered ... */
  lemma TumblingCloses(source: seq<Instant>, i: nat, span: int, win: seq<Instant>, winEnd: int,
                       results: seq<Event>, emit: Emitter)
    requires i < |source| && span > 0 && TumblingAt(source, i, span, win, winEnd, results, emit)
    requires win != [] && winEnd <= InstantUnix(source[i], |win|) && emit(|results|, Closed(win)) == Sent
    ensures TumblingAt(source, i + 1, span, [source[i]], FirstEnd(InstantUnix(source[i], |win|), span),
                       results + [ToEvent(Closed(win))], emit)
  {
    T.TumbleStep(source, i, span);
    hide T.Tumble, UpToDate, NoneEmpty, FirstEnd, InstantUnix, ToEvent;
    DeliveredOne(results, T.Tumble(source, i, span).closed, Closed(win), emit);
  }

  /** ... or ends the query. */
  lemma TumblingFails(source: seq<Instant>, i: nat, span: int, win: seq<Instant>, winEnd: int,
                      results: seq<Event>, status: Status, emit: Emitter)
    requires i < |source| && span > 0 && TumblingAt(source, i, span, win, winEnd, results, emit)
    requires win != [] && winEnd <= InstantUnix(source[i], |win|) && emit(|results|, Closed(win)) != Sent
    requires status == if emit(|results|, Closed(win)) == AggregateFailed then Failed else Stopped
    ensures NoneEmpty(T.Tumble(source, |source|, span).closed)
    ensures Delivers(results, status, T.Tumble(source, |source|, span).closed, emit)
  {
    T.TumbleStep(source, i, span);
    hide T.Tumble, UpToDate, NoneEmpty, FirstEnd, InstantUnix, Delivers;
    T.TumblingConserves(source, |source|, span);
    T.TumblingPrefix(source, i + 1, |source|, span);
    Undelivered(results, status, T.Tumble(source, i, span).closed, Closed(win), T.Tumble(source, |source|, span).closed,
                emit);
  }

  /** Any other record joins the open window, or opens the first. */
  lemma TumblingJoins(source: seq<Instant>, i: nat, span: int, win: seq<Instant>, winEnd: int,
                      results: seq<Event>, emit: Emitter)
    requires i < |source| && span > 0 && TumblingAt(source, i, span, win, winEnd, results, emit)
    requires win == [] || InstantUnix(source[i], |win|) < winEnd
    ensures TumblingAt(source, i + 1, span, win + [source[i]],
                       if win == [] then FirstEnd(InstantUnix(source[i], |win|), span) else winEnd, results, emit)
  {
    T.TumbleStep(source, i, span);
    hide T.Tumble, UpToDate, NoneEmpty, FirstEnd, InstantUnix;
  }

  lemma TumblingDone(source: seq<Instant>, span: int, win: seq<Instant>, winEnd: int, results: seq<Event>,
                     emit: Emitter)
    requires span > 0 && TumblingAt(source, |source|, span, win, winEnd, results, emit)
    ensures NoneEmpty(T.Tumble(source, |source|, span).closed)
    ensures Delivers(results, Stopped, T.Tumble(source, |source|, span).closed, emit)
  {
    AllDelivered(results, T.Tumble(source, |source|, span).closed, emit);
  }

  // What the windows are, in terms of the query as it is stated.

  /** The windows are the completed maximal runs of equal time / width. */
  ghost predicate AreRuns(source: seq<Instant>, ws: seq<Closed>, open: seq<Instant>, width: int)
    requires width > 0
  {
    && NoneEmpty(ws) && Flatten(ws) + open == source
    && if source == [] then ws == [] else R.MaximalRuns(ws, open, width)
  }

  ghost predicate DeliversRuns(results: seq<Event>, status: Status, source: seq<Instant>, width: int, emit: Emitter) {
    width > 0 && exists ws, open :: AreRuns(source, ws, open, width) && Delivers(results, status, ws, emit)
  }

  lemma RunsDelivered(spec: Window, results: seq<Event>, status: Status, source: seq<Instant>, emit: Emitter)
    requires var ws := T.Tumble(source, |source|, SpanSeconds(spec)).closed;
             NoneEmpty(ws) && Delivers(results, status, ws, emit)
    ensures forall width: int | WindowLaws.InOrder(source) && Worth(spec.size, spec.unit, width) ::
              DeliversRuns(results, status, source, width, emit)
  {
    hide Delivers, T.Tumble, WindowLaws.InOrder, R.MaximalRuns, Worth, Seconds;
    forall width: int | WindowLaws.InOrder(source) && Worth(spec.size, spec.unit, width)
      ensures DeliversRuns(results, status, source, width, emit)
    {
      SecondsAreWorth(spec.size, spec.unit, width);
      var st := T.Tumble(source, |source|, width);
      if source != [] {
        R.TumblingIsRuns(source, width);
      } else {
        T.TumblingConserves(source, 0, width);
        EmptyTumble(width);
      }
      assert AreRuns(source, st.closed, st.win, width);
    }
  }

  lemma EmptyTumble(width: int)
    requires width > 0
    ensures T.Tumble([], 0, width) == T.State([], 0, [])
  {}

  /** The windows are those of the multiples of the hop, each of its span. */
  ghost predicate DeliversGrid(results: seq<Event>, status: Status, source: seq<Instant>, span: int, hop: int,
                               emit: Emitter)
  {
    hop > 0 && NoneEmpty(G.GridWindows(source, span, hop))
    && Delivers(results, status, G.GridWindows(source, span, hop), emit)
  }

  lemma GridDelivered(spec: Window, results: seq<Event>, status: Status, source: seq<Instant>, emit: Emitter)
    requires Delivers(results, status, H.HoppingWindows(source, SpanSeconds(spec), HopSeconds(spec)), emit)
    ensures forall span: int, hop: int | WindowLaws.InOrder(source)
                                         && Worth(spec.size, spec.unit, span) && Worth(spec.hop, spec.hopUnit, hop) ::
              DeliversGrid(results, status, source, span, hop, emit)
  {
    hide Delivers, H.HoppingWindows, WindowLaws.InOrder, Worth, Seconds, G.GridWindows;
    forall span: int, hop: int | WindowLaws.InOrder(source)
                                 && Worth(spec.size, spec.unit, span) && Worth(spec.hop, spec.hopUnit, hop)
      ensures DeliversGrid(results, status, source, span, hop, emit)
    {
      SecondsAreWorth(spec.size, spec.unit, span);
      SecondsAreWorth(spec.hop, spec.hopUnit, hop);
      G.HoppingIsGrid(source, span, hop);
    }
  }

  class MeosHandle {
    var results: seq<Event>
    var status: Status

    constructor ()
      ensures results == [] && status == Running
    {
      results, status := [], Running;
    }

    /** Delivers one closed window, or ends the query. */
    method EmitWindow(win: seq<Instant>, emit: Emitter) returns (ok: bool)
      requires win != []
      modifies this
      ensures ok <==> emit(old(|results|), Closed(win)) == Sent
      ensures results == if ok then old(results) + [ToEvent(Closed(win))] else old(results)
      ensures ok ==> |results| > 0 && BoundedBy(results[|results| - 1], win)
      ensures status == match emit(old(|results|), Closed(win))
                        case Sent => old(status)
                        case AggregateFailed => Failed
                        case Cancelled => Stopped
    {
      var outcome := emit(|results|, Closed(win));
      match outcome {
        case Sent =>
          results := results + [ToEvent(Closed(win))];
        case AggregateFailed =>
          status := Failed;
        case Cancelled =>
          status := Stopped;
      }
      ok := outcome == Sent;
    }

    /** A transform: every record is lifted and emitted until one cannot be lifted
        or the query is cancelled while it waits; `accept` is the environment's
        answer for the k-th event. */
    method RunTransform(source: seq<Instant>, lift: real -> Option<real>, accept: nat -> bool)
      requires results == [] && status == Running
      modifies this
      ensures TransformRun(results, status, source, lift, accept)
      ensures forall f: real -> real | Lifts(lift, f) :: results == Transformed(source[..|results|], f)
    {
      for i := 0 to |source|
        invariant |results| == i && status == Running
        invariant AllLifted(results, source, lift, accept)
      {
        var out := lift(source[i].v);
        if out.None? {
          status := Failed;
          LiftedIsTransform(results, source, lift, accept);
          return;
        }
        if !accept(i) {
          status := Stopped;
          LiftedIsTransform(results, source, lift, accept);
          return;
        }
        results := results + [InstantEvent(source[i].text, out.value)];
      }
      status := Stopped;
      LiftedIsTransform(results, source, lift, accept);
    }

    /** COUNT and TUMBLING. */
    method RunAggregate(spec: Window, source: seq<Instant>, emit: Emitter)
      requires results == [] && status == Running && !spec.kind.Hopping?
      modifies this
      ensures spec.kind.Tumbling? ==>
                NoneEmpty(T.Tumble(source, |source|, SpanSeconds(spec)).closed) &&
                Delivers(results, status, T.Tumble(source, |source|, SpanSeconds(spec)).closed, emit)
      ensures spec.kind.Count? ==>
                NoneEmpty(T.Chunk(source, |source|, spec.size).closed) &&
                Delivers(results, status, T.Chunk(source, |source|, spec.size).closed, emit)
      ensures forall width: int | spec.kind.Tumbling? && WindowLaws.InOrder(source)
                                  && Worth(spec.size, spec.unit, width) ::
                DeliversRuns(results, status, source, width, emit)
    {
      if spec.kind.Tumbling? {
        RunTumbling(SpanSeconds(spec), source, emit);
        RunsDelivered(spec, results, status, source, emit);
      } else {
        RunCount(spec.size, source, emit);
      }
    }

    method RunTumbling(span: int, source: seq<Instant>, emit: Emitter)
      requires results == [] && status == Running && span > 0
      modifies this
      ensures NoneEmpty(T.Tumble(source, |source|, span).closed)
      ensures Delivers(results, status, T.Tumble(source, |source|, span).closed, emit)
    {
      var win: seq<Instant> := [];
      var winEnd := 0;
      TumblingStart(source, span, emit);
      hide *;
      for i := 0 to |source|
        invariant status == Running && TumblingAt(source, i, span, win, winEnd, results, emit)
      {
        var x := source[i];
        var ts := InstantUnix(x, |win|);
        ghost var sent := results;
        if |win| > 0 && ts >= winEnd {
          var ok := EmitWindow(win, emit);
          if !ok {
            TumblingFails(source, i, span, win, winEnd, results, status, emit);
            return;
          }
          TumblingCloses(source, i, span, win, winEnd, sent, emit);
          win := [];
        } else {
          TumblingJoins(source, i, span, win, winEnd, sent, emit);
        }
        if |win| == 0 {
          winEnd := FirstEnd(ts, span);
        }
        win := win + [x];
        assert [] + [x] == [x];
      }
      TumblingDone(source, span, win, winEnd, results, emit);
      status := Stopped;
    }

    method RunCount(size: int, source: seq<Instant>, emit: Emitter)
      requires results == [] && status == Running
      modifies this
      ensures NoneEmpty(T.Chunk(source, |source|, size).closed)
      ensures Delivers(results, status, T.Chunk(source, |source|, size).closed, emit)
    {
      var win: seq<Instant> := [];
      T.CountConserves(source, |source|, size);
      ghost var all := T.Chunk(source, |source|, size).closed;
      for i := 0 to |source|
        invariant status == Running
        invariant win == T.Chunk(source, i, size).win
        invariant NoneEmpty(T.Chunk(source, i, size).closed)
        invariant UpToDate(results, T.Chunk(source, i, size).closed, emit)
      {
        hide UpToDate, Delivers, NoneEmpty;
        ghost var st := T.Chunk(source, i, size);
        ghost var sent := results;
        T.CountPrefix(source, i + 1, |source|, size);
        assert T.Chunk(source, i + 1, size) == T.Gather(st, source[i], size);
        win := win + [source[i]];
        if |win| >= size {
          var ok := EmitWindow(win, emit);
          if !ok {
            Undelivered(results, status, st.closed, Closed(win), all, emit);
            return;
          }
          DeliveredOne(sent, st.closed, Closed(win), emit);
          win := [];
        }
      }
      AllDelivered(results, all, emit);
      status := Stopped;
    }

    /** Emits the window of boundary nextEmit, unless it is empty. */
    method EmitBoundary(span: int, hop: int, emit: Emitter, buf: seq<Instant>, times: seq<int>, nextEmit: int,
                        ghost source: seq<Instant>, ghost n: nat, ghost d: nat, ghost done: seq<H.Picked>)
        returns (ok: bool, ghost later: seq<H.Picked>)
      requires status == Running && span > 0 && hop > 0 && 0 < n <= |source| && nextEmit <= H.At(source, n - 1)
      requires Handling(buf, times, source, d, n, span, hop, nextEmit, done) && Synced(source, results, done, emit)
      modifies this
      ensures ok ==> status == Running && Synced(source, results, later, emit)
      ensures ok ==> Progress(source, n, span, hop, nextEmit + hop, later)
      ensures !ok ==> EndedEarly(source, results, status, span, hop, emit)
    {
      hide *;
      WindowDue(buf, times, source, d, n, span, hop, nextEmit, done);
      var win := CollectWindow(buf, times, nextEmit - span, nextEmit);
      ghost var w := H.WindowAt(source, n, span, nextEmit);
      later := done + H.NonEmpty(w);
      if |win| > 0 {
        ghost var sent := results;
        ok := EmitWindow(win, emit);
        if ok {
          WindowSent(source, sent, done, w, win, emit);
        } else {
          WindowNotSent(source, sent, status, done, w, win, span, hop, emit);
        }
      } else {
        NothingDue(done, w);
        ok := true;
      }
    }

    /** The inner loop of HOPPING: emits the window of every boundary that record
        n - 1, at time t, has crossed, and evicts behind each. */
    method CatchUp(t: int, span: int, hop: int, emit: Emitter, buf0: seq<Instant>, times0: seq<int>, next0: int,
                   ghost source: seq<Instant>, ghost n: nat, ghost d0: nat, ghost done0: seq<H.Picked>)
        returns (ok: bool, buf: seq<Instant>, times: seq<int>, nextEmit: int, ghost d: nat, ghost done: seq<H.Picked>)
      requires status == Running && span > 0 && hop > 0 && 0 < n <= |source| && t == H.At(source, n - 1)
      requires Handling(buf0, times0, source, d0, n, span, hop, next0, done0) && Synced(source, results, done0, emit)
      modifies this
      ensures ok ==> status == Running && t < nextEmit
      ensures ok ==> Handling(buf, times, source, d, n, span, hop, nextEmit, done)
      ensures ok ==> Synced(source, results, done, emit)
      ensures !ok ==> EndedEarly(source, results, status, span, hop, emit)
    {
      hide *;
      buf, times, nextEmit, d, done := buf0, times0, next0, d0, done0;
      while t >= nextEmit
        invariant status == Running
        invariant Handling(buf, times, source, d, n, span, hop, nextEmit, done) && Synced(source, results, done, emit)
        decreases t - nextEmit
      {
        ghost var later;
        ok, later := EmitBoundary(span, hop, emit, buf, times, nextEmit, source, n, d, done);
        if !ok {
          return;
        }
        nextEmit := nextEmit + hop;
        var k := EvictCount(times, nextEmit - span);
        HandleEvict(buf, times, source, d, n, span, hop, nextEmit - hop, done, later, k);
        buf, times, d, done := buf[k..], times[k..], d + k, later;
      }
      ok := true;
    }

    /** HOPPING: the bounded buffer, the moving boundary and prefix eviction emit
        exactly the windows of the whole history. When the source ends before any
        delivery fails, what is left buffered is the end of the stream and, for a
        stream in order, lies within the wider of span and hop of the boundary. */
    method RunHopping(spec: Window, source: seq<Instant>, emit: Emitter)
        returns (buf: seq<Instant>, bufT: seq<int>, nextEmit: int)
      requires results == [] && status == Running
      modifies this
      ensures var ws := H.HoppingWindows(source, SpanSeconds(spec), HopSeconds(spec));
              && Delivers(results, status, ws, emit)
              && (|results| == |ws| ==>
                    Retained(buf, bufT, source, SpanSeconds(spec), HopSeconds(spec), nextEmit))
      ensures forall span: int, hop: int | WindowLaws.InOrder(source)
                                           && Worth(spec.size, spec.unit, span) && Worth(spec.hop, spec.hopUnit, hop) ::
                DeliversGrid(results, status, source, span, hop, emit)
    {
      var span, hop := SpanSeconds(spec), HopSeconds(spec);
      buf, bufT, nextEmit := [], [], 0;
      var idx := 0;
      var started := false;
      ghost var done: seq<H.Picked> := [];
      ghost var d := 0;
      WaitingAtStart(source, span, hop, emit);
      hide *;
      while idx < |source|
        invariant 0 <= idx <= |source| && status == Running && (started <==> idx > 0)
        invariant Waiting(buf, bufT, source, d, idx, span, hop, nextEmit, done, results, emit)
      {
        var x := source[idx];
        var t := InstantUnix(x, idx);
        Receive(buf, bufT, source, d, idx, span, hop, nextEmit, done, results, emit);
        idx := idx + 1;
        if !started {
          nextEmit := FirstEnd(t, hop);
          started := true;
        }
        buf := buf + [x];
        bufT := bufT + [t];
        var ok;
        ok, buf, bufT, nextEmit, d, done := CatchUp(t, span, hop, emit, buf, bufT, nextEmit, source, idx, d, done);
        if !ok {
          EarlyEnd(source, results, status, span, hop, emit);
          GridDelivered(spec, results, status, source, emit);
          return;
        }
        Caught(buf, bufT, source, d, idx, span, hop, nextEmit, done, results, emit);
      }
      status := Stopped;
      RunsOut(buf, bufT, source, d, span, hop, nextEmit, done, results, emit);
      GridDelivered(spec, results, status, source, emit);
    }
  }
}
