/** What the laps of a replay after the first one emit, and exactly when nothing. */
module Laps {
  import opened Multiples
  import opened Records
  import opened Hopping
  import opened Tumbling
  import opened WindowLaws
  import opened Fallback
  import opened Replay

  /** The first m records of the endless replay. */
  function Replayed(lap: seq<Instant>, m: nat): (s: seq<Instant>)
    requires lap != []
    ensures |s| == m && Replays(s, lap)
  {
    seq(m, q requires 0 <= q < m => lap[q % |lap|])
  }

  /** The first unparsed position from `least` on. */
  lemma UnparsedFrom(lap: seq<Instant>, least: int) returns (q: nat)
    requires lap != [] && !AllParsed(lap)
    ensures least <= q && lap[q % |lap|].stamp.Unparsed?
  {
    var u: nat :| u < |lap| && lap[u].stamp.Unparsed?;
    var k := if least > 0 then least else 0;
    q := u + |lap| * k;
    assert |lap| * k >= k;
    DivModUnique(q, |lap|, k, u);
  }

  // TUMBLING.

  /** After its first lap the replay closes no TUMBLING window. */
  ghost predicate TumblingStops(lap: seq<Instant>, span: int)
    requires lap != [] && span > 0
  {
    forall stream | Replays(stream, lap) && |lap| <= |stream| ::
      Tumble(stream, |stream|, span).closed == Tumble(lap, |lap|, span).closed
  }

  /** While no window closes the open one takes every record. */
  lemma {:induction false} OpenGrows(recs: seq<Instant>, n: nat, m: nat, span: int)
    requires 0 < n <= m <= |recs| && span > 0
    requires Tumble(recs, m, span).closed == Tumble(recs, n, span).closed
    ensures var st, later := Tumble(recs, n, span), Tumble(recs, m, span);
            |later.win| == |st.win| + (m - n) && later.end == st.end
    decreases m
  {
    if n < m {
      TumblingPrefix(recs, n, m - 1, span);
      TumblingPrefix(recs, m - 1, m, span);
      OpenGrows(recs, n, m - 1, span);
    }
  }

  lemma TumblingGoesOn(lap: seq<Instant>, span: int)
    requires lap != [] && span > 0 && !AllParsed(lap)
    ensures !TumblingStops(lap, span)
  {
    hide Tumble, AllParsed, Replays;
    var st := Tumble(lap, |lap|, span);
    var q := UnparsedFrom(lap, |lap| + (if st.end > 0 then st.end else 0));
    var stream := Replayed(lap, q + 1);
    ClosesLater(stream, lap, q, span);
  }

  /** An unparsed record so far on that the open window, had nothing closed since the
      first lap, would reach to its end. */
  lemma ClosesLater(stream: seq<Instant>, lap: seq<Instant>, q: nat, span: int)
    requires Replays(stream, lap) && span > 0 && |lap| <= q && |stream| == q + 1
    requires lap[q % |lap|].stamp.Unparsed? && |lap| + Tumble(lap, |lap|, span).end <= q
    ensures Tumble(stream, q + 1, span).closed != Tumble(lap, |lap|, span).closed
  {
    SamePrefix(stream, lap);
    TumbleOfPrefix(stream, |lap|, |lap|, span);
    assert stream[q] == lap[q % |lap|];
    hide Tumble, Replays;
    var n := |lap|;
    TumblingPrefix(stream, n, q, span);
    TumblingPrefix(stream, q, q + 1, span);
    if Tumble(stream, q, span).closed == Tumble(stream, n, span).closed {
      TumblingConserves(stream, n, span);
      OpenGrows(stream, n, q, span);
      ClosesAt(stream, q, span);
    }
  }

  lemma SamePrefix(stream: seq<Instant>, lap: seq<Instant>)
    requires Replays(stream, lap) && |lap| <= |stream|
    ensures stream[..|lap|] == lap
  {
    forall p | 0 <= p < |lap| ensures stream[p] == lap[p] {
      SmallMod(p, |lap|);
    }
  }

  lemma ClosesAt(recs: seq<Instant>, q: nat, span: int)
    requires q < |recs| && span > 0 && recs[q].stamp.Unparsed?
    requires var st := Tumble(recs, q, span); st.win != [] && st.end <= |st.win|
    ensures |Tumble(recs, q + 1, span).closed| == |Tumble(recs, q, span).closed| + 1
  {}

  /** Whatever the lap, TUMBLING has nothing more to emit after it if and only if
      every timestamp of the lap parses. */
  lemma TumblingStopsIffParsed(lap: seq<Instant>, span: int)
    requires lap != [] && span > 0
    ensures TumblingStops(lap, span) <==> AllParsed(lap)
  {
    if AllParsed(lap) {
      forall stream | Replays(stream, lap) && |lap| <= |stream|
        ensures Tumble(stream, |stream|, span).closed == Tumble(lap, |lap|, span).closed
      {
        OnlyTheFirstLap(stream, lap, span, 1);
      }
    } else {
      TumblingGoesOn(lap, span);
    }
  }

  // HOPPING.

  /** After its first lap the replay emits no HOPPING window. */
  ghost predicate HoppingStops(lap: seq<Instant>, span: int, hop: int)
    requires lap != [] && hop > 0
  {
    forall stream | Replays(stream, lap) && |lap| <= |stream| ::
      HoppingWindows(stream, span, hop) == HoppingWindows(lap, span, hop)
  }

  /** The boundary HOPPING waits for after the first lap. */
  function Waiting(lap: seq<Instant>, hop: int): int
    requires lap != [] && hop > 0
  {
    NextEmit(lap, |lap|, hop, FirstBoundary(lap, hop))
  }

  /** The event time of position q of the endless replay. */
  function ReplayTime(lap: seq<Instant>, q: nat): int
    requires lap != []
  {
    InstantUnix(lap[q % |lap|], q)
  }

  /** Position q of the endless replay lies in the window of a boundary that is still
      to come after the first lap. */
  predicate Due(lap: seq<Instant>, span: int, hop: int, q: nat)
    requires lap != [] && hop > 0
  {
    var t := ReplayTime(lap, q);
    Waiting(lap, hop) - hop <= t && hop - span <= t % hop
  }

  ghost predicate StillDue(lap: seq<Instant>, span: int, hop: int)
    requires lap != [] && hop > 0
  {
    exists q: nat :: Due(lap, span, hop, q)
  }

  lemma TimeInStream(stream: seq<Instant>, lap: seq<Instant>, q: nat)
    requires Replays(stream, lap) && q < |stream|
    ensures At(stream, q) == ReplayTime(lap, q)
  {}

  /** The first lap of a longer stream leaves HOPPING where the lap alone does. */
  lemma AfterFirstLap(stream: seq<Instant>, lap: seq<Instant>, span: int, hop: int)
    requires Replays(stream, lap) && |lap| <= |stream| && hop > 0
    ensures FirstBoundary(stream, hop) == FirstBoundary(lap, hop)
    ensures var e := FirstBoundary(lap, hop);
            && Hops(stream, |lap|, span, hop, e) == Hops(lap, |lap|, span, hop, e)
            && NextEmit(stream, |lap|, hop, e) == Waiting(lap, hop)
            && Latest(stream, |lap|) < Waiting(lap, hop)
            && Waiting(lap, hop) % hop == 0
  {
    var e := FirstBoundary(lap, hop);
    SamePrefix(stream, lap);
    HopsOfPrefix(stream, |lap|, span, hop, e);
    NextEmitOfPrefix(stream, |lap|, hop, e);
    NextEmitOnGrid(lap, |lap|, hop, e);
  }

  lemma {:induction false} NextEmitOfPrefix(recs: seq<Instant>, n: nat, hop: int, e: int)
    requires 0 < n <= |recs| && hop > 0
    ensures NextEmit(recs[..n], n, hop, e) == NextEmit(recs, n, hop, e)
    ensures Latest(recs[..n], n) == Latest(recs, n)
    decreases Latest(recs, n) - e
  {
    LatestOfPrefix(recs, n, n);
    hide Latest;
    if e <= Latest(recs, n) {
      NextEmitOfPrefix(recs, n, hop, e + hop);
    }
  }

  /** Later records add the windows of the boundaries waited for. */
  lemma {:induction false} HopsExtendFurther(recs: seq<Instant>, n: nat, m: nat, span: int, hop: int, e: int)
    requires 0 < n <= m <= |recs| && hop > 0
    ensures Hops(recs, m, span, hop, e)
         == Hops(recs, n, span, hop, e) + Hops(recs, m, span, hop, NextEmit(recs, n, hop, e))
    ensures NextEmit(recs, m, hop, e) == NextEmit(recs, m, hop, NextEmit(recs, n, hop, e))
    decreases m
  {
    hide *;
    var b := NextEmit(recs, n, hop, e);
    if n == m {
      NothingPast(recs, n, span, hop, e);
    } else {
      HopsExtendFurther(recs, n, m - 1, span, hop, e);
      HopsExtend(recs, m - 1, span, hop, e);
      HopsExtend(recs, m - 1, span, hop, b);
      Regroup(Hops(recs, n, span, hop, e), Hops(recs, m - 1, span, hop, b),
              Hops(recs, m, span, hop, NextEmit(recs, m - 1, hop, b)));
    }
  }

  lemma NothingPast(recs: seq<Instant>, n: nat, span: int, hop: int, e: int)
    requires 0 < n <= |recs| && hop > 0
    ensures var b := NextEmit(recs, n, hop, e);
            && Hops(recs, n, span, hop, b) == [] && NextEmit(recs, n, hop, b) == b
            && Hops(recs, n, span, hop, e) == Hops(recs, n, span, hop, e) + []
  {}

  /** A boundary on the grid with something to emit is visited. */
  lemma {:induction false} VisitsBoundary(recs: seq<Instant>, n: nat, span: int, hop: int, e: int, b: int)
    requires 0 < n <= |recs| && hop > 0 && e % hop == 0 && b % hop == 0
    requires e <= b <= Latest(recs, n) && WindowAt(recs, n, span, b) != []
    ensures Hops(recs, n, span, hop, e) != []
    decreases b - e
  {
    hide WindowAt, Latest;
    if e < b {
      NextMultiple(e, hop);
      if b < e + hop {
        CloseMultiples(e, b, hop);
      }
      VisitsBoundary(recs, n, span, hop, e + hop, b);
    }
  }

  /** The boundary whose window a time belongs to. */
  function Boundary(t: int, hop: int): (b: int)
    requires hop > 0
    ensures b % hop == 0 && b - hop <= t < b && t % hop == t - (b - hop)
  {
    ModOfDifference(t, hop);
    NextMultiple(t - t % hop, hop);
    t - t % hop + hop
  }

  lemma BoundaryIsLater(t: int, hop: int, e: int)
    requires hop > 0 && e % hop == 0 && e - hop <= t
    ensures e <= Boundary(t, hop)
  {
    var b := Boundary(t, hop);
    NextMultiple(b, hop);
    if b < e {
      CloseMultiples(b, e, hop);
    }
  }

  lemma BoundaryUnique(t: int, hop: int, b: int)
    requires hop > 0 && b % hop == 0 && b - hop <= t < b
    ensures Boundary(t, hop) == b
  {
    CloseMultiples(Boundary(t, hop), b, hop);
  }

  /** Up to position q the endless replay stays below a boundary past the first lap
      and past q. */
  lemma BelowBoundary(stream: seq<Instant>, lap: seq<Instant>, q: nat, b: int)
    requires Replays(stream, lap) && |lap| <= |stream| && q < |stream|
    requires Latest(stream, |lap|) < b && (q < |lap| || q < b)
    ensures forall p :: 0 <= p <= q ==> At(stream, p) < b
  {
    LatestIsMaximum(stream, |lap|);
    forall p | 0 <= p <= q ensures At(stream, p) < b {
      if p >= |lap| && stream[p].stamp.Parsed? {
        SmallMod(p % |lap|, |lap|);
        assert stream[p % |lap|] == stream[p];
        assert At(stream, p % |lap|) <= Latest(stream, |lap|);
      }
    }
  }

  lemma InItsWindow(recs: seq<Instant>, n: nat, span: int, b: int, q: nat)
    requires 0 < n <= |recs| && q < n && b <= Latest(recs, n)
    requires (forall p :: 0 <= p <= q ==> At(recs, p) < b) && b - span <= At(recs, q)
    ensures WindowAt(recs, n, span, b) != []
  {
    PickMeaning(recs, 0, Crossing(recs, n, b), b - span, b);
    assert q < Crossing(recs, n, b);
    assert q in WindowAt(recs, n, span, b);
  }

  /** A parsed time is reached in the first lap already. */
  lemma DueEarly(lap: seq<Instant>, span: int, hop: int, q: nat) returns (r: nat)
    requires lap != [] && hop > 0 && Due(lap, span, hop, q)
    ensures Due(lap, span, hop, r) && (r < |lap| || r == ReplayTime(lap, r))
  {
    if lap[q % |lap|].stamp.Parsed? {
      r := q % |lap|;
      SmallMod(r, |lap|);
    } else {
      r := q;
    }
  }

  lemma HoppingGoesOn(lap: seq<Instant>, span: int, hop: int)
    requires lap != [] && hop > 0 && !AllParsed(lap) && StillDue(lap, span, hop)
    ensures !HoppingStops(lap, span, hop)
  {
    var q0: nat :| Due(lap, span, hop, q0);
    var q := DueEarly(lap, span, hop, q0);
    var t := ReplayTime(lap, q);
    var b := Boundary(t, hop);
    assert b - span <= t && Waiting(lap, hop) - hop <= t;
    hide Due, ReplayTime, Boundary, Waiting, AllParsed;
    var v := UnparsedFrom(lap, |lap| + q + 1 + (if b > 0 then b else 0));
    var stream := Replayed(lap, v + 1);
    AfterFirstLap(stream, lap, span, hop);
    BoundaryIsLater(t, hop, Waiting(lap, hop));
    TimeInStream(stream, lap, q);
    BelowBoundary(stream, lap, q, b);
    LatestIsMaximum(stream, |stream|);
    assert At(stream, v) == v;
    hide At;
    MoreWindows(stream, lap, span, hop, b, q);
  }

  lemma MoreWindows(stream: seq<Instant>, lap: seq<Instant>, span: int, hop: int, b: int, q: nat)
    requires lap != [] && Replays(stream, lap) && |lap| <= |stream| && hop > 0 && q < |stream|
    requires b % hop == 0 && Waiting(lap, hop) <= b <= Latest(stream, |stream|)
    requires (forall p :: 0 <= p <= q ==> At(stream, p) < b) && b - span <= At(stream, q)
    ensures |HoppingWindows(stream, span, hop)| > |HoppingWindows(lap, span, hop)|
  {
    hide Hops, Latest, At, Waiting, FirstBoundary, NextEmit, Replays;
    var n := |stream|;
    var e := FirstBoundary(lap, hop);
    AfterFirstLap(stream, lap, span, hop);
    InItsWindow(stream, n, span, b, q);
    HopsExtendFurther(stream, |lap|, n, span, hop, e);
    VisitsBoundary(stream, n, span, hop, Waiting(lap, hop), b);
  }

  lemma NotInWindow(lap: seq<Instant>, span: int, hop: int, b: int, q: nat)
    requires lap != [] && hop > 0 && !StillDue(lap, span, hop) && span <= hop
    requires b % hop == 0 && Waiting(lap, hop) <= b
    ensures !(b - span <= ReplayTime(lap, q) < b)
  {
    hide Waiting, ReplayTime;
    assert !Due(lap, span, hop, q);
    var t := ReplayTime(lap, q);
    if b - span <= t < b {
      BoundaryUnique(t, hop, b);
    }
  }

  lemma NonePicked(recs: seq<Instant>, n: nat, span: int, b: int)
    requires 0 < n <= |recs| && b <= Latest(recs, n)
    requires forall p: nat :: p < Crossing(recs, n, b) ==> !(b - span <= At(recs, p) < b)
    ensures WindowAt(recs, n, span, b) == []
  {
    hide Latest, At;
    PickNone(recs, 0, Crossing(recs, n, b), b - span, b);
  }

  lemma NothingDue(stream: seq<Instant>, lap: seq<Instant>, span: int, hop: int, b: int)
    requires Replays(stream, lap) && |lap| <= |stream| && hop > 0 && !StillDue(lap, span, hop) && span <= hop
    requires b % hop == 0 && Waiting(lap, hop) <= b <= Latest(stream, |stream|)
    ensures WindowAt(stream, |stream|, span, b) == []
  {
    hide Due, StillDue, Waiting, Latest, ReplayTime, At;
    var c := Crossing(stream, |stream|, b);
    forall p: nat | p < c ensures !(b - span <= At(stream, p) < b) {
      TimeInStream(stream, lap, p);
      NotInWindow(lap, span, hop, b, p);
    }
    hide *;
    NonePicked(stream, |stream|, span, b);
  }

  lemma {:induction false} NothingMore(stream: seq<Instant>, lap: seq<Instant>, span: int, hop: int, b: int)
    requires lap != [] && Replays(stream, lap) && |lap| <= |stream|
    requires hop > 0 && !StillDue(lap, span, hop) && span <= hop
    requires b % hop == 0 && Waiting(lap, hop) <= b
    ensures Hops(stream, |stream|, span, hop, b) == []
    decreases Latest(stream, |stream|) - b
  {
    hide Latest, WindowAt, StillDue, Waiting, Replays;
    if b <= Latest(stream, |stream|) {
      NothingDue(stream, lap, span, hop, b);
      NextMultiple(b, hop);
      NothingMore(stream, lap, span, hop, b + hop);
    }
  }

  lemma StopsWhenNothingDue(stream: seq<Instant>, lap: seq<Instant>, span: int, hop: int)
    requires Replays(stream, lap) && |lap| <= |stream| && hop > 0 && !StillDue(lap, span, hop) && span <= hop
    ensures HoppingWindows(stream, span, hop) == HoppingWindows(lap, span, hop)
  {
    hide Hops, Latest, Waiting, FirstBoundary, NextEmit, StillDue, Contents;
    var e := FirstBoundary(lap, hop);
    AfterFirstLap(stream, lap, span, hop);
    HopsExtendFurther(stream, |lap|, |stream|, span, hop, e);
    NothingMore(stream, lap, span, hop, Waiting(lap, hop));
    SamePrefix(stream, lap);
    HopsAreWithin(lap, |lap|, span, hop, e);
    assert Hops(lap, |lap|, span, hop, e) + [] == Hops(lap, |lap|, span, hop, e);
    ContentsOfPrefix(stream, |lap|, Hops(lap, |lap|, span, hop, e));
  }

  /** With a span no shorter than the hop every time is in some window. */
  lemma UnparsedStaysDue(lap: seq<Instant>, span: int, hop: int)
    requires lap != [] && hop > 0 && hop <= span && !AllParsed(lap)
    ensures StillDue(lap, span, hop)
  {
    var q := UnparsedFrom(lap, Waiting(lap, hop));
    hide Waiting, AllParsed;
    assert ReplayTime(lap, q) == q;
    assert Due(lap, span, hop, q);
  }

  /** Whatever the lap, the span and the hop, HOPPING has nothing more to emit after
      the first lap if and only if every timestamp parses, or no position of the
      endless replay lies in a window that is still to come. */
  lemma HoppingStopsIff(lap: seq<Instant>, span: int, hop: int)
    requires lap != [] && span > 0 && hop > 0
    ensures HoppingStops(lap, span, hop) <==> AllParsed(lap) || !StillDue(lap, span, hop)
  {
    hide StillDue, HoppingWindows;
    if AllParsed(lap) {
      forall stream | Replays(stream, lap) && |lap| <= |stream|
        ensures HoppingWindows(stream, span, hop) == HoppingWindows(lap, span, hop)
      {
        OnlyTheFirstLap(stream, lap, span, hop);
      }
    } else if StillDue(lap, span, hop) {
      HoppingGoesOn(lap, span, hop);
    } else {
      if hop <= span {
        UnparsedStaysDue(lap, span, hop);
      }
      forall stream | Replays(stream, lap) && |lap| <= |stream|
        ensures HoppingWindows(stream, span, hop) == HoppingWindows(lap, span, hop)
      {
        StopsWhenNothingDue(stream, lap, span, hop);
      }
    }
  }

  /** So with a span no shorter than the hop it is the same condition as TUMBLING's. */
  lemma HoppingStopsIffParsed(lap: seq<Instant>, span: int, hop: int)
    requires lap != [] && hop > 0 && hop <= span
    ensures HoppingStops(lap, span, hop) <==> AllParsed(lap)
  {
    HoppingStopsIff(lap, span, hop);
    if !AllParsed(lap) {
      UnparsedStaysDue(lap, span, hop);
    }
  }

  /** A lap none of whose timestamps parse, as a store that writes hour-only offsets
      gives: every lap adds HOPPING windows, one per boundary the positions pass ... */
  lemma UnparsedLapsHop(stream: seq<Instant>, lap: seq<Instant>, span: int, hop: int, k: nat)
    requires Replays(stream, lap) && stream != [] && AllUnparsed(lap) && span > 0 && hop > 0
    ensures var ws, b := HoppingWindows(stream, span, hop), hop * (k + 1);
            && (k < |ws| <==> b < |stream|)
            && (k < |ws| ==> ws[k].records == Stretch(stream, b - span, b))
  {
    assert AllUnparsed(stream);
    hide HoppingWindows, AllUnparsed, Replays;
    FallbackHopping(stream, span, hop, k);
  }

  /** The records at the positions from lo up to hi. */
  function Stretch(recs: seq<Instant>, lo: int, hi: int): seq<Instant> {
    if Max(0, lo) <= hi <= |recs| then recs[Max(0, lo)..hi] else []
  }

  /** ... and TUMBLING's windows go on growing by a span each, as many as the stream
      has records for. */
  lemma UnparsedLapsTumble(stream: seq<Instant>, lap: seq<Instant>, span: int)
    requires Replays(stream, lap) && stream != [] && AllUnparsed(lap) && span > 0
    ensures var ts := Tumble(stream, |stream|, span).closed;
            && (forall k :: 0 <= k < |ts| ==> |ts[k].records| == span * (k + 1))
            && span * (|ts| * (|ts| + 1)) < 2 * |stream| <= span * ((|ts| + 1) * (|ts| + 2))
  {
    assert AllUnparsed(stream);
    hide Tumble, AllUnparsed, Replays;
    FallbackGrows(stream, |stream|, span);
    FallbackConsumes(stream, |stream|, span);
    Triangle(span, |Tumble(stream, |stream|, span).closed|);
  }
}
