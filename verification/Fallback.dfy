/** Streams none of whose timestamps parse: HOPPING falls back to the position in
    the stream, TUMBLING to the length of its open window. */
module Fallback {
  import opened Records
  import opened Hopping
  import opened Tumbling

  lemma {:induction false} LatestIsPosition(recs: seq<Instant>, n: nat)
    requires 0 < n <= |recs| && AllUnparsed(recs)
    ensures Latest(recs, n) == n - 1
  {
    if n > 1 {
      LatestIsPosition(recs, n - 1);
    }
  }

  function Max(a: int, b: int): int {
    if a >= b then a else b
  }

  /** The window of boundary e is the last `span` records before position e, or
      all of them if there are fewer. */
  lemma FallbackWindow(recs: seq<Instant>, n: nat, span: int, e: int)
    requires 0 < n <= |recs| && AllUnparsed(recs) && span > 0 && 0 < e < n
    ensures e <= Latest(recs, n)
    ensures var w := WindowAt(recs, n, span, e);
            w != [] && Within(recs, w) && Select(recs, w) == recs[Max(0, e - span)..e]
  {
    LatestIsPosition(recs, n);
    var c := Crossing(recs, n, e);
    assert c == e by {
      assert e <= At(recs, c) && At(recs, c) == c;
      assert e < c ==> At(recs, e) < e;
    }
    var d := Max(0, e - span);
    PickSkips(recs, d, e, e - span, e);
    PickAll(recs, d, e, e - span, e);
  }

  /** HOPPING over unparsed stamps emits one window per boundary the positions
      reach, each of min(E, span) records. */
  lemma {:induction false} FallbackHops(recs: seq<Instant>, n: nat, span: int, hop: int, e: int, k: nat)
    requires 0 < n <= |recs| && AllUnparsed(recs) && span > 0 && hop > 0 && 0 < e
    ensures var ws := Hops(recs, n, span, hop, e);
            && (k < |ws| <==> e + hop * k < n)
            && (k < |ws| ==> Within(recs, ws[k].at)
                             && Select(recs, ws[k].at) == recs[Max(0, e + hop * k - span)..e + hop * k])
    decreases k
  {
    hide WindowAt, Within, Select;
    LatestIsPosition(recs, n);
    assert hop * k >= 0;
    if e < n {
      FallbackWindow(recs, n, span, e);
      if k > 0 {
        FallbackHops(recs, n, span, hop, e + hop, k - 1);
        assert hop * k == hop + hop * (k - 1);
      } else {
        assert hop * 0 == 0;
      }
    }
  }

  /** ... so the k-th window of the stream belongs to boundary E = hop*(k+1) and
      holds the min(E, span) records before position E. */
  lemma FallbackHopping(recs: seq<Instant>, span: int, hop: int, k: nat)
    requires recs != [] && AllUnparsed(recs) && span > 0 && hop > 0
    ensures var ws := HoppingWindows(recs, span, hop);
            var e := hop * (k + 1);
            && (k < |ws| <==> e < |recs|)
            && (k < |ws| ==> ws[k].records == recs[Max(0, e - span)..e])
  {
    hide Hops, Select;
    assert FirstBoundary(recs, hop) == hop;
    assert hop * (k + 1) == hop + hop * k;
    FallbackHops(recs, |recs|, span, hop, hop, k);
  }

  lemma {:induction false} FlattenPrefix(ws: seq<Closed>)
    requires ws != []
    ensures |ws[0].records| <= |Flatten(ws)| && Flatten(ws)[..|ws[0].records|] == ws[0].records
  {
    if |ws| > 1 {
      FlattenPrefix(ws[..|ws| - 1]);
    } else {
      assert Flatten(ws[..0]) == [];
    }
  }

  lemma Growth(s: int, k: int)
    requires s > 0 && k >= 0
    ensures k == 0 ==> s * (k * (k + 1)) == 0
    ensures k >= 1 ==> s * (k * (k + 1)) >= 2 * s
    ensures k >= 2 ==> s * (k * (k + 1)) >= 6 * s
  {
    if k >= 1 {
      assert k * (k + 1) >= k + 1;
      assert k >= 2 ==> k * (k + 1) >= 2 * (k + 1);
      var rest := k * (k + 1) - (if k >= 2 then 6 else 2);
      assert s * (rest + (if k >= 2 then 6 else 2)) == s * rest + s * (if k >= 2 then 6 else 2);
      assert s * rest >= 0;
    }
  }

  /** How many windows TUMBLING has closed, near the start of the stream. */
  lemma FewClosed(recs: seq<Instant>, span: int)
    requires recs != [] && span > 0 && AllUnparsed(recs)
    ensures var k := |Tumble(recs, |recs|, span).closed|;
            && (k == 0 <==> |recs| <= span)
            && (|recs| <= 2 * span ==> k <= 1)
  {
    hide Tumble;
    FallbackGrows(recs, |recs|, span);
    FallbackConsumes(recs, |recs|, span);
    var k := |Tumble(recs, |recs|, span).closed|;
    Growth(span, k);
    assert k == 0 ==> span * (k + 1) == span;
  }

  /** The first two windows of HOPPING with hop = span, if they are emitted. */
  lemma FirstHops(recs: seq<Instant>, span: int)
    requires recs != [] && span > 0 && AllUnparsed(recs)
    ensures var hs := HoppingWindows(recs, span, span);
            && (|hs| > 0 <==> |recs| > span)
            && (|hs| > 1 <==> |recs| > 2 * span)
            && (|hs| > 0 ==> hs[0].records == recs[..span])
            && (|hs| > 1 ==> hs[1].records == recs[span..2 * span])
  {
    hide HoppingWindows;
    assert span * (0 + 1) == span && span * (1 + 1) == 2 * span;
    FallbackHopping(recs, span, span, 0);
    FallbackHopping(recs, span, span, 1);
  }

  /** The first window of TUMBLING is the first span of records, and the second is
      twice as long. */
  lemma FirstTumbles(recs: seq<Instant>, span: int)
    requires recs != [] && span > 0 && AllUnparsed(recs)
    ensures var ts := Tumble(recs, |recs|, span).closed;
            && (|ts| > 0 ==> span <= |recs| && ts[0].records == recs[..span])
            && (|ts| > 1 ==> |ts[1].records| == 2 * span)
  {
    hide Tumble;
    FallbackGrows(recs, |recs|, span);
    var ts := Tumble(recs, |recs|, span).closed;
    assert span * (0 + 1) == span && span * (1 + 1) == 2 * span;
    if |ts| > 0 {
      TumblingConserves(recs, |recs|, span);
      FlattenPrefix(ts);
      assert recs[..|recs|] == recs;
      assert ts[0].records == Flatten(ts)[..span] == recs[..span];
    }
  }

  /** Without parseable timestamps the two operators, which the comment on the
      fallback treats alike, agree for the first two spans of records and never
      after that: TUMBLING's second window is twice as long as HOPPING's. */
  lemma AgreeOnlyAtFirst(recs: seq<Instant>, span: int)
    requires recs != [] && span > 0 && AllUnparsed(recs)
    ensures HoppingWindows(recs, span, span) == Tumble(recs, |recs|, span).closed <==> |recs| <= 2 * span
  {
    hide Tumble, HoppingWindows;
    FewClosed(recs, span);
    FirstHops(recs, span);
    FirstTumbles(recs, span);
  }
}
