/** What HOPPING emits over a stream in order, said without the operator: one window
    for each multiple of the hop that the stream passes, of the records in the span
    before it, leaving out the empty ones. */
module HopGrid {
  import opened Records
  import opened Slots
  import opened Hopping
  import opened Tumbling
  import opened WindowLaws

  /** The records whose time lies in [lo, hi), in stream order. */
  function Between(recs: seq<Instant>, lo: int, hi: int): seq<Instant> {
    if recs == [] then []
    else
      var x := recs[|recs| - 1];
      Between(recs[..|recs| - 1], lo, hi) + if x.stamp.Parsed? && lo <= x.stamp.unix < hi then [x] else []
  }

  function Keep(w: seq<Instant>): seq<Closed> {
    if w == [] then [] else [Closed(w)]
  }

  /** The windows of the multiples hop * i, hop * (i + 1), ..., hop * last. */
  function Kept(recs: seq<Instant>, span: int, hop: int, i: int, last: int): seq<Closed>
    decreases last - i
  {
    if last < i then [] else Keep(Between(recs, hop * i - span, hop * i)) + Kept(recs, span, hop, i + 1, last)
  }

  /** The windows of the multiples of the hop past the first record's time, up to the
      last record's. */
  function GridWindows(recs: seq<Instant>, span: int, hop: int): seq<Closed>
    requires hop > 0
  {
    if recs == [] || !recs[0].stamp.Parsed? || !recs[|recs| - 1].stamp.Parsed? then []
    else Kept(recs, span, hop, recs[0].stamp.unix / hop + 1, recs[|recs| - 1].stamp.unix / hop)
  }

  lemma {:induction false} PickIsBetween(recs: seq<Instant>, n: nat, lo: int, hi: int)
    requires n <= |recs| && AllParsed(recs)
    ensures var w := Pick(recs, 0, n, lo, hi);
            (forall j :: 0 <= j < |w| ==> 0 <= w[j] < |recs|) && Select(recs, w) == Between(recs[..n], lo, hi)
  {
    if n > 0 {
      PickIsBetween(recs, n - 1, lo, hi);
      assert recs[..n][..n - 1] == recs[..n - 1];
    }
  }

  lemma {:induction false} BetweenStops(recs: seq<Instant>, c: nat, lo: int, hi: int)
    requires c <= |recs| && forall p :: c <= p < |recs| ==> recs[p].stamp.Parsed? && hi <= recs[p].stamp.unix
    ensures Between(recs, lo, hi) == Between(recs[..c], lo, hi)
    decreases |recs|
  {
    if c < |recs| {
      var front := recs[..|recs| - 1];
      BetweenStops(front, c, lo, hi);
      assert front[..c] == recs[..c];
    } else {
      assert recs[..c] == recs;
    }
  }

  /** In order, a boundary's window is what the whole stream has in its span. */
  lemma WindowIsBetween(recs: seq<Instant>, span: int, e: int)
    requires recs != [] && InOrder(recs) && e <= Latest(recs, |recs|)
    ensures var w := WindowAt(recs, |recs|, span, e);
            (w == [] || Within(recs, w)) && Contents(recs, NonEmptyWithin(recs, w)) == Keep(Between(recs, e - span, e))
  {
    hide *;
    var c := Crossed(recs, span, e);
    WindowAtIsWithin(recs, |recs|, span, e);
    PickIsBetween(recs, c, e - span, e);
    BetweenStops(recs, c, e - span, e);
    ContentsOfOne(recs, WindowAt(recs, |recs|, span, e));
  }

  /** In order, every record from the crossing on is at or past the boundary. */
  lemma Crossed(recs: seq<Instant>, span: int, e: int) returns (c: nat)
    requires recs != [] && InOrder(recs) && e <= Latest(recs, |recs|)
    ensures c <= |recs| && WindowAt(recs, |recs|, span, e) == Pick(recs, 0, c, e - span, e)
    ensures AllParsed(recs) && forall p :: c <= p < |recs| ==> recs[p].stamp.Parsed? && e <= recs[p].stamp.unix
  {
    hide Pick, Latest;
    c := Crossing(recs, |recs|, e);
    forall p | c <= p < |recs| ensures recs[p].stamp.Parsed? && e <= recs[p].stamp.unix {
      assert At(recs, c) <= At(recs, p);
    }
  }

  lemma ContentsOfOne(recs: seq<Instant>, w: seq<int>)
    requires w == [] || Within(recs, w)
    ensures (forall j :: 0 <= j < |w| ==> 0 <= w[j] < |recs|)
            && Contents(recs, NonEmptyWithin(recs, w)) == Keep(Select(recs, w))
  {}

  function NonEmptyWithin(recs: seq<Instant>, w: seq<int>): (r: seq<Picked>)
    requires w == [] || Within(recs, w)
    ensures AllWithin(recs, r) && r == NonEmpty(w)
  {
    NonEmpty(w)
  }

  lemma ContentsJoin(recs: seq<Instant>, a: seq<Picked>, b: seq<Picked>)
    requires AllWithin(recs, a) && AllWithin(recs, b)
    ensures AllWithin(recs, a + b) && Contents(recs, a + b) == Contents(recs, a) + Contents(recs, b)
  {
    forall k | 0 <= k < |a + b| ensures Within(recs, (a + b)[k].at) {
      assert k < |a| ==> Within(recs, a[k].at);
      assert |a| <= k ==> Within(recs, b[k - |a|].at);
    }
    hide Within;
  }

  lemma {:induction false} HopsAreKept(recs: seq<Instant>, span: int, hop: int, i: int, last: int)
    requires recs != [] && hop > 0 && InOrder(recs) && Latest(recs, |recs|) / hop == last
    ensures var ws := Hops(recs, |recs|, span, hop, SlotStart(i, hop));
            AllWithin(recs, ws) && Contents(recs, ws) == Kept(recs, span, hop, i, last)
    decreases last - i
  {
    var n := |recs|;
    var e := SlotStart(i, hop);
    hide *;
    SlotDecides(Latest(recs, n), hop, i);
    if i <= last {
      HopsAreKept(recs, span, hop, i + 1, last);
      WindowIsBetween(recs, span, e);
      HopsFirst(recs, span, hop, i);
      KeptFirst(recs, span, hop, i, last);
      var w := WindowAt(recs, n, span, e);
      ContentsJoin(recs, NonEmptyWithin(recs, w), Hops(recs, n, span, hop, SlotStart(i + 1, hop)));
    } else {
      NothingKept(recs);
      KeptNone(recs, span, hop, i, last);
      HopsNone(recs, n, span, hop, e);
    }
  }

  lemma HopsFirst(recs: seq<Instant>, span: int, hop: int, i: int)
    requires recs != [] && hop > 0 && SlotStart(i, hop) <= Latest(recs, |recs|)
    ensures Hops(recs, |recs|, span, hop, SlotStart(i, hop))
         == NonEmpty(WindowAt(recs, |recs|, span, SlotStart(i, hop)))
            + Hops(recs, |recs|, span, hop, SlotStart(i + 1, hop))
  {
    SlotStep(i, hop);
  }

  lemma HopsNone(recs: seq<Instant>, n: nat, span: int, hop: int, e: int)
    requires 0 < n <= |recs| && hop > 0 && Latest(recs, n) < e
    ensures Hops(recs, n, span, hop, e) == []
  {}

  lemma KeptFirst(recs: seq<Instant>, span: int, hop: int, i: int, last: int)
    requires i <= last
    ensures Kept(recs, span, hop, i, last)
         == Keep(Between(recs, SlotStart(i, hop) - span, SlotStart(i, hop))) + Kept(recs, span, hop, i + 1, last)
  {}

  lemma KeptNone(recs: seq<Instant>, span: int, hop: int, i: int, last: int)
    requires last < i
    ensures Kept(recs, span, hop, i, last) == []
  {}

  lemma NothingKept(recs: seq<Instant>)
    ensures AllWithin(recs, []) && Contents(recs, []) == []
  {}

  lemma LatestIsLast(recs: seq<Instant>)
    requires recs != [] && InOrder(recs)
    ensures recs[|recs| - 1].stamp.Parsed? && Latest(recs, |recs|) == recs[|recs| - 1].stamp.unix
  {
    LatestIsMaximum(recs, |recs|);
    assert At(recs, |recs| - 1) == recs[|recs| - 1].stamp.unix;
  }

  lemma FirstOnGrid(recs: seq<Instant>, hop: int)
    requires recs != [] && hop > 0 && InOrder(recs)
    ensures recs[0].stamp.Parsed? && recs[|recs| - 1].stamp.Parsed?
    ensures FirstBoundary(recs, hop) == SlotStart(recs[0].stamp.unix / hop + 1, hop)
  {
    hide SlotStart, FirstEnd;
    FirstEndIsSlotEnd(At(recs, 0), hop);
  }

  /** Over a stream in order HOPPING emits the windows of the grid. */
  lemma HoppingIsGrid(recs: seq<Instant>, span: int, hop: int)
    requires hop > 0 && InOrder(recs)
    ensures HoppingWindows(recs, span, hop) == GridWindows(recs, span, hop)
  {
    if recs != [] {
      FirstOnGrid(recs, hop);
      hide Hops, Kept, Contents, InOrder, FirstBoundary, SlotStart;
      LatestIsLast(recs);
      HopsAreKept(recs, span, hop, recs[0].stamp.unix / hop + 1, recs[|recs| - 1].stamp.unix / hop);
    }
  }
}
