/** What a HOPPING query emits, stated over the whole history of the stream: for
    each boundary in turn, the records of the history that lie in the span before
    it. The incremental operator with its bounded buffer is in MeosEngine. */
module Hopping {
  import opened Records

  /** The positions of one window's records. */
  datatype Picked = Picked(at: seq<int>)

  /** Event time of the record at position p; an unparsed stamp counts as the
      record's own position in the stream. */
  function At(recs: seq<Instant>, p: int): int
    requires 0 <= p < |recs|
  {
    InstantUnix(recs[p], p)
  }

  /** The positions in [from, upto) whose time lies in [lo, hi), in stream order. */
  function Pick(recs: seq<Instant>, from: nat, upto: nat, lo: int, hi: int): (w: seq<int>)
    requires from <= upto <= |recs|
    decreases upto
  {
    if from == upto then []
    else
      var w := Pick(recs, from, upto - 1, lo, hi);
      if lo <= At(recs, upto - 1) < hi then w + [upto - 1] else w
  }

  lemma {:induction false} PickMeaning(recs: seq<Instant>, from: nat, upto: nat, lo: int, hi: int)
    requires from <= upto <= |recs|
    ensures var w := Pick(recs, from, upto, lo, hi);
            && (forall p: int :: p in w <==> from <= p < upto && lo <= At(recs, p) < hi)
            && (forall i, j :: 0 <= i < j < |w| ==> w[i] < w[j])
    decreases upto
  {
    if from < upto {
      PickMeaning(recs, from, upto - 1, lo, hi);
      var w := Pick(recs, from, upto - 1, lo, hi);
      forall j | 0 <= j < |w| ensures w[j] < upto - 1 {
        assert w[j] in w;
      }
      hide At;
    }
  }

  /** Records before the lower bound contribute nothing, however many there are. */
  lemma {:induction false} PickSkips(recs: seq<Instant>, d: nat, upto: nat, lo: int, hi: int)
    requires d <= upto <= |recs|
    requires forall p: nat :: p < d ==> At(recs, p) < lo
    ensures Pick(recs, 0, upto, lo, hi) == Pick(recs, d, upto, lo, hi)
    decreases upto
  {
    if d < upto {
      PickSkips(recs, d, upto - 1, lo, hi);
    } else if d > 0 {
      PickSkips(recs, d - 1, d - 1, lo, hi);
    }
  }

  /** A range of records that all lie in the bounds is picked whole. */
  lemma {:induction false} PickAll(recs: seq<Instant>, from: nat, upto: nat, lo: int, hi: int)
    requires from <= upto <= |recs|
    requires forall p: nat :: from <= p < upto ==> lo <= At(recs, p) < hi
    ensures |Pick(recs, from, upto, lo, hi)| == upto - from
    ensures forall j :: 0 <= j < upto - from ==> Pick(recs, from, upto, lo, hi)[j] == from + j
    decreases upto
  {
    if from < upto {
      PickAll(recs, from, upto - 1, lo, hi);
    }
  }

  lemma {:induction false} PickNone(recs: seq<Instant>, from: nat, upto: nat, lo: int, hi: int)
    requires from <= upto <= |recs|
    requires forall p: nat :: from <= p < upto ==> !(lo <= At(recs, p) < hi)
    ensures Pick(recs, from, upto, lo, hi) == []
    decreases upto
  {
    if from < upto {
      PickNone(recs, from, upto - 1, lo, hi);
    }
  }

  /** The records at the given positions. */
  function Select(recs: seq<Instant>, w: seq<int>): (r: seq<Instant>)
    requires forall j :: 0 <= j < |w| ==> 0 <= w[j] < |recs|
    ensures |r| == |w| && forall j :: 0 <= j < |w| ==> r[j] == recs[w[j]]
  {
    seq(|w|, j requires 0 <= j < |w| => recs[w[j]])
  }

  /** The latest event time among the first n records. */
  function Latest(recs: seq<Instant>, n: nat): int
    requires 0 < n <= |recs|
  {
    if n == 1 then At(recs, 0)
    else if At(recs, n - 1) > Latest(recs, n - 1) then At(recs, n - 1)
    else Latest(recs, n - 1)
  }

  lemma {:induction false} LatestIsMaximum(recs: seq<Instant>, n: nat)
    requires 0 < n <= |recs|
    ensures forall p: nat :: p < n ==> At(recs, p) <= Latest(recs, n)
    ensures exists p: nat :: p < n && At(recs, p) == Latest(recs, n)
  {
    if n > 1 {
      LatestIsMaximum(recs, n - 1);
    }
    assert At(recs, n - 1) <= Latest(recs, n);
  }

  /** The position of the record that crosses boundary e: the first at or past it. */
  function Crossing(recs: seq<Instant>, n: nat, e: int): (p: nat)
    requires 0 < n <= |recs| && e <= Latest(recs, n)
    ensures p < n && e <= At(recs, p)
    ensures forall q: nat :: q < p ==> At(recs, q) < e
  {
    if n > 1 && e <= Latest(recs, n - 1) then Crossing(recs, n - 1, e)
    else
      assert forall q: nat :: q < n - 1 ==> At(recs, q) < e by {
        if n > 1 { LatestIsMaximum(recs, n - 1); }
      }
      n - 1
  }

  /** The window of boundary e: the filter of the entire history up to the record
      that crosses e to the times [e - span, e). */
  function WindowAt(recs: seq<Instant>, n: nat, span: int, e: int): (w: seq<int>)
    requires 0 < n <= |recs| && e <= Latest(recs, n)
  {
    Pick(recs, 0, Crossing(recs, n, e), e - span, e)
  }

  /** The windows of the boundaries e, e + hop, e + 2*hop, ... that the first n
      records reach, one each and in order, leaving out the empty ones. */
  function Hops(recs: seq<Instant>, n: nat, span: int, hop: int, e: int): (ws: seq<Picked>)
    requires 0 < n <= |recs| && hop > 0
    decreases Latest(recs, n) - e
  {
    if Latest(recs, n) < e then []
    else NonEmpty(WindowAt(recs, n, span, e)) + Hops(recs, n, span, hop, e + hop)
  }

  function NonEmpty(w: seq<int>): seq<Picked> {
    if w == [] then [] else [Picked(w)]
  }

  /** The first boundary of the grid e, e + hop, ... past the first n records. */
  function NextEmit(recs: seq<Instant>, n: nat, hop: int, e: int): (b: int)
    requires 0 < n <= |recs| && hop > 0
    ensures Latest(recs, n) < b && e <= b
    ensures b == e || b - hop <= Latest(recs, n)
    decreases Latest(recs, n) - e
  {
    if Latest(recs, n) < e then e else NextEmit(recs, n, hop, e + hop)
  }

  function FirstBoundary(recs: seq<Instant>, hop: int): int
    requires recs != [] && hop > 0
  {
    FirstEnd(At(recs, 0), hop)
  }

  ghost predicate AllWithin(recs: seq<Instant>, ws: seq<Picked>) {
    forall k :: 0 <= k < |ws| ==> Within(recs, ws[k].at)
  }

  ghost predicate Within(recs: seq<Instant>, w: seq<int>) {
    w != [] && forall j :: 0 <= j < |w| ==> 0 <= w[j] < |recs|
  }

  lemma WindowAtIsWithin(recs: seq<Instant>, n: nat, span: int, e: int)
    requires 0 < n <= |recs| && e <= Latest(recs, n)
    ensures var w := WindowAt(recs, n, span, e); w == [] || Within(recs, w)
  {
    var w := WindowAt(recs, n, span, e);
    PickMeaning(recs, 0, Crossing(recs, n, e), e - span, e);
    assert forall j :: 0 <= j < |w| ==> w[j] in w;
  }

  lemma {:induction false} HopsAreWithin(recs: seq<Instant>, n: nat, span: int, hop: int, e: int)
    requires 0 < n <= |recs| && hop > 0
    ensures AllWithin(recs, Hops(recs, n, span, hop, e))
    decreases Latest(recs, n) - e
  {
    hide WindowAt, Within, Latest;
    if e <= Latest(recs, n) {
      HopsAreWithin(recs, n, span, hop, e + hop);
      WindowAtIsWithin(recs, n, span, e);
    }
  }

  /** The positions of every emitted window, in the order of emission. */
  ghost function Positions(recs: seq<Instant>, span: int, hop: int): (ws: seq<Picked>)
    requires hop > 0
    ensures AllWithin(recs, ws)
  {
    if recs == [] then []
    else
      HopsAreWithin(recs, |recs|, span, hop, FirstBoundary(recs, hop));
      Hops(recs, |recs|, span, hop, FirstBoundary(recs, hop))
  }

  /** The windows, as records, that the positions name. */
  ghost function Contents(recs: seq<Instant>, ws: seq<Picked>): (r: seq<Closed>)
    requires AllWithin(recs, ws)
    ensures |r| == |ws| && NoneEmpty(r)
    ensures forall k :: 0 <= k < |ws| ==> Within(recs, ws[k].at) && r[k] == Closed(Select(recs, ws[k].at))
  {
    seq(|ws|, k requires 0 <= k < |ws| => assert Within(recs, ws[k].at); Closed(Select(recs, ws[k].at)))
  }

  /** What HOPPING emits over a stream. */
  ghost function HoppingWindows(recs: seq<Instant>, span: int, hop: int): (ws: seq<Closed>)
    requires hop > 0
    ensures NoneEmpty(ws)
  {
    Contents(recs, Positions(recs, span, hop))
  }

  lemma ContentsAppend(recs: seq<Instant>, ws: seq<Picked>, w: Picked)
    requires AllWithin(recs, ws) && Within(recs, w.at)
    ensures AllWithin(recs, ws + [w])
    ensures Contents(recs, ws + [w]) == Contents(recs, ws) + [Closed(Select(recs, w.at))]
  {}

  lemma ContentsPrefix(recs: seq<Instant>, some: seq<Picked>, all: seq<Picked>)
    requires AllWithin(recs, all) && some <= all
    ensures AllWithin(recs, some) && Contents(recs, some) <= Contents(recs, all)
  {
    assert forall k :: 0 <= k < |some| ==> some[k] == all[k];
  }

  lemma WindowAtSettled(recs: seq<Instant>, n: nat, span: int, e: int)
    requires 0 < n < |recs| && e <= Latest(recs, n)
    ensures e <= Latest(recs, n + 1)
    ensures WindowAt(recs, n + 1, span, e) == WindowAt(recs, n, span, e)
  {}

  lemma Regroup(a: seq<Picked>, b: seq<Picked>, c: seq<Picked>)
    ensures a + (b + c) == (a + b) + c
  {}

  /** One more record adds the windows of the boundaries it crosses, and no
      other; the boundaries visited before it are not visited again. */
  lemma {:induction false} HopsExtend(recs: seq<Instant>, n: nat, span: int, hop: int, e: int)
    requires 0 < n < |recs| && hop > 0
    ensures Hops(recs, n + 1, span, hop, e)
         == Hops(recs, n, span, hop, e) + Hops(recs, n + 1, span, hop, NextEmit(recs, n, hop, e))
    ensures NextEmit(recs, n + 1, hop, e) == NextEmit(recs, n + 1, hop, NextEmit(recs, n, hop, e))
    decreases Latest(recs, n) - e
  {
    if e <= Latest(recs, n) {
      HopsExtend(recs, n, span, hop, e + hop);
      WindowAtSettled(recs, n, span, e);
      Regroup(NonEmpty(WindowAt(recs, n, span, e)), Hops(recs, n, span, hop, e + hop),
              Hops(recs, n + 1, span, hop, NextEmit(recs, n, hop, e)));
    }
  }

  /** A record no later than some earlier one crosses no boundary. */
  lemma HopsIdle(recs: seq<Instant>, n: nat, span: int, hop: int, e: int)
    requires 0 < n < |recs| && hop > 0 && At(recs, n) <= Latest(recs, n)
    ensures Latest(recs, n + 1) == Latest(recs, n)
    ensures Hops(recs, n + 1, span, hop, e) == Hops(recs, n, span, hop, e)
  {
    hide WindowAt;
    HopsExtend(recs, n, span, hop, e);
    assert Hops(recs, n, span, hop, e) + [] == Hops(recs, n, span, hop, e);
  }

  /** A longer history starts with the windows of a shorter one. */
  lemma {:induction false} HopsPrefix(recs: seq<Instant>, n: nat, m: nat, span: int, hop: int, e: int)
    requires 0 < n <= m <= |recs| && hop > 0
    ensures Hops(recs, n, span, hop, e) <= Hops(recs, m, span, hop, e)
    decreases m
  {
    hide *;
    if n < m {
      HopsPrefix(recs, n, m - 1, span, hop, e);
      HopsExtend(recs, m - 1, span, hop, e);
    }
  }

  /** Emitted windows only depend on the records consumed. */
  lemma {:induction false} HopsOfPrefix(recs: seq<Instant>, n: nat, span: int, hop: int, e: int)
    requires 0 < n <= |recs| && hop > 0
    ensures Latest(recs[..n], n) == Latest(recs, n)
    ensures Hops(recs[..n], n, span, hop, e) == Hops(recs, n, span, hop, e)
    decreases Latest(recs, n) - e
  {
    LatestOfPrefix(recs, n, n);
    if e <= Latest(recs, n) {
      HopsOfPrefix(recs, n, span, hop, e + hop);
      WindowAtOfPrefix(recs, n, span, e);
    }
  }

  lemma WindowAtOfPrefix(recs: seq<Instant>, n: nat, span: int, e: int)
    requires 0 < n <= |recs| && e <= Latest(recs, n)
    ensures Latest(recs[..n], n) == Latest(recs, n)
    ensures WindowAt(recs[..n], n, span, e) == WindowAt(recs, n, span, e)
  {
    CrossingOfPrefix(recs, n, n, e);
    PickOfPrefix(recs, n, 0, Crossing(recs, n, e), e - span, e);
  }

  lemma {:induction false} LatestOfPrefix(recs: seq<Instant>, m: nat, n: nat)
    requires 0 < n <= m <= |recs|
    ensures Latest(recs[..m], n) == Latest(recs, n)
  {
    if n > 1 {
      LatestOfPrefix(recs, m, n - 1);
    }
  }

  lemma {:induction false} CrossingOfPrefix(recs: seq<Instant>, m: nat, n: nat, e: int)
    requires 0 < n <= m <= |recs| && e <= Latest(recs, n)
    ensures Latest(recs[..m], n) == Latest(recs, n)
    ensures Crossing(recs[..m], n, e) == Crossing(recs, n, e)
  {
    LatestOfPrefix(recs, m, n);
    if n > 1 {
      LatestOfPrefix(recs, m, n - 1);
      if e <= Latest(recs, n - 1) {
        CrossingOfPrefix(recs, m, n - 1, e);
      }
    }
  }

  lemma {:induction false} PickOfPrefix(recs: seq<Instant>, m: nat, from: nat, upto: nat, lo: int, hi: int)
    requires from <= upto <= m <= |recs|
    ensures Pick(recs[..m], from, upto, lo, hi) == Pick(recs, from, upto, lo, hi)
    decreases upto
  {
    if from < upto {
      PickOfPrefix(recs, m, from, upto - 1, lo, hi);
    }
  }
}
