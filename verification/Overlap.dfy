/** Overlap of HOPPING windows: how often one record is emitted. */
module Overlap {
  import opened Records
  import opened Hopping
  import opened WindowLaws

  /** How many of the windows hold the record at position j. */
  ghost function Appearances(ws: seq<Picked>, j: int): nat {
    if ws == [] then 0 else (if j in ws[0].at then 1 else 0) + Appearances(ws[1..], j)
  }

  lemma AppearancesCons(w: seq<int>, ws: seq<Picked>, j: int)
    ensures Appearances(NonEmpty(w) + ws, j) == (if j in w then 1 else 0) + Appearances(ws, j)
  {
    if w == [] {
      assert NonEmpty(w) + ws == ws;
    } else {
      assert (NonEmpty(w) + ws)[1..] == ws;
    }
  }

  /** A boundary's window holds exactly the records whose time is in the span. */
  lemma InWindow(recs: seq<Instant>, n: nat, span: int, e: int, j: nat)
    requires j < n <= |recs| && InOrder(recs) && e <= Latest(recs, n)
    ensures j in WindowAt(recs, n, span, e) <==> e - span <= At(recs, j) < e
  {
    var c := Crossing(recs, n, e);
    PickMeaning(recs, 0, c, e - span, e);
    assert c <= j ==> At(recs, c) <= At(recs, j);
  }

  /** Past its span a record is never emitted again. */
  lemma {:induction false} NoMore(recs: seq<Instant>, n: nat, span: int, hop: int, e: int, j: nat)
    requires j < n <= |recs| && hop > 0 && InOrder(recs) && At(recs, j) + span < e
    ensures Appearances(Hops(recs, n, span, hop, e), j) == 0
    decreases Latest(recs, n) - e
  {
    hide WindowAt, Latest, InOrder;
    if e <= Latest(recs, n) {
      NoMore(recs, n, span, hop, e + hop, j);
      InWindow(recs, n, span, e, j);
      AppearancesCons(WindowAt(recs, n, span, e), Hops(recs, n, span, hop, e + hop), j);
    }
  }

  /** From a boundary after which c more of the m boundaries of the record's span
      are to come, it is emitted c more times. */
  lemma {:induction false} Remaining(recs: seq<Instant>, n: nat, hop: int, m: nat, e: int, j: nat, c: nat)
    requires j < n <= |recs| && hop > 0 && InOrder(recs) && c <= m
    requires At(recs, j) + hop * m <= Latest(recs, n)
    requires At(recs, j) + hop * (m - c) < e <= At(recs, j) + hop * (m - c) + hop
    ensures Appearances(Hops(recs, n, hop * m, hop, e), j) == c
    decreases c
  {
    hide WindowAt, Latest, InOrder;
    if c == 0 {
      NoMore(recs, n, hop * m, hop, e, j);
    } else {
      assert hop * (m - (c - 1)) == hop * (m - c) + hop;
      assert hop * (m - c) + hop <= hop * m by {
        assert hop * m == hop * (m - c) + hop * c;
        assert hop * c == hop + hop * (c - 1);
      }
      assert 0 <= hop * (m - c);
      Remaining(recs, n, hop, m, e + hop, j, c - 1);
      InWindow(recs, n, hop * m, e, j);
      AppearancesCons(WindowAt(recs, n, hop * m, e), Hops(recs, n, hop * m, hop, e + hop), j);
    }
  }

  /** Boundaries up to the record's own time do not emit it. */
  lemma {:induction false} NotYet(recs: seq<Instant>, n: nat, hop: int, m: nat, e: int, j: nat)
    requires j < n <= |recs| && hop > 0 && InOrder(recs)
    requires At(recs, j) + hop * m <= Latest(recs, n)
    requires e <= At(recs, j) + hop
    ensures Appearances(Hops(recs, n, hop * m, hop, e), j) == m
    decreases At(recs, j) + hop - e
  {
    hide WindowAt, Latest, InOrder;
    if e <= At(recs, j) {
      assert 0 <= hop * m;
      NotYet(recs, n, hop, m, e + hop, j);
      InWindow(recs, n, hop * m, e, j);
      AppearancesCons(WindowAt(recs, n, hop * m, e), Hops(recs, n, hop * m, hop, e + hop), j);
    } else {
      Remaining(recs, n, hop, m, e, j, m);
    }
  }

  /** When the span is m hops, a stream in order that has reached a record's time
      plus the span has emitted that record in exactly m windows. */
  lemma ExactOverlap(recs: seq<Instant>, hop: int, m: nat, j: nat)
    requires j < |recs| && hop > 0 && InOrder(recs)
    requires exists q :: 0 <= q < |recs| && At(recs, j) + hop * m <= At(recs, q)
    ensures Appearances(Positions(recs, hop * m, hop), j) == m
  {
    LatestIsMaximum(recs, |recs|);
    assert At(recs, 0) <= At(recs, j);
    NotYet(recs, |recs|, hop, m, FirstBoundary(recs, hop), j);
  }
}
