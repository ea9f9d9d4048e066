/** TUMBLING windows over a stream in order: the completed maximal runs of equal
    time slot, where a record's slot is its time divided by the span. */
module Runs {
  import opened Records
  import opened Slots
  import opened Tumbling
  import opened WindowLaws

  ghost predicate Uniform(w: seq<Instant>, span: int)
    requires span > 0
  {
    w != [] && forall i :: 0 <= i < |w| ==> Slot(w[i], span) == Slot(w[0], span)
  }

  /** The windows split the stream into runs of one slot each, and where one ends
      the slot changes, so that no run could be longer. */
  ghost predicate MaximalRuns(ws: seq<Closed>, open: seq<Instant>, span: int)
    requires span > 0
  {
    && Uniform(open, span)
    && (forall k :: 0 <= k < |ws| ==> Uniform(ws[k].records, span))
    && (forall k :: 0 <= k < |ws| - 1 ==> Slot(ws[k].records[0], span) < Slot(ws[k + 1].records[0], span))
    && (ws != [] ==> Slot(ws[|ws| - 1].records[0], span) < Slot(open[0], span))
  }

  lemma RunGrows(ws: seq<Closed>, open: seq<Instant>, x: Instant, span: int)
    requires span > 0 && MaximalRuns(ws, open, span) && Slot(x, span) == Slot(open[0], span)
    ensures MaximalRuns(ws, open + [x], span)
  {}

  lemma RunEnds(ws: seq<Closed>, open: seq<Instant>, x: Instant, span: int)
    requires span > 0 && MaximalRuns(ws, open, span) && Slot(open[0], span) < Slot(x, span)
    ensures MaximalRuns(ws + [Closed(open)], [x], span)
  {}

  lemma RunStep(st: State, x: Instant, span: int)
    requires span > 0 && MaximalRuns(st.closed, st.win, span)
    requires x.stamp.Parsed? && 0 <= x.stamp.unix && Slot(st.win[0], span) <= Slot(x, span)
    requires st.end == SlotStart(Slot(st.win[0], span) + 1, span)
    ensures var next := Advance(st, x, span);
            && MaximalRuns(next.closed, next.win, span)
            && next.end == SlotStart(Slot(next.win[0], span) + 1, span)
            && next.win[|next.win| - 1] == x
  {
    assert st.win != [];
    hide MaximalRuns, SlotStart, FirstEnd;
    SlotDecides(x.stamp.unix, span, Slot(st.win[0], span));
    FirstEndIsSlotEnd(x.stamp.unix, span);
    if x.stamp.unix < st.end {
      RunGrows(st.closed, st.win, x, span);
    } else {
      RunEnds(st.closed, st.win, x, span);
    }
  }

  lemma {:induction false} RunsThroughout(recs: seq<Instant>, n: nat, span: int)
    requires 0 < n <= |recs| && span > 0 && InOrder(recs)
    ensures var st := Tumble(recs, n, span);
            && MaximalRuns(st.closed, st.win, span)
            && st.end == SlotStart(Slot(st.win[0], span) + 1, span)
            && st.win[|st.win| - 1] == recs[n - 1]
  {
    hide Advance;
    if n == 1 {
      FirstRun(recs[0], span);
      assert Tumble(recs, 0, span) == State([], 0, []);
    } else {
      RunsThroughout(recs, n - 1, span);
      var st := Tumble(recs, n - 1, span);
      SlotMonotone(recs[n - 2].stamp.unix, recs[n - 1].stamp.unix, span);
      RunStep(st, recs[n - 1], span);
    }
  }

  lemma FirstRun(x: Instant, span: int)
    requires span > 0 && x.stamp.Parsed? && 0 <= x.stamp.unix
    ensures var st := Advance(State([], 0, []), x, span);
            MaximalRuns(st.closed, st.win, span) && st.win == [x] && st.end == SlotStart(Slot(x, span) + 1, span)
  {
    FirstEndIsSlotEnd(x.stamp.unix, span);
  }

  /** The windows TUMBLING has closed are exactly the completed maximal runs of
      equal slot: together with the open window they make up the stream, each is
      of one slot, and the slot rises from each to the next. */
  lemma TumblingIsRuns(recs: seq<Instant>, span: int)
    requires recs != [] && span > 0 && InOrder(recs)
    ensures var st := Tumble(recs, |recs|, span);
            && Flatten(st.closed) + st.win == recs
            && MaximalRuns(st.closed, st.win, span)
  {
    TumblingConserves(recs, |recs|, span);
    RunsThroughout(recs, |recs|, span);
    assert recs[..|recs|] == recs;
  }
}
