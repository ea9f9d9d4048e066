/** Exactly which streams HOPPING with hop = span and TUMBLING agree on. */
module Agreement {
  import opened Records
  import opened Slots
  import opened Hopping
  import opened Tumbling
  import opened WindowLaws

  ghost predicate Greatest(recs: seq<Instant>, g: nat, span: int)
    requires span > 0 && g < |recs|
  {
    forall r :: 0 <= r < |recs| ==> Slot(recs[r], span) <= Slot(recs[g], span)
  }

  ghost predicate GreatestBefore(recs: seq<Instant>, q: nat, span: int)
    requires span > 0 && q < |recs|
  {
    exists g :: 0 <= g < q && Greatest(recs, g, span)
  }

  /** A record goes back to an earlier slot only after a record of the greatest. */
  ghost predicate LateOnlyAtEnd(recs: seq<Instant>, span: int)
    requires span > 0
  {
    forall p, q :: 0 <= p < q < |recs| && Slot(recs[q], span) < Slot(recs[p], span) ==> GreatestBefore(recs, q, span)
  }

  /** The condition under which the two emit the same windows: the first time is
      covered, nothing merges and late records come only at the end; or the first
      time is not, and no window closes at all. */
  ghost predicate Agreeable(recs: seq<Instant>, span: int)
    requires span > 0
  {
    recs != [] ==>
      if Covered(At(recs, 0), span) then NoMerge(recs, |recs|, span) && LateOnlyAtEnd(recs, span)
      else forall p :: 0 <= p < |recs| ==> Slot(recs[p], span) <= Slot(recs[0], span) + 1
  }

  // A covered first time, and nothing merges.

  /** Given where the open window starts, slots rise up to n exactly when they rise
      up to there and stay in that window. */
  lemma RisesNext(recs: seq<Instant>, open: nat, n: nat, span: int)
    requires span > 0 && open < n <= |recs| && High(recs, open, span)
    requires forall p :: open <= p < n ==> Slot(recs[p], span) <= Slot(recs[open], span)
    ensures Rises(recs, n, span) <==>
            Rises(recs, open, span) && forall p :: open <= p < n ==> Slot(recs[p], span) == Slot(recs[open], span)
  {
    hide Slot;
  }

  lemma LateIffRises(recs: seq<Instant>, open: nat, span: int)
    requires span > 0 && open < |recs| && High(recs, open, span)
    requires forall p :: open <= p < |recs| ==> Slot(recs[p], span) <= Slot(recs[open], span)
    ensures LateOnlyAtEnd(recs, span) <==> Rises(recs, open, span)
  {
    hide Slot;
    assert Greatest(recs, open, span);
    forall q | 0 <= q <= open ensures !GreatestBefore(recs, q, span) {
      forall g | 0 <= g < q ensures !Greatest(recs, g, span) {
        assert Slot(recs[g], span) < Slot(recs[open], span);
      }
    }
    forall q | open < q < |recs| ensures GreatestBefore(recs, q, span) {}
  }

  ghost predicate OneSlotEach(ws: seq<Closed>, span: int)
    requires span > 0
  {
    FirstSlotOnly(ws, span) == ws
  }

  lemma OneSlotNext(ws: seq<Closed>, w: seq<Instant>, span: int)
    requires span > 0 && w != []
    ensures OneSlotEach(ws + [Closed(w)], span) <==>
            OneSlotEach(ws, span) && forall i :: 0 <= i < |w| ==> Slot(w[i], span) == Slot(w[0], span)
  {
    hide Slot;
    CutOpen(w, span);
    OwnSlotMeaning(w, Slot(w[0], span), span);
    hide CutToFirst, OwnSlot;
    var all := ws + [Closed(w)];
    assert FirstSlotOnly(all, span) == FirstSlotOnly(ws, span) + [CutToFirst(Closed(w), span)];
    assert all[..|ws|] == ws && all[|ws|] == Closed(w);
    assert FirstSlotOnly(all, span)[..|ws|] == FirstSlotOnly(ws, span);
  }

  lemma WindowSlots(recs: seq<Instant>, open: nat, n: nat, span: int)
    requires span > 0 && open < n <= |recs|
    ensures var w := recs[open..n];
            (forall i :: 0 <= i < |w| ==> Slot(w[i], span) == Slot(w[0], span))
            <==> forall p :: open <= p < n ==> Slot(recs[p], span) == Slot(recs[open], span)
  {
    hide Slot;
    var w := recs[open..n];
    assert forall p :: open <= p < n ==> recs[p] == w[p - open];
  }

  lemma {:induction false} OneSlotIffRises(recs: seq<Instant>, n: nat, span: int)
    requires 0 < n <= |recs| && span > 0 && AllParsed(recs) && Covered(At(recs, 0), span) && NoMerge(recs, n, span)
    ensures var st := Tumble(recs, n, span);
            0 <= n - |st.win| && (OneSlotEach(st.closed, span) <==> Rises(recs, n - |st.win|, span))
  {
    hide Advance, Covered, Merges, Slot, OneSlotEach, Rises, AllParsed, At;
    InStepThroughout(recs, n, span);
    InStepOpens(recs, n, span, Tumble(recs, n, span));
    OpensAt(recs, n, span, Tumble(recs, n, span));
    if n == 1 {
      FirstOpens(recs, span);
    } else {
      var st := Tumble(recs, n - 1, span);
      OneSlotIffRises(recs, n - 1, span);
      InStepThroughout(recs, n - 1, span);
      InStepOpens(recs, n - 1, span, st);
      OneSlotStep(recs, n - 1, span, st);
    }
  }

  lemma OneSlotStep(recs: seq<Instant>, n: nat, span: int, st: State)
    requires 0 < n < |recs| && span > 0 && AllParsed(recs) && NoMerge(recs, n + 1, span)
    requires OpensLatest(recs, n, span, st) && (OneSlotEach(st.closed, span) <==> Rises(recs, n - |st.win|, span))
    ensures var next := Advance(st, recs[n], span);
            0 <= n + 1 - |next.win| && (OneSlotEach(next.closed, span) <==> Rises(recs, n + 1 - |next.win|, span))
  {
    hide Advance, Covered, Merges, Slot, OneSlotEach, Rises, AllParsed, At;
    var open := n - |st.win|;
    if Slot(recs[n], span) <= Slot(recs[open], span) {
      JoinOpens(recs, n, span, st);
    } else {
      ClosesUnlessMerges(recs, n, span, st);
      AnewOpens(recs, n, span, st);
      OneSlotNext(st.closed, st.win, span);
      WindowSlots(recs, open, n, span);
      RisesNext(recs, open, n, span);
    }
  }

  lemma FirstOpens(recs: seq<Instant>, span: int)
    requires recs != [] && span > 0
    ensures var st := Tumble(recs, 1, span);
            |st.win| == 1 && OneSlotEach(st.closed, span) && Rises(recs, 0, span)
  {
    assert Tumble(recs, 0, span) == State([], 0, []);
  }

  lemma AgreeUnmerged(recs: seq<Instant>, span: int)
    requires recs != [] && span > 0 && AllParsed(recs)
    requires Covered(At(recs, 0), span) && NoMerge(recs, |recs|, span)
    ensures HoppingWindows(recs, span, span) == Tumble(recs, |recs|, span).closed <==> LateOnlyAtEnd(recs, span)
  {
    hide Slot, Covered, Tumble, LateOnlyAtEnd, Rises, NoMerge;
    var n := |recs|;
    var st := Tumble(recs, n, span);
    HoppingKeepsFirstSlots(recs, span);
    OneSlotIffRises(recs, n, span);
    InStepThroughout(recs, n, span);
    InStepOpens(recs, n, span, st);
    LateIffRises(recs, n - |st.win|, span);
  }

  // A covered first time, and something merges.

  /** A record in the open window stays in the window of that number. */
  lemma {:induction false} StaysInWindow(recs: seq<Instant>, n: nat, m: nat, span: int, x: Instant)
    requires n <= m <= |recs| && span > 0 && x in Tumble(recs, n, span).win
    ensures var k, st := |Tumble(recs, n, span).closed|, Tumble(recs, m, span);
            if |st.closed| == k then x in st.win else |st.closed| > k && x in st.closed[k].records
    decreases m
  {
    if n < m {
      StaysInWindow(recs, n, m - 1, span, x);
    }
  }

  /** The first merge. */
  lemma {:induction false} FirstMerge(recs: seq<Instant>, n: nat, span: int) returns (p: nat, r: nat)
    requires span > 0 && n <= |recs| && !NoMerge(recs, n, span)
    ensures p < r < n && Merges(recs, p, r, span) && NoMerge(recs, r, span)
  {
    hide Merges;
    if NoMerge(recs, n - 1, span) {
      p, r :| p < r < n && Merges(recs, p, r, span);
    } else {
      p, r := FirstMerge(recs, n - 1, span);
    }
  }

  lemma MergesWithOpen(recs: seq<Instant>, p: nat, r: nat, span: int, st: State)
    requires span > 0 && p < r < |recs| && Merges(recs, p, r, span) && OpensLatest(recs, r, span, st)
    ensures p == r - |st.win|
  {
    hide Slot, Covered;
    var open := r - |st.win|;
    assert Slot(recs[open], span) < Slot(recs[r], span);
    assert Slot(recs[p], span) <= Slot(recs[open], span);
  }

  lemma DifferMerged(recs: seq<Instant>, span: int)
    requires recs != [] && span > 0 && AllParsed(recs)
    requires Covered(At(recs, 0), span) && !NoMerge(recs, |recs|, span)
    ensures HoppingWindows(recs, span, span) != Tumble(recs, |recs|, span).closed
  {
    hide Slot, Covered, Merges, NoMerge, Advance, AllParsed, At;
    var p, r := FirstMerge(recs, |recs|, span);
    var st := Tumble(recs, r, span);
    InStepThroughout(recs, r, span);
    InStepOpens(recs, r, span, st);
    OpensAt(recs, r, span, st);
    MergesWithOpen(recs, p, r, span, st);
    MergeJumps(recs, p, r, span);
    ClosesUnlessMerges(recs, r, span, st);
    MergeJoins(recs, r, span, st);
    hide *;
    StaysInWindow(recs, r + 1, |recs|, span, recs[r]);
    EmittedOpen(recs, r, span, st);
    EmittedStays(recs, r, span, st);
    assert st.win[0] == recs[p];
    CutExcludes(st.win, recs[r], span);
  }

  lemma CutExcludes(w: seq<Instant>, x: Instant, span: int)
    requires w != [] && span > 0 && Slot(w[0], span) < Slot(x, span)
    ensures x !in CutToFirst(Closed(w), span).records
  {
    hide Slot;
    CutOpen(w, span);
    OwnSlotMeaning(w, Slot(w[0], span), span);
  }

  lemma MergeJumps(recs: seq<Instant>, p: nat, r: nat, span: int)
    requires span > 0 && p < r < |recs| && Merges(recs, p, r, span)
    ensures Slot(recs[p], span) < Slot(recs[r], span)
  {}

  lemma MergeJoins(recs: seq<Instant>, r: nat, span: int, st: State)
    requires span > 0 && r < |recs| && AllParsed(recs) && st == Tumble(recs, r, span) && st.win != []
    requires At(recs, r) < st.end
    ensures var next := Tumble(recs, r + 1, span); next.closed == st.closed && recs[r] in next.win
  {}

  lemma EmittedStays(recs: seq<Instant>, r: nat, span: int, st: State)
    requires span > 0 && r < |recs| && HasEmitted(recs, r + 1, span, st.closed + [Closed(st.win)])
    ensures var hs := HoppingWindows(recs, span, span);
            |hs| > |st.closed| && hs[|st.closed|] == CutToFirst(Closed(st.win), span)
  {
    var e := FirstBoundary(recs, span);
    hide Hops, CutToFirst, AllWithin;
    HopsPrefix(recs, r + 1, |recs|, span, span, e);
    ContentsPrefix(recs, Hops(recs, r + 1, span, span, e), Positions(recs, span, span));
    var early := Contents(recs, Hops(recs, r + 1, span, span, e));
    assert early[|st.closed|] == CutToFirst((st.closed + [Closed(st.win)])[|st.closed|], span);
  }

  // A first time that is not covered.

  /** HOPPING emits nothing from before the span of its first boundary. */
  lemma {:induction false} NothingEarlier(recs: seq<Instant>, n: nat, span: int, e: int)
    requires 0 < n <= |recs| && span > 0
    ensures AllWithin(recs, Hops(recs, n, span, span, e))
    ensures forall k, j :: 0 <= k < |Hops(recs, n, span, span, e)| && 0 <= j < |Hops(recs, n, span, span, e)[k].at| ==>
              EmittedFrom(recs, Hops(recs, n, span, span, e)[k].at[j], e - span)
    decreases Latest(recs, n) - e
  {
    hide Latest, WindowAt, Within;
    HopsAreWithin(recs, n, span, span, e);
    if e <= Latest(recs, n) {
      NothingEarlier(recs, n, span, e + span);
      WindowFrom(recs, n, span, e);
    }
  }

  ghost predicate EmittedFrom(recs: seq<Instant>, p: int, lo: int) {
    0 <= p < |recs| && lo <= At(recs, p)
  }

  lemma WindowFrom(recs: seq<Instant>, n: nat, span: int, e: int)
    requires 0 < n <= |recs| && e <= Latest(recs, n)
    ensures var w := WindowAt(recs, n, span, e);
            forall j :: 0 <= j < |w| ==> EmittedFrom(recs, w[j], e - span)
  {
    PickMeaning(recs, 0, Crossing(recs, n, e), e - span, e);
    var w := WindowAt(recs, n, span, e);
    assert forall j :: 0 <= j < |w| ==> w[j] in w;
  }

  /** Until a record reaches its end, the first window stays open. */
  lemma {:induction false} FirstStaysOpen(recs: seq<Instant>, n: nat, span: int)
    requires 0 < n <= |recs| && span > 0 && AllParsed(recs)
    ensures var st := Tumble(recs, n, span);
            && (st.closed == [] <==> forall p :: 0 <= p < n ==> At(recs, p) < FirstBoundary(recs, span))
            && (st.closed == [] ==> st.end == FirstBoundary(recs, span) && st.win != [] && st.win[0] == recs[0])
            && (st.closed != [] ==> st.closed[0].records != [] && st.closed[0].records[0] == recs[0])
  {
    hide FirstEnd;
    if n == 1 {
      assert Tumble(recs, 0, span) == State([], 0, []);
    } else {
      FirstStaysOpen(recs, n - 1, span);
      var st := Tumble(recs, n - 1, span);
      assert InstantUnix(recs[n - 1], |st.win|) == At(recs, n - 1);
    }
  }

  lemma FirstIsBehind(recs: seq<Instant>, span: int)
    requires recs != [] && span > 0 && AllParsed(recs) && !Covered(At(recs, 0), span)
    ensures At(recs, 0) < FirstBoundary(recs, span) - span
    ensures forall p :: 0 <= p < |recs| ==>
              (At(recs, p) < FirstBoundary(recs, span) <==> Slot(recs[p], span) <= Slot(recs[0], span) + 1)
  {
    hide SlotStart, Covered, FirstEnd;
    var slot := Slot(recs[0], span);
    ParsedSlot(recs, 0, span);
    FirstEndIsSlotEnd(At(recs, 0), span);
    SlotStep(slot + 1, span);
    SlotDecides(At(recs, 0), span, slot);
    forall p | 0 <= p < |recs|
      ensures At(recs, p) < FirstBoundary(recs, span) <==> Slot(recs[p], span) <= slot + 1
    {
      ParsedSlot(recs, p, span);
      SlotDecides(At(recs, p), span, slot + 1);
    }
  }

  lemma AgreeUncovered(recs: seq<Instant>, span: int)
    requires recs != [] && span > 0 && AllParsed(recs) && !Covered(At(recs, 0), span)
    ensures HoppingWindows(recs, span, span) == Tumble(recs, |recs|, span).closed
       <==> forall p :: 0 <= p < |recs| ==> Slot(recs[p], span) <= Slot(recs[0], span) + 1
  {
    hide Slot, Covered, Tumble, AllParsed, At, Hops, FirstBoundary;
    var st := Tumble(recs, |recs|, span);
    FirstIsBehind(recs, span);
    FirstStaysOpen(recs, |recs|, span);
    if st.closed == [] {
      LatestBelow(recs, |recs|, FirstBoundary(recs, span));
      NoHops(recs, |recs|, span, FirstBoundary(recs, span));
    } else if HoppingWindows(recs, span, span) != [] {
      FirstNotEmitted(recs, span);
    }
  }

  lemma FirstNotEmitted(recs: seq<Instant>, span: int)
    requires recs != [] && span > 0 && AllParsed(recs) && At(recs, 0) < FirstBoundary(recs, span) - span
    requires HoppingWindows(recs, span, span) != []
    ensures var w := HoppingWindows(recs, span, span)[0].records; w != [] && w[0] != recs[0]
  {
    hide Hops, FirstBoundary;
    NothingEarlier(recs, |recs|, span, FirstBoundary(recs, span));
    var w := Positions(recs, span, span)[0].at;
    assert Within(recs, w);
    assert EmittedFrom(recs, w[0], FirstBoundary(recs, span) - span);
  }

  // The result.

  /** On every stream of parsed timestamps, in whatever order and before the epoch or
      after, HOPPING with hop = span emits TUMBLING's windows exactly under the
      condition above. */
  lemma AgreeIffAgreeable(recs: seq<Instant>, span: int)
    requires span > 0 && AllParsed(recs)
    ensures HoppingWindows(recs, span, span) == Tumble(recs, |recs|, span).closed <==> Agreeable(recs, span)
  {
    if recs != [] {
      if !Covered(At(recs, 0), span) {
        AgreeUncovered(recs, span);
      } else if NoMerge(recs, |recs|, span) {
        AgreeUnmerged(recs, span);
      } else {
        DifferMerged(recs, span);
      }
    }
  }

  /** From the epoch on nothing is uncovered and nothing merges: HOPPING's windows
      are TUMBLING's, each cut down to its first slot, and the same if and only if
      late records come only at the end. */
  lemma FromEpoch(recs: seq<Instant>, span: int)
    requires span > 0 && AllParsed(recs) && forall p :: 0 <= p < |recs| ==> 0 <= At(recs, p)
    ensures HoppingWindows(recs, span, span) == FirstSlotOnly(Tumble(recs, |recs|, span).closed, span)
    ensures HoppingWindows(recs, span, span) == Tumble(recs, |recs|, span).closed <==> LateOnlyAtEnd(recs, span)
  {
    assert NoMerge(recs, |recs|, span) by {
      forall p: nat, r: nat | p < r < |recs| ensures !Merges(recs, p, r, span) {
        assert 0 <= At(recs, p);
      }
    }
    HoppingKeepsFirstSlots(recs, span);
    AgreeIffAgreeable(recs, span);
  }

  /** So on streams in order the two are the same operator: the same windows over the
      same records in the same order. */
  lemma HoppingIsTumbling(recs: seq<Instant>, span: int)
    requires span > 0 && InOrder(recs)
    ensures HoppingWindows(recs, span, span) == Tumble(recs, |recs|, span).closed
  {
    forall p, q | 0 <= p < q < |recs| ensures Slot(recs[p], span) <= Slot(recs[q], span) {
      SlotMonotone(recs[p].stamp.unix, recs[q].stamp.unix, span);
    }
    hide Slot;
    FromEpoch(recs, span);
  }

  // Small streams on which they differ.

  function Reading(unix: int): Instant {
    Instant("", Parsed(unix), 0.0, "")
  }

  /** A first time before the epoch and off the grid opens a window longer than the
      span: TUMBLING emits the record, HOPPING has it outside the span of its first
      boundary. */
  lemma NegativeTimesDiffer()
    ensures var recs := [Reading(-5), Reading(0)];
            && Tumble(recs, 2, 3).closed == [Closed([Reading(-5)])]
            && HoppingWindows(recs, 3, 3) == []
  {
    var recs := [Reading(-5), Reading(0)];
    assert Tumble(recs, 0, 3) == State([], 0, []);
    assert Tumble(recs, 1, 3) == State([Reading(-5)], 0, []);
    assert Latest(recs, 1) == -5;
    assert Crossing(recs, 2, 0) == 1;
    PickNone(recs, 0, 1, -3, 0);
    assert Hops(recs, 2, 3, 3, 3) == [];
  }

  /** TUMBLING keeps a late record in the window that is open, HOPPING no longer has
      a boundary for it. */
  lemma LateRecordsDiffer()
    ensures var recs := [Reading(3), Reading(1), Reading(6)];
            && Tumble(recs, 3, 3).closed == [Closed([Reading(3), Reading(1)])]
            && HoppingWindows(recs, 3, 3) == [Closed([Reading(3)])]
  {
    hide Hops;
    var recs := [Reading(3), Reading(1), Reading(6)];
    FromEpoch(recs, 3);
    assert Tumble(recs, 0, 3) == State([], 0, []);
    assert Tumble(recs, 1, 3) == State([Reading(3)], 6, []);
    assert Tumble(recs, 2, 3) == State([Reading(3), Reading(1)], 6, []);
    assert OwnSlot([], 1, 3) == [];
    assert [Reading(3), Reading(1)][..1] == [Reading(3)] && [Reading(3)][..0] == [];
    assert OwnSlot([Reading(3)], 1, 3) == [Reading(3)];
    assert OwnSlot([Reading(3), Reading(1)], 1, 3) == [Reading(3)];
  }
}
