/** When HOPPING with hop = span and TUMBLING are the same operator. */
module WindowLaws {
  import opened Multiples
  import opened Records
  import opened Slots
  import opened Hopping
  import opened Tumbling

  /** Every timestamp parses, none is before the epoch, and none goes back. */
  ghost predicate InOrder(recs: seq<Instant>) {
    && AllParsed(recs)
    && (forall p :: 0 <= p < |recs| ==> 0 <= recs[p].stamp.unix)
    && (forall p, q :: 0 <= p < q < |recs| ==> recs[p].stamp.unix <= recs[q].stamp.unix)
  }

  // HOPPING's boundaries, with hop = span.

  lemma {:induction false} NextEmitOnGrid(recs: seq<Instant>, n: nat, hop: int, e: int)
    requires 0 < n <= |recs| && hop > 0 && e % hop == 0
    ensures NextEmit(recs, n, hop, e) % hop == 0
    decreases Latest(recs, n) - e
  {
    if e <= Latest(recs, n) {
      NextMultiple(e, hop);
      NextEmitOnGrid(recs, n, hop, e + hop);
    }
  }

  /** Catching up boundary by boundary lands at the end of the latest slot. */
  lemma NextEmitIsSlotEnd(recs: seq<Instant>, n: nat, span: int, e: int, slot: int)
    requires 0 < n <= |recs| && span > 0 && e % span == 0 && e <= Latest(recs, n)
    requires Latest(recs, n) / span == slot
    ensures NextEmit(recs, n, span, e) == SlotStart(slot + 1, span)
  {
    hide SlotStart;
    NextEmitOnGrid(recs, n, span, e);
    SlotBounds(Latest(recs, n), span, slot);
    SlotStep(slot, span);
    SlotStep(slot + 1, span);
    CloseMultiples(NextEmit(recs, n, span, e), SlotStart(slot + 1, span), span);
  }

  /** Boundaries a whole span past every earlier record have empty windows. */
  lemma {:induction false} EmptyHops(recs: seq<Instant>, n: nat, span: int, e: int)
    requires 0 < n < |recs| && span > 0
    requires forall p :: 0 <= p < n ==> At(recs, p) < e - span
    ensures Hops(recs, n + 1, span, span, e) == []
    decreases Latest(recs, n + 1) - e
  {
    hide Latest, WindowAt, At;
    if e <= Latest(recs, n + 1) {
      EmptyHops(recs, n, span, e + span);
      EmptyWindow(recs, n, span, e);
    }
  }

  lemma EmptyWindow(recs: seq<Instant>, n: nat, span: int, e: int)
    requires 0 < n < |recs| && e <= Latest(recs, n + 1)
    requires forall p :: 0 <= p < n ==> At(recs, p) < e - span
    ensures WindowAt(recs, n + 1, span, e) == []
  {
    hide Latest, At;
    PickNone(recs, 0, Crossing(recs, n + 1, e), e - span, e);
  }

  /** The one boundary a gap crosses that has anything to emit is the first. */
  lemma EmitsOnlyFirst(recs: seq<Instant>, n: nat, span: int, e: int)
    requires 0 < n < |recs| && span > 0
    requires e <= At(recs, n) && forall p :: 0 <= p < n ==> At(recs, p) < e
    ensures Latest(recs, n + 1) == At(recs, n)
    ensures Hops(recs, n + 1, span, span, e) == NonEmpty(Pick(recs, 0, n, e - span, e))
  {
    hide At, Pick;
    LatestIsMaximum(recs, n + 1);
    assert Crossing(recs, n + 1, e) == n;
    EmptyHops(recs, n, span, e + span);
  }

  // The records of one slot.

  /** The records of a window that are of the given slot. */
  function OwnSlot(w: seq<Instant>, slot: int, span: int): seq<Instant>
    requires span > 0
  {
    if w == [] then []
    else
      OwnSlot(w[..|w| - 1], slot, span) + if Slot(w[|w| - 1], span) == slot then [w[|w| - 1]] else []
  }

  lemma {:induction false} OwnSlotMeaning(w: seq<Instant>, slot: int, span: int)
    requires span > 0
    ensures |OwnSlot(w, slot, span)| <= |w|
    ensures forall x :: x in OwnSlot(w, slot, span) <==> x in w && Slot(x, span) == slot
    ensures OwnSlot(w, slot, span) == w <==> forall i :: 0 <= i < |w| ==> Slot(w[i], span) == slot
  {
    if w != [] {
      var front, last := w[..|w| - 1], w[|w| - 1];
      assert w == front + [last];
      OwnSlotMeaning(front, slot, span);
    }
  }

  /** Picking the span before a slot's end is keeping the slot's records. */
  lemma {:induction false} PickIsOwnSlot(recs: seq<Instant>, from: nat, upto: nat, slot: int, span: int)
    requires from <= upto <= |recs| && span > 0 && AllParsed(recs)
    ensures var w := Pick(recs, from, upto, SlotStart(slot, span), SlotStart(slot + 1, span));
            && (w != [] ==> Within(recs, w))
            && (forall j :: 0 <= j < |w| ==> 0 <= w[j] < |recs|)
            && Select(recs, w) == OwnSlot(recs[from..upto], slot, span)
    decreases upto
  {
    hide SlotStart;
    if from < upto {
      PickIsOwnSlot(recs, from, upto - 1, slot, span);
      ParsedSlot(recs, upto - 1, span);
      SlotBounds(At(recs, upto - 1), span, slot);
      hide Slot, At, AllParsed;
      assert recs[from..upto][..upto - from - 1] == recs[from..upto - 1];
    }
  }

  /** Each window cut down to the slot of its first record. */
  function FirstSlotOnly(ws: seq<Closed>, span: int): (r: seq<Closed>)
    requires span > 0
    ensures |r| == |ws|
    ensures forall k :: 0 <= k < |ws| ==> r[k] == CutToFirst(ws[k], span)
  {
    seq(|ws|, k requires 0 <= k < |ws| => CutToFirst(ws[k], span))
  }

  function CutToFirst(w: Closed, span: int): Closed
    requires span > 0
  {
    if w.records == [] then w else Closed(OwnSlot(w.records, Slot(w.records[0], span), span))
  }

  // When the two keep step.

  ghost predicate High(recs: seq<Instant>, p: nat, span: int)
    requires span > 0 && p < |recs|
  {
    forall q :: 0 <= q < p ==> Slot(recs[q], span) < Slot(recs[p], span)
  }

  /** The record at p reaches a new slot before the epoch and off the grid, and the
      next new slot, reached at r, is the very next one. */
  ghost predicate Merges(recs: seq<Instant>, p: nat, r: nat, span: int)
    requires span > 0 && p < r < |recs|
  {
    && recs[p].stamp.Parsed? && !Covered(recs[p].stamp.unix, span)
    && High(recs, p, span) && High(recs, r, span)
    && Slot(recs[r], span) == Slot(recs[p], span) + 1
  }

  ghost predicate NoMerge(recs: seq<Instant>, n: nat, span: int)
    requires span > 0 && n <= |recs|
  {
    forall p: nat, r: nat :: p < r < n ==> !Merges(recs, p, r, span)
  }

  /** The slots of the first m records do not go back. */
  ghost predicate Rises(recs: seq<Instant>, m: nat, span: int)
    requires span > 0 && m <= |recs|
  {
    forall p, q :: 0 <= p < q < m ==> Slot(recs[p], span) <= Slot(recs[q], span)
  }

  /** TUMBLING's open window after n records starts with the first record of the
      latest slot. */
  ghost predicate OpensLatest(recs: seq<Instant>, n: nat, span: int, st: State)
    requires 0 < n <= |recs| && span > 0
  {
    var open := n - |st.win|;
    && 0 <= open < n
    && st.win == recs[open..n]
    && High(recs, open, span)
    && (forall p :: open <= p < n ==> Slot(recs[p], span) <= Slot(recs[open], span))
    && recs[open].stamp.Parsed? && st.end == FirstEnd(recs[open].stamp.unix, span)
  }

  /** HOPPING has emitted the given windows, each cut down to its first slot. */
  ghost predicate HasEmitted(recs: seq<Instant>, n: nat, span: int, closed: seq<Closed>)
    requires 0 < n <= |recs| && span > 0
  {
    var ws := Hops(recs, n, span, span, FirstBoundary(recs, span));
    AllWithin(recs, ws) && Contents(recs, ws) == FirstSlotOnly(closed, span)
  }

  /** HOPPING waits for the end of the given slot. */
  ghost predicate WaitsFor(recs: seq<Instant>, n: nat, span: int, slot: int)
    requires 0 < n <= |recs| && span > 0
  {
    NextEmit(recs, n, span, FirstBoundary(recs, span)) == SlotStart(slot + 1, span)
  }

  /** Both operators after n records: HOPPING has emitted what TUMBLING has, but for
      the first slot of each window only, and waits for the end of the latest slot. */
  ghost predicate InStep(recs: seq<Instant>, n: nat, span: int, st: State)
    requires 0 < n <= |recs| && span > 0
  {
    && OpensLatest(recs, n, span, st)
    && WaitsFor(recs, n, span, Slot(recs[n - |st.win|], span))
    && HasEmitted(recs, n, span, st.closed)
  }

  lemma StartInStep(recs: seq<Instant>, span: int)
    requires recs != [] && span > 0 && AllParsed(recs) && Covered(At(recs, 0), span)
    ensures InStep(recs, 1, span, Advance(State([], 0, []), recs[0], span))
  {
    hide SlotStart;
    assert recs[0..1] == [recs[0]];
    FirstEndIsSlotEnd(At(recs, 0), span);
    assert Hops(recs, 1, span, span, FirstBoundary(recs, span)) == [];
  }

  /** Every record up to n lies before the end of the latest slot. */
  lemma BeforeSlotEnd(recs: seq<Instant>, n: nat, span: int, st: State)
    requires 0 < n <= |recs| && span > 0 && AllParsed(recs) && OpensLatest(recs, n, span, st)
    ensures var slot := Slot(recs[n - |st.win|], span);
            && (forall p :: 0 <= p < n ==> At(recs, p) < SlotStart(slot + 1, span))
            && (forall p :: 0 <= p < n - |st.win| ==> At(recs, p) < SlotStart(slot, span))
            && SlotStart(slot + 1, span) <= st.end
  {
    hide SlotStart;
    var open := n - |st.win|;
    var slot := Slot(recs[open], span);
    forall p | 0 <= p < n
      ensures At(recs, p) < SlotStart(slot + 1, span)
      ensures p < open ==> At(recs, p) < SlotStart(slot, span)
    {
      SlotDecides(At(recs, p), span, slot);
      SlotDecides(At(recs, p), span, slot - 1);
      assert Slot(recs[p], span) <= slot;
    }
    FirstEndIsSlotEnd(At(recs, open), span);
    SlotStep(slot + 1, span);
  }

  lemma JoinOpens(recs: seq<Instant>, n: nat, span: int, st: State)
    requires 0 < n < |recs| && span > 0 && AllParsed(recs) && OpensLatest(recs, n, span, st)
    requires Slot(recs[n], span) <= Slot(recs[n - |st.win|], span)
    ensures Advance(st, recs[n], span) == State(st.win + [recs[n]], st.end, st.closed)
    ensures OpensLatest(recs, n + 1, span, Advance(st, recs[n], span))
    ensures forall p :: 0 <= p <= n ==> At(recs, p) < SlotStart(Slot(recs[n - |st.win|], span) + 1, span)
  {
    hide SlotStart, FirstEnd;
    var open := n - |st.win|;
    BeforeSlotEnd(recs, n, span, st);
    SlotDecides(At(recs, n), span, Slot(recs[open], span));
    assert recs[open..n] + [recs[n]] == recs[open..n + 1];
  }

  lemma NothingEmitted(recs: seq<Instant>, n: nat, span: int, slot: int, closed: seq<Closed>)
    requires 0 < n < |recs| && span > 0
    requires WaitsFor(recs, n, span, slot) && HasEmitted(recs, n, span, closed)
    requires forall p :: 0 <= p <= n ==> At(recs, p) < SlotStart(slot + 1, span)
    ensures WaitsFor(recs, n + 1, span, slot) && HasEmitted(recs, n + 1, span, closed)
  {
    var e := FirstBoundary(recs, span);
    LatestBelow(recs, n + 1, SlotStart(slot + 1, span));
    hide SlotStart, AllWithin, Hops, FirstSlotOnly, At, FirstBoundary, NextEmit, Contents, Latest;
    HopsExtend(recs, n, span, span, e);
    NoHops(recs, n + 1, span, SlotStart(slot + 1, span));
    assert Hops(recs, n, span, span, e) + [] == Hops(recs, n, span, span, e);
  }

  lemma LatestBelow(recs: seq<Instant>, n: nat, b: int)
    requires 0 < n <= |recs| && forall p :: 0 <= p < n ==> At(recs, p) < b
    ensures Latest(recs, n) < b
  {
    LatestIsMaximum(recs, n);
  }

  /** A record no later than the latest slot joins the open window, and crosses no
      boundary. */
  lemma JoinInStep(recs: seq<Instant>, n: nat, span: int, st: State)
    requires 0 < n < |recs| && span > 0 && AllParsed(recs) && InStep(recs, n, span, st)
    requires Slot(recs[n], span) <= Slot(recs[n - |st.win|], span)
    ensures InStep(recs, n + 1, span, Advance(st, recs[n], span))
  {
    hide SlotStart, OpensLatest, WaitsFor, HasEmitted, Advance, At, Slot, AllParsed;
    assert 0 <= n - |st.win| < n by {
      OpensAt(recs, n, span, st);
    }
    JoinOpens(recs, n, span, st);
    NothingEmitted(recs, n, span, Slot(recs[n - |st.win|], span), st.closed);
  }

  lemma OpensAt(recs: seq<Instant>, n: nat, span: int, st: State)
    requires 0 < n <= |recs| && span > 0 && OpensLatest(recs, n, span, st)
    ensures 0 <= n - |st.win| < n && st.win == recs[n - |st.win|..n]
  {}

  lemma NoHops(recs: seq<Instant>, n: nat, span: int, e: int)
    requires 0 < n <= |recs| && span > 0 && Latest(recs, n) < e
    ensures Hops(recs, n, span, span, e) == [] && NextEmit(recs, n, span, e) == e
  {}

  /** What a record of a later slot makes HOPPING emit: the open window's records of
      its first slot. */
  lemma EmitsOpen(recs: seq<Instant>, n: nat, span: int, st: State)
    requires 0 < n < |recs| && span > 0 && AllParsed(recs) && OpensLatest(recs, n, span, st)
    requires Slot(recs[n - |st.win|], span) < Slot(recs[n], span)
    ensures var slot := Slot(recs[n - |st.win|], span);
            var w := Pick(recs, 0, n, SlotStart(slot, span), SlotStart(slot + 1, span));
            && Within(recs, w) && Select(recs, w) == OwnSlot(st.win, slot, span)
            && Hops(recs, n + 1, span, span, SlotStart(slot + 1, span)) == [Picked(w)]
            && SlotStart(slot + 1, span) <= Latest(recs, n + 1) == At(recs, n)
  {
    hide SlotStart;
    hide *;
    OpensAt(recs, n, span, st);
    var slot := Slot(recs[n - |st.win|], span);
    BeforeSlotEnd(recs, n, span, st);
    ParsedSlot(recs, n, span);
    SlotDecides(At(recs, n), span, slot);
    OpenIsPicked(recs, n, span, st);
    SlotStep(slot, span);
    EmitsOnlyFirst(recs, n, span, SlotStart(slot + 1, span));
    OneWindow(Pick(recs, 0, n, SlotStart(slot, span), SlotStart(slot + 1, span)));
  }

  lemma OneWindow(w: seq<int>)
    requires w != []
    ensures NonEmpty(w) == [Picked(w)]
  {}

  lemma OpenIsPicked(recs: seq<Instant>, n: nat, span: int, st: State)
    requires 0 < n <= |recs| && span > 0 && AllParsed(recs) && OpensLatest(recs, n, span, st)
    ensures var slot := Slot(recs[n - |st.win|], span);
            var w := Pick(recs, 0, n, SlotStart(slot, span), SlotStart(slot + 1, span));
            w != [] && Within(recs, w) && Select(recs, w) == OwnSlot(st.win, slot, span)
  {
    hide *;
    OpensAt(recs, n, span, st);
    var open := n - |st.win|;
    var slot := Slot(recs[open], span);
    BeforeSlotEnd(recs, n, span, st);
    PickSkips(recs, open, n, SlotStart(slot, span), SlotStart(slot + 1, span));
    PickIsOwnSlot(recs, open, n, slot, span);
    OwnSlotMeaning(st.win, slot, span);
    assert st.win[0] == recs[open] && recs[open] in st.win;
    assert recs[open] in OwnSlot(st.win, slot, span);
  }

  lemma ParsedSlot(recs: seq<Instant>, p: nat, span: int)
    requires p < |recs| && span > 0 && AllParsed(recs)
    ensures At(recs, p) / span == Slot(recs[p], span)
  {}

  /** ... which is all it emits, and where it then stands. */
  lemma HopsAfterOpen(recs: seq<Instant>, n: nat, span: int, st: State, e: int)
    requires 0 < n < |recs| && span > 0 && AllParsed(recs) && OpensLatest(recs, n, span, st)
    requires Slot(recs[n - |st.win|], span) < Slot(recs[n], span)
    requires NextEmit(recs, n, span, e) == SlotStart(Slot(recs[n - |st.win|], span) + 1, span)
    ensures var slot := Slot(recs[n - |st.win|], span);
            var w := Pick(recs, 0, n, SlotStart(slot, span), SlotStart(slot + 1, span));
            && Within(recs, w) && Select(recs, w) == OwnSlot(st.win, slot, span)
            && Hops(recs, n + 1, span, span, e) == Hops(recs, n, span, span, e) + [Picked(w)]
    ensures NextEmit(recs, n + 1, span, e) == SlotStart(Slot(recs[n], span) + 1, span)
  {
    hide *;
    OpensAt(recs, n, span, st);
    var slot := Slot(recs[n - |st.win|], span);
    ParsedSlot(recs, n, span);
    HopsExtend(recs, n, span, span, e);
    EmitsOpen(recs, n, span, st);
    SlotStep(slot + 1, span);
    NextEmitIsSlotEnd(recs, n + 1, span, SlotStart(slot + 1, span), Slot(recs[n], span));
  }

  lemma EmittedOpen(recs: seq<Instant>, n: nat, span: int, st: State)
    requires 0 < n < |recs| && span > 0 && AllParsed(recs) && InStep(recs, n, span, st)
    requires Slot(recs[n - |st.win|], span) < Slot(recs[n], span)
    ensures HasEmitted(recs, n + 1, span, st.closed + [Closed(st.win)])
    ensures WaitsFor(recs, n + 1, span, Slot(recs[n], span))
  {
    hide Hops, NextEmit, SlotStart, OpensLatest, Pick, OwnSlot, AllWithin, Within, Select, FirstBoundary, Slot,
         AllParsed,
         CutToFirst;
    OpensAt(recs, n, span, st);
    var e := FirstBoundary(recs, span);
    var slot := Slot(recs[n - |st.win|], span);
    var w := Pick(recs, 0, n, SlotStart(slot, span), SlotStart(slot + 1, span));
    HopsAfterOpen(recs, n, span, st, e);
    ContentsAppend(recs, Hops(recs, n, span, span, e), Picked(w));
    CutOpen(st.win, span);
    assert FirstSlotOnly(st.closed + [Closed(st.win)], span)
        == FirstSlotOnly(st.closed, span) + [CutToFirst(Closed(st.win), span)];
  }

  lemma CutOpen(w: seq<Instant>, span: int)
    requires w != [] && span > 0
    ensures CutToFirst(Closed(w), span) == Closed(OwnSlot(w, Slot(w[0], span), span))
  {}

  lemma AnewOpens(recs: seq<Instant>, n: nat, span: int, st: State)
    requires 0 < n < |recs| && span > 0 && AllParsed(recs) && OpensLatest(recs, n, span, st)
    requires Slot(recs[n - |st.win|], span) < Slot(recs[n], span) && st.end <= At(recs, n)
    ensures Advance(st, recs[n], span)
         == State([recs[n]], FirstEnd(At(recs, n), span), st.closed + [Closed(st.win)])
    ensures OpensLatest(recs, n + 1, span, Advance(st, recs[n], span))
  {
    assert recs[n..n + 1] == [recs[n]];
    hide FirstEnd, Slot;
    assert forall p :: 0 <= p < n ==> Slot(recs[p], span) <= Slot(recs[n - |st.win|], span);
  }

  lemma AnewInStep(recs: seq<Instant>, n: nat, span: int, st: State)
    requires 0 < n < |recs| && span > 0 && AllParsed(recs) && InStep(recs, n, span, st)
    requires Slot(recs[n - |st.win|], span) < Slot(recs[n], span) && st.end <= At(recs, n)
    ensures InStep(recs, n + 1, span, Advance(st, recs[n], span))
  {
    hide OpensLatest, WaitsFor, HasEmitted, Advance, At, Slot, AllParsed;
    InStepOpens(recs, n, span, st);
    AnewOpens(recs, n, span, st);
    EmittedOpen(recs, n, span, st);
  }

  /** A record of a later slot closes the open window, unless that was opened off
      the grid before the epoch and the slot is the very next one. */
  lemma ClosesUnlessMerges(recs: seq<Instant>, n: nat, span: int, st: State)
    requires 0 < n < |recs| && span > 0 && AllParsed(recs) && OpensLatest(recs, n, span, st)
    requires Slot(recs[n - |st.win|], span) < Slot(recs[n], span)
    ensures st.end <= At(recs, n) <==> !Merges(recs, n - |st.win|, n, span)
  {
    hide SlotStart;
    var open := n - |st.win|;
    var slot := Slot(recs[open], span);
    FirstEndIsSlotEnd(At(recs, open), span);
    SlotDecides(At(recs, n), span, slot);
    SlotDecides(At(recs, n), span, slot + 1);
    assert High(recs, n, span);
  }

  lemma {:induction false} InStepThroughout(recs: seq<Instant>, n: nat, span: int)
    requires 0 < n <= |recs| && span > 0 && AllParsed(recs) && Covered(At(recs, 0), span) && NoMerge(recs, n, span)
    ensures InStep(recs, n, span, Tumble(recs, n, span))
  {
    hide InStep, Advance, Covered, Merges;
    if n == 1 {
      assert Tumble(recs, 0, span) == State([], 0, []);
      StartInStep(recs, span);
    } else {
      InStepThroughout(recs, n - 1, span);
      var st := Tumble(recs, n - 1, span);
      assert OpensLatest(recs, n - 1, span, st) by {
        InStepOpens(recs, n - 1, span, st);
      }
      if Slot(recs[n - 1], span) <= Slot(recs[n - 1 - |st.win|], span) {
        JoinInStep(recs, n - 1, span, st);
      } else {
        ClosesUnlessMerges(recs, n - 1, span, st);
        AnewInStep(recs, n - 1, span, st);
      }
    }
  }

  lemma InStepOpens(recs: seq<Instant>, n: nat, span: int, st: State)
    requires 0 < n <= |recs| && span > 0 && InStep(recs, n, span, st)
    ensures OpensLatest(recs, n, span, st)
  {}

  /** On a parsed stream whose first time is covered and where nothing merges,
      HOPPING with hop = span emits TUMBLING's windows, each cut down to the slot of
      its first record. */
  lemma HoppingKeepsFirstSlots(recs: seq<Instant>, span: int)
    requires span > 0 && AllParsed(recs) && NoMerge(recs, |recs|, span)
    requires recs != [] ==> Covered(At(recs, 0), span)
    ensures HoppingWindows(recs, span, span) == FirstSlotOnly(Tumble(recs, |recs|, span).closed, span)
  {
    if recs != [] {
      InStepThroughout(recs, |recs|, span);
    }
  }
}
