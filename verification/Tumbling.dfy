/** What TUMBLING and COUNT queries emit: the open window carried from record to
    record, and the windows closed on the way. */
module Tumbling {
  import opened Records
  import opened Multiples

  /** The operator between two records: the open window, its exclusive end (only
      TUMBLING keeps one), and the windows closed so far. */
  datatype State = State(win: seq<Instant>, end: int, closed: seq<Closed>)

  /** One TUMBLING record. The fallback time is the length of the open window. */
  function Advance(st: State, x: Instant, span: int): State
    requires span > 0
  {
    var ts := InstantUnix(x, |st.win|);
    if st.win == [] then State([x], FirstEnd(ts, span), st.closed)
    else if ts >= st.end then State([x], FirstEnd(ts, span), st.closed + [Closed(st.win)])
    else State(st.win + [x], st.end, st.closed)
  }

  /** TUMBLING after the first n records. */
  function Tumble(recs: seq<Instant>, n: nat, span: int): State
    requires n <= |recs| && span > 0
  {
    if n == 0 then State([], 0, []) else Advance(Tumble(recs, n - 1, span), recs[n - 1], span)
  }

  lemma TumbleStep(recs: seq<Instant>, n: nat, span: int)
    requires n < |recs| && span > 0
    ensures Tumble(recs, n + 1, span) == Advance(Tumble(recs, n, span), recs[n], span)
  {}

  /** One COUNT record. */
  function Gather(st: State, x: Instant, size: int): State {
    if |st.win| + 1 >= size then State([], 0, st.closed + [Closed(st.win + [x])])
    else State(st.win + [x], 0, st.closed)
  }

  /** COUNT after the first n records. */
  function Chunk(recs: seq<Instant>, n: nat, size: int): State
    requires n <= |recs|
  {
    if n == 0 then State([], 0, []) else Gather(Chunk(recs, n - 1, size), recs[n - 1], size)
  }

  lemma AdvanceConserves(st: State, x: Instant, span: int)
    requires span > 0 && NoneEmpty(st.closed)
    ensures var next := Advance(st, x, span);
            && NoneEmpty(next.closed) && next.win != []
            && Flatten(next.closed) + next.win == Flatten(st.closed) + st.win + [x]
  {
    assert (st.closed + [Closed(st.win)])[..|st.closed|] == st.closed;
  }

  /** TUMBLING loses, repeats and reorders nothing, whatever the timestamps: the
      closed windows followed by the open one are the input. */
  lemma {:induction false} TumblingConserves(recs: seq<Instant>, n: nat, span: int)
    requires n <= |recs| && span > 0
    ensures var st := Tumble(recs, n, span);
            && NoneEmpty(st.closed)
            && Flatten(st.closed) + st.win == recs[..n]
            && (n > 0 ==> st.win != [])
  {
    hide Advance, Flatten, NoneEmpty;
    if n == 0 {
      EmptyFlatten();
    } else {
      TumblingConserves(recs, n - 1, span);
      AdvanceConserves(Tumble(recs, n - 1, span), recs[n - 1], span);
      assert recs[..n] == recs[..n - 1] + [recs[n - 1]];
    }
  }

  lemma EmptyFlatten()
    ensures NoneEmpty([]) && Flatten([]) == []
  {}

  /** COUNT conserves its input as well. */
  lemma {:induction false} CountConserves(recs: seq<Instant>, n: nat, size: int)
    requires n <= |recs|
    ensures var st := Chunk(recs, n, size);
            NoneEmpty(st.closed) && Flatten(st.closed) + st.win == recs[..n]
  {
    if n > 0 {
      CountConserves(recs, n - 1, size);
      var st := Chunk(recs, n - 1, size);
      assert recs[..n] == recs[..n - 1] + [recs[n - 1]];
      assert (st.closed + [Closed(st.win + [recs[n - 1]])])[..|st.closed|] == st.closed;
    }
  }

  function Width(size: int): (w: int)
    ensures w > 0
  {
    if size < 1 then 1 else size
  }

  /** COUNT closes one window for every `size` records, each of exactly that many
      records; a size below one acts as one. */
  lemma {:induction false} CountSizes(recs: seq<Instant>, n: nat, size: int)
    requires n <= |recs|
    ensures var st := Chunk(recs, n, size);
            && |st.closed| == n / Width(size)
            && |st.win| == n % Width(size)
            && forall k :: 0 <= k < |st.closed| ==> |st.closed[k].records| == Width(size)
  {
    if n == 0 {
      DivModUnique(0, Width(size), 0, 0);
    } else {
      CountSizes(recs, n - 1, size);
      QuotientStep(n - 1, Width(size));
    }
  }

  ghost predicate AllParsed(recs: seq<Instant>) {
    forall p :: 0 <= p < |recs| ==> recs[p].stamp.Parsed?
  }

  ghost predicate AllUnparsed(recs: seq<Instant>) {
    forall p :: 0 <= p < |recs| ==> recs[p].stamp.Unparsed?
  }

  /** The open window's end never moves back and lies past every time seen. */
  lemma {:induction false} EndPassesAll(recs: seq<Instant>, n: nat, span: int)
    requires 0 < n <= |recs| && span > 0 && AllParsed(recs)
    ensures forall p :: 0 <= p < n ==> recs[p].stamp.unix < Tumble(recs, n, span).end
    ensures n > 1 ==> Tumble(recs, n - 1, span).end <= Tumble(recs, n, span).end
    ensures Tumble(recs, n, span).win != []
  {
    if n > 1 {
      EndPassesAll(recs, n - 1, span);
    } else {
      assert Tumble(recs, 0, span).win == [];
    }
  }

  lemma FallbackStep(st: State, x: Instant, span: int)
    requires span > 0 && x.stamp.Unparsed? && 1 <= |st.win| <= st.end && st.end % span == 0
    ensures Advance(st, x, span)
         == if |st.win| < st.end then State(st.win + [x], st.end, st.closed)
            else State([x], st.end + span, st.closed + [Closed(st.win)])
  {}

  /** The j-th window closed holds (j+1)*span records, and the open one may grow to
      the next such size. */
  ghost predicate Grown(st: State, span: int) {
    && (forall j :: 0 <= j < |st.closed| ==> |st.closed[j].records| == span * (j + 1))
    && st.end == span * (|st.closed| + 1)
    && 1 <= |st.win| <= st.end
  }

  lemma GrownStep(st: State, x: Instant, span: int)
    requires span > 0 && x.stamp.Unparsed? && Grown(st, span)
    ensures Grown(Advance(st, x, span), span)
  {
    hide Advance;
    MultipleMod(|st.closed| + 1, span);
    FallbackStep(st, x, span);
    assert span * (|st.closed| + 1) + span == span * (|st.closed| + 2);
  }

  /** Without parseable timestamps the time of a record is the length of the open
      window, which starts over whenever one closes. The windows therefore grow:
      the k-th one closed holds k*span records. */
  lemma {:induction false} FallbackGrows(recs: seq<Instant>, n: nat, span: int)
    requires 0 < n <= |recs| && span > 0 && AllUnparsed(recs)
    ensures Grown(Tumble(recs, n, span), span)
  {
    if n == 1 {
      assert Tumble(recs, 0, span) == State([], 0, []);
    } else {
      hide Advance, Grown;
      FallbackGrows(recs, n - 1, span);
      GrownStep(Tumble(recs, n - 1, span), recs[n - 1], span);
    }
  }

  /** ... so that k closed windows use up span*k*(k+1)/2 records. */
  lemma {:induction false} FallbackConsumes(recs: seq<Instant>, n: nat, span: int)
    requires 0 < n <= |recs| && span > 0 && AllUnparsed(recs)
    ensures var st := Tumble(recs, n, span);
            2 * n == span * (|st.closed| * (|st.closed| + 1)) + 2 * |st.win|
  {
    if n == 1 {
      assert Tumble(recs, 0, span) == State([], 0, []);
    } else {
      hide Advance;
      FallbackGrows(recs, n - 1, span);
      FallbackConsumes(recs, n - 1, span);
      var st := Tumble(recs, n - 1, span);
      MultipleMod(|st.closed| + 1, span);
      FallbackStep(st, recs[n - 1], span);
      Triangle(span, |st.closed|);
    }
  }

  lemma Triangle(s: int, k: int)
    ensures s * ((k + 1) * (k + 2)) == s * (k * (k + 1)) + 2 * (s * (k + 1))
  {
    assert (k + 1) * (k + 2) == k * (k + 1) + 2 * (k + 1);
  }

  /** Closed windows are never taken back. */
  lemma {:induction false} TumblingPrefix(recs: seq<Instant>, n: nat, m: nat, span: int)
    requires n <= m <= |recs| && span > 0
    ensures Tumble(recs, n, span).closed <= Tumble(recs, m, span).closed
    decreases m
  {
    if n < m {
      TumblingPrefix(recs, n, m - 1, span);
    }
  }

  lemma {:induction false} CountPrefix(recs: seq<Instant>, n: nat, m: nat, size: int)
    requires n <= m <= |recs|
    ensures Chunk(recs, n, size).closed <= Chunk(recs, m, size).closed
    decreases m
  {
    if n < m {
      CountPrefix(recs, n, m - 1, size);
    }
  }
}
