/** Queries over the looping replay of a stored property. */
module Replay {
  import opened Multiples
  import opened Records
  import opened Hopping
  import opened Tumbling

  /** `stream` is what a replay of `lap` has sent so far: the lap over and over. */
  ghost predicate Replays(stream: seq<Instant>, lap: seq<Instant>) {
    lap != [] && forall q :: 0 <= q < |stream| ==> stream[q] == lap[q % |lap|]
  }

  /** The replay loop, until the query is cancelled after some number of ticks:
      it sends record i and moves on to (i + 1) modulo the lap. */
  method ReplaySource(insts: seq<Instant>, ticks: nat) returns (out: seq<Instant>)
    requires insts != []
    ensures |out| == ticks && Replays(out, insts)
  {
    out := [];
    var i := 0;
    SmallMod(0, |insts|);
    for tick := 0 to ticks
      invariant |out| == tick && Replays(out, insts)
      invariant i == tick % |insts|
    {
      NextMod(tick, |insts|);
      out := out + [insts[i]];
      i := (i + 1) % |insts|;
    }
  }

  /** The first n records already carry the timestamp `s`. */
  ghost predicate Seen(recs: seq<Instant>, n: nat, s: Stamp)
    requires n <= |recs|
  {
    exists p :: 0 <= p < n && recs[p].stamp == s
  }

  ghost predicate NothingLater(recs: seq<Instant>, n: nat)
    requires n <= |recs|
  {
    AllParsed(recs) && forall q :: n <= q < |recs| ==> Seen(recs, n, recs[q].stamp)
  }

  /** Records whose times have all been seen close no TUMBLING window. */
  lemma {:induction false} TumblingIdle(recs: seq<Instant>, n: nat, m: nat, span: int)
    requires 0 < n <= m <= |recs| && span > 0 && NothingLater(recs, n)
    ensures var st := Tumble(recs, n, span);
            Tumble(recs, m, span) == State(st.win + recs[n..m], st.end, st.closed)
    decreases m
  {
    EndPassesAll(recs, n, span);
    var st := Tumble(recs, n, span);
    if n < m {
      TumblingIdle(recs, n, m - 1, span);
      assert recs[n..m - 1] + [recs[m - 1]] == recs[n..m];
      assert st.win + recs[n..m - 1] + [recs[m - 1]] == st.win + recs[n..m];
    } else {
      assert st.win + recs[n..m] == st.win;
    }
  }

  lemma SeenIsNotLater(recs: seq<Instant>, n: nat, q: nat)
    requires 0 < n <= q < |recs| && NothingLater(recs, n)
    ensures At(recs, q) <= Latest(recs, n)
  {
    LatestIsMaximum(recs, n);
    var p :| 0 <= p < n && recs[p].stamp == recs[q].stamp;
    assert At(recs, q) == At(recs, p);
  }

  /** ... and cross no HOPPING boundary. */
  lemma {:induction false} HoppingIdle(recs: seq<Instant>, n: nat, m: nat, span: int, hop: int, e: int)
    requires 0 < n <= m <= |recs| && hop > 0 && NothingLater(recs, n)
    ensures Latest(recs, m) == Latest(recs, n)
    ensures Hops(recs, m, span, hop, e) == Hops(recs, n, span, hop, e)
    decreases m
  {
    hide *;
    if n < m {
      HoppingIdle(recs, n, m - 1, span, hop, e);
      SeenIsNotLater(recs, n, m - 1);
      HopsIdle(recs, m - 1, span, hop, e);
    }
  }

  lemma {:induction false} TumbleOfPrefix(recs: seq<Instant>, m: nat, n: nat, span: int)
    requires n <= m <= |recs| && span > 0
    ensures Tumble(recs[..m], n, span) == Tumble(recs, n, span)
  {
    if n > 0 {
      TumbleOfPrefix(recs, m, n - 1, span);
    }
  }

  lemma SeenInFirstLap(stream: seq<Instant>, lap: seq<Instant>)
    requires Replays(stream, lap) && |lap| <= |stream| && AllParsed(lap)
    ensures stream[..|lap|] == lap && NothingLater(stream, |lap|)
  {
    forall p | 0 <= p < |lap| ensures stream[p] == lap[p] {
      SmallMod(p, |lap|);
    }
    forall q | 0 <= q < |stream|
      ensures stream[q].stamp.Parsed?
      ensures Seen(stream, |lap|, stream[q].stamp)
    {
      var p := q % |lap|;
      assert stream[p].stamp == stream[q].stamp;
    }
  }

  lemma ContentsOfPrefix(recs: seq<Instant>, m: nat, ws: seq<Picked>)
    requires m <= |recs| && AllWithin(recs[..m], ws)
    ensures AllWithin(recs, ws) && Contents(recs[..m], ws) == Contents(recs, ws)
  {
    assert AllWithin(recs, ws) by {
      forall k | 0 <= k < |ws| ensures Within(recs, ws[k].at) {
        assert Within(recs[..m], ws[k].at);
      }
    }
    forall k | 0 <= k < |ws|
      ensures Contents(recs[..m], ws)[k] == Contents(recs, ws)[k]
    {
      assert Within(recs[..m], ws[k].at);
      assert Select(recs[..m], ws[k].at) == Select(recs, ws[k].at);
    }
  }

  /** However many laps the replay makes, a TUMBLING or HOPPING query over parsed
      timestamps emits the windows of the first lap and nothing after it. */
  lemma OnlyTheFirstLap(stream: seq<Instant>, lap: seq<Instant>, span: int, hop: int)
    requires Replays(stream, lap) && |lap| <= |stream| && AllParsed(lap) && span > 0 && hop > 0
    ensures Tumble(stream, |stream|, span).closed == Tumble(lap, |lap|, span).closed
    ensures HoppingWindows(stream, span, hop) == HoppingWindows(lap, span, hop)
  {
    hide Hops, Latest, Tumble, NothingLater, Contents;
    var n := |lap|;
    SeenInFirstLap(stream, lap);
    TumblingIdle(stream, n, |stream|, span);
    TumbleOfPrefix(stream, n, n, span);
    var e := FirstBoundary(lap, hop);
    HoppingIdle(stream, n, |stream|, span, hop, e);
    HopsOfPrefix(stream, n, span, hop, e);
    HopsAreWithin(lap, n, span, hop, e);
    ContentsOfPrefix(stream, n, Hops(lap, n, span, hop, e));
  }
}
