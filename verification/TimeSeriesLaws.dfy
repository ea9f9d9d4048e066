/** What holds of every layout of the fleet averages. */
module TimeSeriesLaws {
  import opened Wrappers
  import opened Multiples
  import opened TimeSeries

  // Buckets.

  /** A bucket spans its samples' times from its start to the next one's exactly
      for times that are not negative or lie on the grid. */
  lemma BucketCovers(t: int, step: int)
    requires step > 0
    ensures Bucket(t, step) <= t < Bucket(t, step) + step <==> 0 <= t || t % step == 0
  {}

  /** The bucket at zero is twice as wide as the others. */
  lemma ZeroBucket(t: int, step: int)
    requires step > 0
    ensures Bucket(t, step) == 0 <==> -step < t < step
  {
    if -step < t < step {
      TowardZero(t, step);
      BucketOnGrid(t, step);
      SmallMod(0, step);
      CloseMultiples(Bucket(t, step), 0, step);
    }
  }

  // Averages.

  lemma {:induction false} SumBetween(vs: seq<real>, lo: real, hi: real)
    requires forall i :: 0 <= i < |vs| ==> lo <= vs[i] <= hi
    ensures lo * |vs| as real <= Sum(vs) <= hi * |vs| as real
  {
    if vs != [] {
      var n := |vs| - 1;
      SumBetween(vs[..n], lo, hi);
      assert lo * |vs| as real == lo * n as real + lo;
      assert hi * |vs| as real == hi * n as real + hi;
    }
  }

  /** An average lies between the least and the greatest speed of its cell. */
  lemma MeanBetween(vs: seq<real>, lo: real, hi: real)
    requires vs != [] && forall i :: 0 <= i < |vs| ==> lo <= vs[i] <= hi
    ensures Mean(vs).Some? && lo <= Mean(vs).value <= hi
  {
    SumBetween(vs, lo, hi);
    Quotients(lo, Sum(vs), hi, |vs| as real);
  }

  lemma Quotients(lo: real, s: real, hi: real, n: real)
    requires n > 0.0 && lo * n <= s <= hi * n
    ensures lo <= s / n <= hi
  {
    var q := s / n;
    assert q * n == s;
    Times(q, lo, n);
    Times(hi, q, n);
  }

  lemma Times(a: real, b: real, n: real)
    requires n > 0.0
    ensures a < b ==> a * n < b * n
  {
    assert a < b ==> (b - a) * n > 0.0;
  }

  // Every sample counts once.

  /** The number of samples in one type's cells. */
  function RowTally(all: seq<Sample>, name: string, buckets: seq<int>, step: int): nat
    requires step > 0
  {
    if buckets == [] then 0
    else RowTally(all, name, buckets[1..], step) + |Cell(all, name, buckets[0], step)|
  }

  function GridTally(all: seq<Sample>, names: seq<string>, buckets: seq<int>, step: int): nat
    requires step > 0
  {
    if names == [] then 0
    else GridTally(all, names[1..], buckets, step) + RowTally(all, names[0], buckets, step)
  }

  ghost predicate Distinct<T>(s: seq<T>) {
    forall i, j :: 0 <= i < j < |s| ==> s[i] != s[j]
  }

  lemma {:induction false} RowTallyNext(all: seq<Sample>, s: Sample, name: string, buckets: seq<int>, step: int)
    requires step > 0 && Distinct(buckets)
    ensures RowTally(all + [s], name, buckets, step) == RowTally(all, name, buckets, step)
            + if s.shipType == name && Bucket(s.p.t, step) in buckets then 1 else 0
  {
    if buckets != [] {
      RowTallyNext(all, s, name, buckets[1..], step);
      CellNext(all, s, name, buckets[0], step);
      assert Bucket(s.p.t, step) in buckets <==>
             Bucket(s.p.t, step) == buckets[0] || Bucket(s.p.t, step) in buckets[1..];
    }
  }

  lemma {:induction false} GridTallyNext(all: seq<Sample>, s: Sample, names: seq<string>, buckets: seq<int>, step: int)
    requires step > 0 && Distinct(buckets) && Distinct(names)
    ensures GridTally(all + [s], names, buckets, step) == GridTally(all, names, buckets, step)
            + if s.shipType in names && Bucket(s.p.t, step) in buckets then 1 else 0
  {
    if names != [] {
      GridTallyNext(all, s, names[1..], buckets, step);
      RowTallyNext(all, s, names[0], buckets, step);
      assert s.shipType in names <==> s.shipType == names[0] || s.shipType in names[1..];
    }
  }

  lemma {:induction false} RowTallyOfNone(name: string, buckets: seq<int>, step: int)
    requires step > 0
    ensures RowTally([], name, buckets, step) == 0
  {
    if buckets != [] {
      RowTallyOfNone(name, buckets[1..], step);
    }
  }

  lemma {:induction false} GridTallyOfNone(names: seq<string>, buckets: seq<int>, step: int)
    requires step > 0
    ensures GridTally([], names, buckets, step) == 0
  {
    if names != [] {
      RowTallyOfNone(names[0], buckets, step);
      GridTallyOfNone(names[1..], buckets, step);
    }
  }

  lemma {:induction false} TallyAll(all: seq<Sample>, names: seq<string>, buckets: seq<int>, step: int)
    requires step > 0 && Distinct(buckets) && Distinct(names)
    requires forall k :: 0 <= k < |all| ==> all[k].shipType in names && Bucket(all[k].p.t, step) in buckets
    ensures GridTally(all, names, buckets, step) == |all|
  {
    if all == [] {
      GridTallyOfNone(names, buckets, step);
    } else {
      var n := |all| - 1;
      TallyAll(all[..n], names, buckets, step);
      GridTallyNext(all[..n], all[n], names, buckets, step);
      assert all[..n] + [all[n]] == all;
    }
  }

  lemma {:induction false} TypeOfSample(rows: seq<Row>, k: nat)
    requires k < |All(rows)|
    ensures All(rows)[k].shipType in Types(rows)
  {
    var n := |rows| - 1;
    assert rows[..n + 1] == rows;
    NextRow(rows, n);
    if k < |All(rows[..n])| {
      TypeOfSample(rows[..n], k);
    } else {
      assert rows[n].series.Some?;
    }
  }

  lemma SpacedApart(buckets: seq<int>, step: int)
    requires step > 0 && Spaced(buckets, step)
    ensures Distinct(buckets)
  {
    forall i, j | 0 <= i < j < |buckets| ensures buckets[i] != buckets[j] {
      if buckets[i] == buckets[j] {
        SpacedDistinct(buckets, step, i, j);
      }
    }
  }

  lemma SamplesOnGrid(rows: seq<Row>, step: int, r: Layout)
    requires step > 0 && LaidOut(rows, step, r) && All(rows) != []
    ensures forall k :: 0 <= k < |All(rows)| ==>
              All(rows)[k].shipType in r.series && Bucket(All(rows)[k].p.t, step) in r.buckets
  {
    hide Bucket, Cell, All, Averages, Types, Holds;
    var all := All(rows);
    HeldIsMultiple(all, r.buckets[0], step);
    forall k | 0 <= k < |all| ensures all[k].shipType in r.series && Bucket(all[k].p.t, step) in r.buckets {
      TypeOfSample(rows, k);
      BucketOnGrid(all[k].p.t, step);
      OnGrid(r.buckets, Bucket(all[k].p.t, step), step);
    }
  }

  /** The cells of a layout share out the samples: none is lost and none counts
      twice. */
  lemma EverySampleCounts(rows: seq<Row>, step: int, r: Layout, names: seq<string>)
    requires step > 0 && LaidOut(rows, step, r)
    requires Distinct(names) && forall name :: name in names <==> name in r.series
    ensures GridTally(All(rows), names, r.buckets, step) == |All(rows)|
  {
    var all := All(rows);
    if all == [] {
      GridTallyOfNone(names, r.buckets, step);
    } else {
      SamplesOnGrid(rows, step, r);
      assert Spaced(r.buckets, step);
      hide *;
      SpacedApart(r.buckets, step);
      TallyAll(all, names, r.buckets, step);
    }
  }

  // The order of the rows does not matter.

  lemma {:induction false} AllOfBoth(a: seq<Row>, b: seq<Row>)
    ensures All(a + b) == All(a) + All(b)
  {
    hide RowSamples;
    if b == [] {
      assert a + b == a;
    } else {
      var n := |b| - 1;
      assert (a + b)[..|a + b| - 1] == a + b[..n];
      AllOfBoth(a, b[..n]);
    }
  }

  lemma {:induction false} SumOfBoth(a: seq<real>, b: seq<real>)
    ensures Sum(a + b) == Sum(a) + Sum(b)
  {
    if b == [] {
      assert a + b == a;
    } else {
      var n := |b| - 1;
      assert (a + b)[..|a + b| - 1] == a + b[..n];
      SumOfBoth(a, b[..n]);
    }
  }

  /** The number of speeds in a cell, and their sum. */
  function CellFigures(rows: seq<Row>, name: string, b: int, step: int): (nat, real)
    requires step > 0
  {
    var vs := Cell(All(rows), name, b, step);
    (|vs|, Sum(vs))
  }

  lemma FiguresOfBoth(x: seq<Row>, y: seq<Row>, name: string, b: int, step: int)
    requires step > 0
    ensures var p, q := CellFigures(x, name, b, step), CellFigures(y, name, b, step);
            var r := CellFigures(x + y, name, b, step);
            r.0 == p.0 + q.0 && r.1 == p.1 + q.1
  {
    AllOfBoth(x, y);
    CellJoin(All(x), All(y), name, b, step);
    SumOfBoth(Cell(All(x), name, b, step), Cell(All(y), name, b, step));
  }

  lemma SplitAt<T>(e: T, y: seq<T>) returns (before: seq<T>, after: seq<T>)
    requires e in y
    ensures y == before + ([e] + after)
  {
    var i :| 0 <= i < |y| && y[i] == e;
    before, after := y[..i], y[i + 1..];
  }

  lemma DropOne<T>(e: T, x: seq<T>, a: seq<T>, b: seq<T>)
    requires multiset([e] + x) == multiset(a + ([e] + b))
    ensures multiset(x) == multiset(a + b)
  {
    assert multiset([e] + x) == multiset{e} + multiset(x);
    assert multiset(a + ([e] + b)) == multiset(a) + (multiset{e} + multiset(b));
    assert multiset(a + b) == multiset(a) + multiset(b);
    assert multiset(x) == multiset([e] + x) - multiset{e};
  }

  lemma {:induction false} FiguresOfPermuted(x: seq<Row>, y: seq<Row>, name: string, b: int, step: int)
    requires step > 0 && multiset(x) == multiset(y)
    ensures CellFigures(x, name, b, step) == CellFigures(y, name, b, step)
    decreases |x|
  {
    hide CellFigures;
    if x == [] {
      assert |multiset(y)| == 0;
    } else {
      var row := x[0];
      assert row in multiset(y);
      var before, after := SplitAt(row, y);
      assert x == [row] + x[1..];
      DropOne(row, x[1..], before, after);
      FiguresOfPermuted(x[1..], before + after, name, b, step);
      FiguresOfBoth([row], x[1..], name, b, step);
      FiguresOfBoth(before, after, name, b, step);
      FiguresOfBoth([row], after, name, b, step);
      FiguresOfBoth(before, [row] + after, name, b, step);
    }
  }

  lemma TypesOfPermuted(x: seq<Row>, y: seq<Row>)
    requires multiset(x) == multiset(y)
    ensures Types(x) <= Types(y)
  {
    forall name | name in Types(x) ensures name in Types(y) {
      var k :| 0 <= k < |x| && x[k].series.Some? && TypeName(x[k]) == name;
      assert x[k] in multiset(y);
      var j :| 0 <= j < |y| && y[j] == x[k];
    }
  }

  lemma HeldInItsCell(all: seq<Sample>, k: nat, step: int)
    requires step > 0 && k < |all|
    ensures Cell(all, all[k].shipType, Bucket(all[k].p.t, step), step) != []
  {
    var name, b := all[k].shipType, Bucket(all[k].p.t, step);
    assert all == all[..k] + ([all[k]] + all[k + 1..]);
    CellJoin(all[..k], [all[k]] + all[k + 1..], name, b, step);
    CellJoin([all[k]], all[k + 1..], name, b, step);
    CellNext([], all[k], name, b, step);
    assert [] + [all[k]] == [all[k]];
  }

  lemma HoldsOfPermuted(x: seq<Row>, y: seq<Row>, b: int, step: int)
    requires step > 0 && multiset(x) == multiset(y)
    ensures Holds(All(x), b, step) ==> Holds(All(y), b, step)
  {
    if Holds(All(x), b, step) {
      var k :| 0 <= k < |All(x)| && Bucket(All(x)[k].p.t, step) == b;
      HeldInItsCell(All(x), k, step);
      FiguresOfPermuted(x, y, All(x)[k].shipType, b, step);
      hide Cell, Bucket, All;
      CellFrom(All(y), All(x)[k].shipType, b, step);
    }
  }

  lemma SomeHeld(all: seq<Sample>, step: int)
    requires step > 0 && all != []
    ensures Holds(all, Bucket(all[0].p.t, step), step)
  {}

  lemma SpacedSame(x: seq<int>, y: seq<int>, step: int)
    requires step > 0 && Spaced(x, step) && Spaced(y, step) && x != [] && y != []
    requires x[0] == y[0] && x[|x| - 1] == y[|y| - 1]
    ensures x == y
  {
    assert (|x| - |y|) * step == 0;
    Spread(step, |x| - |y|);
  }

  lemma CoversHeld(all: seq<Sample>, lo: int, hi: int, b: int, step: int)
    requires step > 0 && Covers(all, lo, hi, step) && Holds(all, b, step)
    ensures lo <= b <= hi
  {}

  ghost predicate Spans(all: seq<Sample>, buckets: seq<int>, step: int)
    requires step > 0
  {
    && buckets != [] && Spaced(buckets, step)
    && Holds(all, buckets[0], step) && Holds(all, buckets[|buckets| - 1], step)
    && Covers(all, buckets[0], buckets[|buckets| - 1], step)
  }

  lemma LaidOutSpans(rows: seq<Row>, step: int, r: Layout)
    requires step > 0 && LaidOut(rows, step, r)
    ensures if All(rows) == [] then r.buckets == [] else Spans(All(rows), r.buckets, step)
  {}

  lemma SameBuckets(x: seq<Row>, y: seq<Row>, step: int, p: Layout, q: Layout)
    requires step > 0 && multiset(x) == multiset(y) && LaidOut(x, step, p) && LaidOut(y, step, q)
    ensures p.buckets == q.buckets && (All(x) == [] <==> All(y) == [])
  {
    LaidOutSpans(x, step, p);
    LaidOutSpans(y, step, q);
    hide LaidOut, Holds, Covers, All, Spaced;
    var xs, ys := All(x), All(y);
    forall b ensures Holds(xs, b, step) <==> Holds(ys, b, step) {
      HoldsOfPermuted(x, y, b, step);
      HoldsOfPermuted(y, x, b, step);
    }
    if xs != [] {
      SomeHeld(xs, step);
    }
    if ys != [] {
      SomeHeld(ys, step);
    }
    if xs != [] {
      SameEnds(xs, ys, step, p.buckets, q.buckets);
    }
  }

  lemma SameEnds(xs: seq<Sample>, ys: seq<Sample>, step: int, p: seq<int>, q: seq<int>)
    requires step > 0 && p != [] && q != [] && Spaced(p, step) && Spaced(q, step)
    requires Covers(xs, p[0], p[|p| - 1], step) && Covers(ys, q[0], q[|q| - 1], step)
    requires Holds(ys, p[0], step) && Holds(ys, p[|p| - 1], step)
    requires Holds(xs, q[0], step) && Holds(xs, q[|q| - 1], step)
    ensures p == q
  {
    hide Holds, Covers;
    CoversHeld(xs, p[0], p[|p| - 1], q[0], step);
    CoversHeld(xs, p[0], p[|p| - 1], q[|q| - 1], step);
    CoversHeld(ys, q[0], q[|q| - 1], p[0], step);
    CoversHeld(ys, q[0], q[|q| - 1], p[|p| - 1], step);
    SpacedSame(p, q, step);
  }

  /** There is one answer: it depends neither on the order of the rows nor on the
      order in which the accumulators are visited. */
  lemma OneLayout(x: seq<Row>, y: seq<Row>, step: int, p: Layout, q: Layout)
    requires step > 0 && multiset(x) == multiset(y) && LaidOut(x, step, p) && LaidOut(y, step, q)
    ensures p == q
  {
    hide All, Cell, Types, Holds, Covers, Averages;
    SameBuckets(x, y, step, p, q);
    if All(x) != [] {
      TypesOfPermuted(x, y);
      TypesOfPermuted(y, x);
      forall name | name in p.series ensures p.series[name] == q.series[name] {
        SameRow(x, y, step, p.series[name], q.series[name], name, p.buckets);
      }
    }
  }

  lemma SameRow(x: seq<Row>, y: seq<Row>, step: int, p: seq<Option<real>>, q: seq<Option<real>>, name: string,
                buckets: seq<int>)
    requires step > 0 && multiset(x) == multiset(y)
    requires Averages(p, All(x), name, buckets, step) && Averages(q, All(y), name, buckets, step)
    ensures p == q
  {
    forall i | 0 <= i < |p| ensures p[i] == q[i] {
      FiguresOfPermuted(x, y, name, buckets[i], step);
      hide All, Cell;
    }
  }
}
