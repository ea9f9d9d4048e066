/** The fleet-wide averages by ship type and time bucket. */
module TimeSeries {
  import opened Wrappers
  import opened Multiples
  import Records

  /** A speed at a time in seconds. */
  datatype Point = Point(t: int, v: real)

  /** One row of the query: the ship type, and the sampled series if there is one. */
  datatype Row = Row(shipType: Option<string>, series: Option<seq<Point>>)

  datatype Sample = Sample(shipType: string, p: Point)

  /** The answer: where the buckets start, and each type's averages. */
  datatype Layout = Layout(buckets: seq<int>, series: map<string, seq<Option<real>>>)

  const NO_MIN: int := 0x3fff_ffff_ffff_ffff
  const NO_MAX: int := -0x4000_0000_0000_0000

  /** What times with a four-digit year come to in seconds, in any time zone. */
  const EARLIEST: int := -62_167_305_600
  const LATEST: int := 253_402_387_200

  function StepSeconds(param: Option<int>): (s: int)
    ensures s >= 60
  {
    if param.Some? && param.value >= 60 then param.value else 600
  }

  function TypeName(row: Row): string {
    if row.shipType.Some? && row.shipType.value != "" then row.shipType.value else "Other"
  }

  /** The remainder truncates toward zero. */
  function Bucket(t: int, step: int): int
    requires step > 0
  {
    t - Records.Rem(t, step)
  }

  // What the answer is to be.

  function Tagged(name: string, ps: seq<Point>): seq<Sample> {
    seq(|ps|, i requires 0 <= i < |ps| => Sample(name, ps[i]))
  }

  function RowSamples(row: Row): seq<Sample> {
    if row.series.Some? then Tagged(TypeName(row), row.series.value) else []
  }

  function All(rows: seq<Row>): seq<Sample> {
    if rows == [] then [] else All(rows[..|rows| - 1]) + RowSamples(rows[|rows| - 1])
  }

  function Types(rows: seq<Row>): set<string> {
    set k | 0 <= k < |rows| && rows[k].series.Some? :: TypeName(rows[k])
  }

  predicate InCell(s: Sample, name: string, b: int, step: int)
    requires step > 0
  {
    s.shipType == name && Bucket(s.p.t, step) == b
  }

  /** The speeds of one type whose time rounds to one bucket. */
  function Cell(all: seq<Sample>, name: string, b: int, step: int): seq<real>
    requires step > 0
  {
    if all == [] then []
    else
      var last := all[|all| - 1];
      Cell(all[..|all| - 1], name, b, step) + if InCell(last, name, b, step) then [last.p.v] else []
  }

  function Sum(vs: seq<real>): real {
    if vs == [] then 0.0 else Sum(vs[..|vs| - 1]) + vs[|vs| - 1]
  }

  function Mean(vs: seq<real>): Option<real> {
    if vs == [] then None else Some(Sum(vs) / |vs| as real)
  }

  ghost predicate Holds(all: seq<Sample>, b: int, step: int)
    requires step > 0
  {
    exists k :: 0 <= k < |all| && Bucket(all[k].p.t, step) == b
  }

  /** Equally spaced buckets from the first that holds a sample to the last. */
  ghost predicate Spaced(buckets: seq<int>, step: int)
    requires step > 0
  {
    forall i :: 0 <= i < |buckets| ==> buckets[i] == buckets[0] + i * step
  }

  ghost predicate Covers(all: seq<Sample>, lo: int, hi: int, step: int)
    requires step > 0
  {
    forall k :: 0 <= k < |all| ==> lo <= Bucket(all[k].p.t, step) <= hi
  }

  ghost predicate Averages(row: seq<Option<real>>, all: seq<Sample>, name: string, buckets: seq<int>, step: int)
    requires step > 0
  {
    |row| == |buckets| && forall i :: 0 <= i < |row| ==> row[i] == Mean(Cell(all, name, buckets[i], step))
  }

  ghost predicate LaidOut(rows: seq<Row>, step: int, r: Layout)
    requires step > 0
  {
    var all := All(rows);
    if all == [] then r == Layout([], map[])
    else
      r.buckets != []
      && Spaced(r.buckets, step)
      && Holds(all, r.buckets[0], step) && Holds(all, r.buckets[|r.buckets| - 1], step)
      && Covers(all, r.buckets[0], r.buckets[|r.buckets| - 1], step)
      && r.series.Keys == Types(rows)
      && forall name :: name in r.series ==> Averages(r.series[name], all, name, r.buckets, step)
  }

  // The same, by what the rows themselves say.

  /** The row has a series, and it counts for this type: its own, or "Other" when it
      names none. */
  ghost predicate CountsFor(row: Row, name: string) {
    row.series.Some?
    && if name == "Other" then row.shipType in {None, Some(""), Some("Other")}
       else name != "" && row.shipType == Some(name)
  }

  /** The speeds, in the order of the rows, that count for a type. */
  ghost function SpeedsFor(rows: seq<Row>, name: string): seq<Point> {
    if rows == [] then []
    else
      var last := rows[|rows| - 1];
      SpeedsFor(rows[..|rows| - 1], name) + if CountsFor(last, name) then last.series.value else []
  }

  /** The speeds at times that round to the bucket. */
  function InBucket(ps: seq<Point>, b: int, step: int): seq<real>
    requires step > 0
  {
    if ps == [] then []
    else
      var last := ps[|ps| - 1];
      InBucket(ps[..|ps| - 1], b, step) + if Bucket(last.t, step) == b then [last.v] else []
  }

  /** Buckets are a step apart; a type has a row if and only if some row counts for it,
      and its cell is the mean of the speeds that do and lie in the bucket. */
  ghost predicate Answers(rows: seq<Row>, step: int, r: Layout)
    requires step > 0
  {
    && (forall i :: 0 <= i < |r.buckets| - 1 ==> r.buckets[i + 1] - r.buckets[i] == step)
    && (r.buckets == [] <==> forall name :: SpeedsFor(rows, name) == [])
    && (r.buckets != [] ==>
          forall name :: name in r.series <==> exists k :: 0 <= k < |rows| && CountsFor(rows[k], name))
    && forall name :: name in r.series ==> AnswersFor(rows, name, step, r.buckets, r.series[name])
  }

  ghost predicate AnswersFor(rows: seq<Row>, name: string, step: int, buckets: seq<int>, row: seq<Option<real>>)
    requires step > 0
  {
    |row| == |buckets|
    && forall i :: 0 <= i < |row| ==> row[i] == Mean(InBucket(SpeedsFor(rows, name), buckets[i], step))
  }

  lemma CountsIsType(row: Row, name: string)
    ensures CountsFor(row, name) <==> row.series.Some? && TypeName(row) == name
  {}

  lemma {:induction false} InBucketJoin(a: seq<Point>, b: seq<Point>, c: int, step: int)
    requires step > 0
    ensures InBucket(a + b, c, step) == InBucket(a, c, step) + InBucket(b, c, step)
    decreases |b|
  {
    if b == [] {
      assert a + b == a;
    } else {
      var n := |b| - 1;
      assert (a + b)[..|a + b| - 1] == a + b[..n];
      InBucketJoin(a, b[..n], c, step);
    }
  }

  lemma {:induction false} CellJoin(a: seq<Sample>, b: seq<Sample>, name: string, c: int, step: int)
    requires step > 0
    ensures Cell(a + b, name, c, step) == Cell(a, name, c, step) + Cell(b, name, c, step)
    decreases |b|
  {
    if b == [] {
      assert a + b == a;
    } else {
      var n := |b| - 1;
      assert (a + b)[..|a + b| - 1] == a + b[..n];
      CellJoin(a, b[..n], name, c, step);
    }
  }

  lemma {:induction false} CellOfTagged(tag: string, ps: seq<Point>, name: string, b: int, step: int)
    requires step > 0
    ensures Cell(Tagged(tag, ps), name, b, step) == if tag == name then InBucket(ps, b, step) else []
    decreases |ps|
  {
    if ps != [] {
      var n := |ps| - 1;
      CellOfTagged(tag, ps[..n], name, b, step);
      assert Tagged(tag, ps)[..n] == Tagged(tag, ps[..n]);
    }
  }

  /** A cell holds the speeds that count for the type and lie in the bucket. */
  lemma {:induction false} CellIsSpeeds(rows: seq<Row>, name: string, b: int, step: int)
    requires step > 0
    ensures Cell(All(rows), name, b, step) == InBucket(SpeedsFor(rows, name), b, step)
    decreases |rows|
  {
    if rows != [] {
      var front, last := rows[..|rows| - 1], rows[|rows| - 1];
      CellIsSpeeds(front, name, b, step);
      CountsIsType(last, name);
      CellJoin(All(front), RowSamples(last), name, b, step);
      InBucketJoin(SpeedsFor(front, name), if CountsFor(last, name) then last.series.value else [], b, step);
      hide Bucket, TypeName, CountsFor, Tagged;
      if last.series.Some? {
        CellOfTagged(TypeName(last), last.series.value, name, b, step);
      }
    }
  }

  lemma {:induction false} SpeedsAreSamples(rows: seq<Row>)
    ensures All(rows) == [] ==> forall name :: SpeedsFor(rows, name) == []
    ensures All(rows) != [] ==> exists name :: SpeedsFor(rows, name) != []
    decreases |rows|
  {
    if rows != [] {
      var front, last := rows[..|rows| - 1], rows[|rows| - 1];
      SpeedsAreSamples(front);
      hide CountsFor, TypeName;
      CountsIsType(last, TypeName(last));
      forall name ensures CountsFor(last, name) ==> last.series.Some? {
        CountsIsType(last, name);
      }
      if All(front) != [] {
        var name :| SpeedsFor(front, name) != [];
        assert SpeedsFor(rows, name) != [];
      } else if All(rows) != [] {
        assert SpeedsFor(rows, TypeName(last)) != [];
      }
    }
  }

  lemma TypesAreCounted(rows: seq<Row>, name: string)
    ensures name in Types(rows) <==> exists k :: 0 <= k < |rows| && CountsFor(rows[k], name)
  {
    forall k | 0 <= k < |rows| ensures CountsFor(rows[k], name) <==> rows[k].series.Some? && TypeName(rows[k]) == name {
      CountsIsType(rows[k], name);
    }
    hide CountsFor, TypeName;
  }

  lemma StepApart(buckets: seq<int>, step: int)
    requires step > 0 && Spaced(buckets, step)
    ensures forall i :: 0 <= i < |buckets| - 1 ==> buckets[i + 1] - buckets[i] == step
  {
    forall i | 0 <= i < |buckets| - 1 ensures buckets[i + 1] - buckets[i] == step {
      assert (i + 1) * step == i * step + step;
    }
  }

  lemma LaidOutAnswers(rows: seq<Row>, step: int, r: Layout)
    requires step > 0 && LaidOut(rows, step, r)
    ensures Answers(rows, step, r)
  {
    SpeedsAreSamples(rows);
    StepApart(r.buckets, step);
    forall name ensures name in Types(rows) <==> exists k :: 0 <= k < |rows| && CountsFor(rows[k], name) {
      TypesAreCounted(rows, name);
    }
    hide CountsFor, SpeedsFor, Types, Spaced, Holds, Covers, All, Mean;
    forall name | name in r.series ensures AnswersFor(rows, name, step, r.buckets, r.series[name]) {
      forall b ensures Cell(All(rows), name, b, step) == InBucket(SpeedsFor(rows, name), b, step) {
        CellIsSpeeds(rows, name, b, step);
      }
    }
  }

  // Gathering.

  datatype Acc = Acc(sum: real, n: nat)

  type Data = map<string, map<int, Acc>>

  ghost predicate AccOf(a: Acc, vs: seq<real>) {
    vs != [] && a == Acc(Sum(vs), |vs|)
  }

  ghost predicate CellIs(bk: map<int, Acc>, b: int, vs: seq<real>) {
    if b in bk then AccOf(bk[b], vs) else vs == []
  }

  /** The accumulators hold the samples seen so far. */
  ghost predicate Gathered(data: Data, all: seq<Sample>, step: int)
    requires step > 0
  {
    (forall k :: 0 <= k < |all| ==> all[k].shipType in data)
    && forall name, b :: name in data ==> CellIs(data[name], b, Cell(all, name, b, step))
  }

  ghost predicate Bounds(all: seq<Sample>, tmin: int, tmax: int, step: int)
    requires step > 0
  {
    Covers(all, tmin, tmax, step)
    && if all == [] then tmin == NO_MIN && tmax == NO_MAX else Holds(all, tmin, step) && Holds(all, tmax, step)
  }

  ghost predicate Dated(rows: seq<Row>) {
    forall k :: 0 <= k < |rows| ==> RowDated(rows[k])
  }

  ghost predicate RowDated(row: Row) {
    row.series.Some? ==> forall j :: 0 <= j < |row.series.value| ==> PointDated(row.series.value[j])
  }

  ghost predicate PointDated(p: Point) {
    EARLIEST <= p.t <= LATEST
  }

  method Gather(rows: seq<Row>, step: int) returns (data: Data, tmin: int, tmax: int)
    requires step > 0 && Dated(rows)
    ensures data.Keys == Types(rows)
    ensures Gathered(data, All(rows), step)
    ensures Bounds(All(rows), tmin, tmax, step)
  {
    hide Gathered, Bounds, All, Types, Tagged;
    data, tmin, tmax := map[], NO_MIN, NO_MAX;
    NothingGathered(step);
    assert rows[..0] == [];
    for k := 0 to |rows|
      invariant data.Keys == Types(rows[..k])
      invariant Gathered(data, All(rows[..k]), step)
      invariant Bounds(All(rows[..k]), tmin, tmax, step)
    {
      NextRow(rows, k);
      if rows[k].series.None? {
        continue;
      }
      assert RowDated(rows[k]);
      data, tmin, tmax := GatherRow(data, tmin, tmax, TypeName(rows[k]), rows[k].series.value, step, All(rows[..k]));
    }
    assert rows[..|rows|] == rows;
  }

  /** The body of the row loop. */
  method GatherRow(data: Data, tmin: int, tmax: int, name: string, ps: seq<Point>, step: int, ghost seen: seq<Sample>)
    returns (data': Data, tmin': int, tmax': int)
    requires step > 0 && Gathered(data, seen, step) && Bounds(seen, tmin, tmax, step)
    requires forall j :: 0 <= j < |ps| ==> PointDated(ps[j])
    ensures data'.Keys == data.Keys + {name}
    ensures Gathered(data', seen + Tagged(name, ps), step)
    ensures Bounds(seen + Tagged(name, ps), tmin', tmax', step)
  {
    hide Gathered, Bounds, PointDated, Bucket;
    data', tmin', tmax' := data, tmin, tmax;
    if name !in data' {
      NewType(data', seen, name, step);
      data' := data'[name := map[]];
    }
    assert seen + Tagged(name, ps[..0]) == seen;
    for j := 0 to |ps|
      invariant data'.Keys == data.Keys + {name}
      invariant Gathered(data', seen + Tagged(name, ps[..j]), step)
      invariant Bounds(seen + Tagged(name, ps[..j]), tmin', tmax', step)
    {
      var p := ps[j];
      ghost var now := seen + Tagged(name, ps[..j]);
      assert seen + Tagged(name, ps[..j + 1]) == now + [Sample(name, p)];
      GatherOne(data', now, name, p, step);
      BoundOne(now, tmin', tmax', Sample(name, p), step);
      var b := Bucket(p.t, step);
      var bk := data'[name];
      var a := if b in bk then bk[b] else Acc(0.0, 0);
      data' := data'[name := bk[b := Acc(a.sum + p.v, a.n + 1)]];
      if b < tmin' {
        tmin' := b;
      }
      if b > tmax' {
        tmax' := b;
      }
    }
    assert ps[..|ps|] == ps;
  }

  lemma NothingGathered(step: int)
    requires step > 0
    ensures Gathered(map[], All([]), step) && Bounds(All([]), NO_MIN, NO_MAX, step)
    ensures Types([]) == {}
  {}

  lemma NextRow(rows: seq<Row>, k: nat)
    requires k < |rows|
    ensures All(rows[..k + 1]) == All(rows[..k]) + RowSamples(rows[k])
    ensures Types(rows[..k + 1]) == Types(rows[..k]) + if rows[k].series.Some? then {TypeName(rows[k])} else {}
    ensures All(rows[..k]) + Tagged(TypeName(rows[k]), []) == All(rows[..k])
  {
    assert rows[..k + 1][..k] == rows[..k];
    forall name ensures name in Types(rows[..k + 1]) <==>
                        name in Types(rows[..k]) || (rows[k].series.Some? && name == TypeName(rows[k])) {
      if name in Types(rows[..k]) {
        var j :| 0 <= j < k && rows[..k][j].series.Some? && TypeName(rows[..k][j]) == name;
        assert rows[..k + 1][j] == rows[..k][j];
      }
      if name in Types(rows[..k + 1]) {
        var j :| 0 <= j < k + 1 && rows[..k + 1][j].series.Some? && TypeName(rows[..k + 1][j]) == name;
        assert j < k ==> rows[..k][j] == rows[..k + 1][j];
      }
      assert rows[..k + 1][k] == rows[k];
    }
  }

  lemma {:induction false} CellOfStranger(all: seq<Sample>, name: string, b: int, step: int)
    requires step > 0 && forall k :: 0 <= k < |all| ==> !InCell(all[k], name, b, step)
    ensures Cell(all, name, b, step) == []
  {
    if all != [] {
      CellOfStranger(all[..|all| - 1], name, b, step);
    }
  }

  lemma NewType(data: Data, all: seq<Sample>, name: string, step: int)
    requires step > 0 && name !in data && Gathered(data, all, step)
    ensures Gathered(data[name := map[]], all, step)
  {
    forall b ensures Cell(all, name, b, step) == [] {
      CellOfStranger(all, name, b, step);
    }
  }

  lemma CellNext(all: seq<Sample>, s: Sample, name: string, b: int, step: int)
    requires step > 0
    ensures Cell(all + [s], name, b, step)
            == Cell(all, name, b, step) + if InCell(s, name, b, step) then [s.p.v] else []
  {
    assert (all + [s])[..|all|] == all;
  }

  lemma SumNext(vs: seq<real>, v: real)
    ensures Sum(vs + [v]) == Sum(vs) + v
  {
    assert (vs + [v])[..|vs|] == vs;
  }

  function AddTo(bk: map<int, Acc>, b: int, v: real): map<int, Acc> {
    var a := if b in bk then bk[b] else Acc(0.0, 0);
    bk[b := Acc(a.sum + v, a.n + 1)]
  }

  lemma CellStep(bk: map<int, Acc>, b: int, v: real, c: int, vs: seq<real>)
    requires CellIs(bk, c, vs)
    ensures CellIs(AddTo(bk, b, v), c, vs + if c == b then [v] else [])
  {
    assert vs + [] == vs;
    SumNext(vs, v);
    assert Sum([]) == 0.0;
  }

  lemma GatherOne(data: Data, all: seq<Sample>, name: string, p: Point, step: int)
    requires step > 0 && name in data && Gathered(data, all, step)
    ensures Gathered(data[name := AddTo(data[name], Bucket(p.t, step), p.v)], all + [Sample(name, p)], step)
  {
    hide AddTo, Cell, CellIs, Bucket;
    var b := Bucket(p.t, step);
    var next := data[name := AddTo(data[name], b, p.v)];
    forall n, c | n in next ensures CellIs(next[n], c, Cell(all + [Sample(name, p)], n, c, step)) {
      CellNext(all, Sample(name, p), n, c, step);
      if n == name {
        CellStep(data[n], b, p.v, c, Cell(all, n, c, step));
      } else {
        assert Cell(all, n, c, step) + [] == Cell(all, n, c, step);
      }
    }
    forall k | 0 <= k <= |all| ensures (all + [Sample(name, p)])[k].shipType in next {
      assert k < |all| ==> (all + [Sample(name, p)])[k] == all[k];
    }
  }

  /** Rounding goes toward zero. */
  lemma TowardZero(t: int, step: int)
    requires step > 0
    ensures 0 <= t ==> 0 <= Bucket(t, step) <= t
    ensures t <= 0 ==> t <= Bucket(t, step) <= 0
  {
    Quotient(if 0 <= t then t else -t, step);
  }

  lemma Quotient(n: nat, step: int)
    requires step > 0
    ensures n % step <= n
  {
    assert n == step * (n / step) + n % step;
    Spread(step, n / step);
  }

  lemma HoldsMore(all: seq<Sample>, s: Sample, b: int, step: int)
    requires step > 0
    ensures Holds(all + [s], b, step) <==> Holds(all, b, step) || b == Bucket(s.p.t, step)
  {
    assert (all + [s])[|all|] == s;
    if Holds(all, b, step) {
      var k :| 0 <= k < |all| && Bucket(all[k].p.t, step) == b;
      assert (all + [s])[k] == all[k];
    }
  }

  lemma BoundOne(all: seq<Sample>, tmin: int, tmax: int, s: Sample, step: int)
    requires step > 0 && Bounds(all, tmin, tmax, step) && PointDated(s.p)
    ensures var b := Bucket(s.p.t, step);
            Bounds(all + [s], if b < tmin then b else tmin, if b > tmax then b else tmax, step)
  {
    TowardZero(s.p.t, step);
    HoldsMore(all, s, tmin, step);
    HoldsMore(all, s, tmax, step);
    HoldsMore(all, s, Bucket(s.p.t, step), step);
    hide Bucket, Holds;
  }

  // Laying out.

  lemma BucketOnGrid(t: int, step: int)
    requires step > 0
    ensures Bucket(t, step) % step == 0
  {}

  /** A multiple of the step between the ends is one of the buckets. */
  lemma OnGrid(buckets: seq<int>, b: int, step: int)
    requires step > 0 && buckets != [] && Spaced(buckets, step)
    requires b % step == 0 && buckets[0] % step == 0 && buckets[0] <= b <= buckets[|buckets| - 1]
    ensures b in buckets
  {
    var i := b / step - buckets[0] / step;
    assert b == buckets[0] + i * step;
    Spread(step, i);
    Spread(step, i - (|buckets| - 1));
    assert buckets[i] == b;
  }

  lemma SpacedDistinct(buckets: seq<int>, step: int, i: nat, j: nat)
    requires step > 0 && Spaced(buckets, step) && i < |buckets| && j < |buckets| && buckets[i] == buckets[j]
    ensures i == j
  {
    assert (i - j) * step == 0;
    Spread(step, i - j);
  }

  method Grid(tmin: int, tmax: int, step: int) returns (buckets: seq<int>)
    requires step > 0 && tmin <= tmax && tmin % step == 0 && tmax % step == 0
    ensures buckets != [] && Spaced(buckets, step) && buckets[0] == tmin && buckets[|buckets| - 1] == tmax
  {
    hide Spaced, Continues;
    buckets := [];
    var b := tmin;
    NothingSpaced(tmin, step);
    while b <= tmax
      invariant Continues(buckets, tmin, b, step) && b % step == 0 && tmin <= b && b - step <= tmax
      decreases tmax - b
    {
      NextBucket(buckets, tmin, b, step);
      NextMultiple(b, step);
      buckets := buckets + [b];
      b := b + step;
    }
    LastBucket(b, tmax, step);
    AllSpaced(buckets, tmin, b, step);
  }

  /** The buckets so far start at tmin and b is where the next one is. */
  ghost predicate Continues(buckets: seq<int>, tmin: int, b: int, step: int)
    requires step > 0
  {
    b == tmin + |buckets| * step && Spaced(buckets, step) && (buckets != [] ==> buckets[0] == tmin)
  }

  lemma NothingSpaced(tmin: int, step: int)
    requires step > 0
    ensures Continues([], tmin, tmin, step)
  {}

  lemma NextBucket(buckets: seq<int>, tmin: int, b: int, step: int)
    requires step > 0 && Continues(buckets, tmin, b, step)
    ensures Continues(buckets + [b], tmin, b + step, step)
  {
    assert (|buckets| + 1) * step == |buckets| * step + step;
  }

  lemma AllSpaced(buckets: seq<int>, tmin: int, b: int, step: int)
    requires step > 0 && Continues(buckets, tmin, b, step) && tmin < b
    ensures buckets != [] && Spaced(buckets, step) && buckets[0] == tmin && buckets[|buckets| - 1] == b - step
  {
    var n := |buckets|;
    assert (n - 1) * step == n * step - step;
  }

  lemma LastBucket(b: int, tmax: int, step: int)
    requires step > 0 && b % step == 0 && tmax % step == 0 && b - step <= tmax < b
    ensures b - step == tmax
  {
    NextMultiple(tmax, step);
    CloseMultiples(tmax + step, b, step);
  }

  method Index(buckets: seq<int>, step: int) returns (idx: map<int, nat>)
    requires step > 0 && Spaced(buckets, step)
    ensures forall i :: 0 <= i < |buckets| ==> buckets[i] in idx && idx[buckets[i]] == i
  {
    idx := map[];
    for i := 0 to |buckets|
      invariant forall j :: 0 <= j < i ==> buckets[j] in idx && idx[buckets[j]] == j
    {
      forall j | 0 <= j < i ensures buckets[j] != buckets[i] {
        if buckets[j] == buckets[i] {
          SpacedDistinct(buckets, step, i, j);
        }
      }
      idx := idx[buckets[i] := i];
    }
  }

  /** One type's averages, its accumulators visited in any order. A bucket that the
      index lacked would land in the first place; none does. */
  method FillRow(bk: map<int, Acc>, buckets: seq<int>, idx: map<int, nat>) returns (row: array<Option<real>>)
    requires forall i :: 0 <= i < |buckets| ==> buckets[i] in idx && idx[buckets[i]] == i
    requires forall b :: b in bk ==> b in buckets
    ensures fresh(row) && row.Length == |buckets|
    ensures forall i :: 0 <= i < |buckets| ==> row[i] == Average(bk, buckets[i])
  {
    row := new Option<real>[|buckets|](_ => None);
    var todo := bk.Keys;
    while todo != {}
      invariant todo <= bk.Keys
      invariant forall i :: 0 <= i < |buckets| ==>
                  row[i] == if buckets[i] in todo then None else Average(bk, buckets[i])
      decreases |todo|
    {
      Inhabited(todo);
      var b :| b in todo;
      assert exists i :: 0 <= i < |buckets| && buckets[i] == b;
      var at := if b in idx then idx[b] else 0;
      assert at < |buckets| && buckets[at] == b;
      if bk[b].n > 0 {
        row[at] := Some(bk[b].sum / bk[b].n as real);
      }
      todo := todo - {b};
    }
  }

  lemma Inhabited(s: set<int>)
    requires s != {}
    ensures exists b :: b in s
  {
    assert !(forall b: int :: b !in s) by {
      assert (forall b: int :: b !in s) ==> s == {};
    }
  }

  function Average(bk: map<int, Acc>, b: int): Option<real> {
    if b in bk && bk[b].n > 0 then Some(bk[b].sum / bk[b].n as real) else None
  }

  lemma AverageIsMean(bk: map<int, Acc>, b: int, vs: seq<real>)
    requires CellIs(bk, b, vs)
    ensures Average(bk, b) == Mean(vs)
  {}

  lemma {:induction false} CellFrom(all: seq<Sample>, name: string, b: int, step: int)
    requires step > 0 && Cell(all, name, b, step) != []
    ensures Holds(all, b, step)
  {
    var n := |all| - 1;
    assert all == all[..n] + [all[n]];
    HoldsMore(all[..n], all[n], b, step);
    if !InCell(all[n], name, b, step) {
      CellFrom(all[..n], name, b, step);
    }
  }

  /** The accumulators' keys lie on the grid. */
  lemma KeysOnGrid(data: Data, all: seq<Sample>, buckets: seq<int>, step: int)
    requires step > 0 && Gathered(data, all, step)
    requires buckets != [] && Spaced(buckets, step) && buckets[0] % step == 0
    requires Covers(all, buckets[0], buckets[|buckets| - 1], step)
    ensures forall name, b :: name in data && b in data[name] ==> b in buckets
  {
    forall name, b | name in data && b in data[name] ensures b in buckets {
      assert CellIs(data[name], b, Cell(all, name, b, step));
      CellFrom(all, name, b, step);
      var k :| 0 <= k < |all| && Bucket(all[k].p.t, step) == b;
      BucketOnGrid(all[k].p.t, step);
      hide Bucket;
      OnGrid(buckets, b, step);
    }
  }

  /** The whole handler after the query; the parameter is the requested step, if it
      is a number. */
  method Timeseries(rows: seq<Row>, param: Option<int>) returns (r: Layout)
    requires Dated(rows)
    ensures LaidOut(rows, StepSeconds(param), r)
    ensures param.Some? && param.value >= 60 ==> Answers(rows, param.value, r)
    ensures param.None? || param.value < 60 ==> Answers(rows, 600, r)
  {
    hide LaidOut, Answers, Dated;
    r := LayOut(rows, StepSeconds(param));
    LaidOutAnswers(rows, StepSeconds(param), r);
  }

  method LayOut(rows: seq<Row>, step: int) returns (r: Layout)
    requires step > 0 && Dated(rows)
    ensures LaidOut(rows, step, r)
  {
    hide All, Gathered, Holds, Types, Bucket, Cell, Mean;
    var data, tmin, tmax := Gather(rows, step);
    ghost var all := All(rows);
    NoSamples(all, tmin, tmax, step);
    if tmax < tmin {
      return Layout([], map[]);
    }
    HeldIsMultiple(all, tmin, step);
    HeldIsMultiple(all, tmax, step);
    var buckets := Grid(tmin, tmax, step);
    var idx := Index(buckets, step);
    KeysOnGrid(data, all, buckets, step);
    var series: map<string, seq<Option<real>>> := map[];
    var todo := data.Keys;
    while todo != {}
      invariant todo <= data.Keys && series.Keys == data.Keys - todo
      invariant forall name :: name in series ==> Averages(series[name], all, name, buckets, step)
      decreases |todo|
    {
      var name :| name in todo;
      var row := FillRow(data[name], buckets, idx);
      RowAverages(data, all, name, row[..], buckets, step);
      series := series[name := row[..]];
      todo := todo - {name};
    }
    r := Layout(buckets, series);
  }

  lemma NoSamples(all: seq<Sample>, tmin: int, tmax: int, step: int)
    requires step > 0 && Bounds(all, tmin, tmax, step)
    ensures tmax < tmin <==> all == []
  {
    if all != [] {
      var k :| 0 <= k < |all| && Bucket(all[k].p.t, step) == tmin;
    }
  }

  lemma HeldIsMultiple(all: seq<Sample>, b: int, step: int)
    requires step > 0 && Holds(all, b, step)
    ensures b % step == 0
  {
    var k :| 0 <= k < |all| && Bucket(all[k].p.t, step) == b;
    BucketOnGrid(all[k].p.t, step);
  }

  lemma RowAverages(data: Data, all: seq<Sample>, name: string, row: seq<Option<real>>, buckets: seq<int>, step: int)
    requires step > 0 && Gathered(data, all, step) && name in data && |row| == |buckets|
    requires forall i :: 0 <= i < |row| ==> row[i] == Average(data[name], buckets[i])
    ensures Averages(row, all, name, buckets, step)
  {
    forall i | 0 <= i < |row| ensures row[i] == Mean(Cell(all, name, buckets[i], step)) {
      AverageIsMean(data[name], buckets[i], Cell(all, name, buckets[i], step));
    }
  }
}
