/** What a client gets that follows the next links of a collection, one request
    after the other, while the table may change in between. */
module PagingWalk {
  import opened Decimal
  import opened Multiples
  import opened Wrappers
  import opened Paging

  /** The pages served on the successive states of the table, from the filter of
      the first request; the links carry the filter on, past the last id. */
  function Walk(tables: seq<seq<Row>>, f: Filter, srid: int, limit: int): seq<seq<int>>
    requires tables != [] && limit >= 1
  {
    var ids := Page(tables[0], f, srid, limit);
    if |ids| == limit && |tables| > 1 then [ids] + Walk(tables[1..], After(f, ids[|ids| - 1]), srid, limit)
    else [ids]
  }

  function After(f: Filter, id: int): Filter {
    f.(after := Some(id))
  }

  function Concat(pages: seq<seq<int>>): seq<int> {
    if pages == [] then [] else pages[0] + Concat(pages[1..])
  }

  predicate Continues(tables: seq<seq<Row>>, f: Filter, srid: int, limit: int)
    requires tables != [] && limit >= 1
  {
    |Page(tables[0], f, srid, limit)| == limit && |tables| > 1
  }

  lemma WalkOn(tables: seq<seq<Row>>, f: Filter, srid: int, limit: int)
    requires tables != [] && limit >= 1 && Continues(tables, f, srid, limit)
    ensures var ids := Page(tables[0], f, srid, limit);
            var pages := Walk(tables, f, srid, limit);
            var rest := Walk(tables[1..], After(f, ids[|ids| - 1]), srid, limit);
            && Concat(pages) == ids + Concat(rest) && |pages| == |rest| + 1
            && rest != [] && pages[|pages| - 1] == rest[|rest| - 1]
  {
    var ids := Page(tables[0], f, srid, limit);
    var rest := Walk(tables[1..], After(f, ids[|ids| - 1]), srid, limit);
    assert ([ids] + rest)[1..] == rest;
  }

  lemma WalkEnds(tables: seq<seq<Row>>, f: Filter, srid: int, limit: int)
    requires tables != [] && limit >= 1 && !Continues(tables, f, srid, limit)
    ensures Walk(tables, f, srid, limit) == [Page(tables[0], f, srid, limit)]
    ensures Concat(Walk(tables, f, srid, limit)) == Page(tables[0], f, srid, limit)
  {
    var ids := Page(tables[0], f, srid, limit);
    assert [ids][1..] == [] && Concat([]) == [];
  }

  // The links.

  ghost predicate Representable(t: seq<Row>) {
    forall k :: 0 <= k < |t| ==> MIN_INT64 <= t[k].id <= MAX_INT64
  }

  /** The next link asks for what the request asked for, past the last id, at the
      same limit. */
  lemma LinkCarriesOn(q: Query, lastID: int, limit: int, env: Setting)
    requires Usable(env) && Decode(q, env).Success? && limit == Limit(q, env)
    requires MIN_INT64 <= lastID <= MAX_INT64
    ensures var next := NextQuery(q, lastID, limit);
            Decode(next, env) == Success(After(Decode(q, env).value, lastID)) && Limit(next, env) == limit
  {
    ParseItoa(lastID);
    ParseItoa(limit);
    NextParameters(q, lastID, limit);
    hide ParseInt, Itoa, Accepts, NextQuery, First;
  }

  lemma NextParameters(q: Query, lastID: int, limit: int)
    ensures var next := NextQuery(q, lastID, limit);
            && First(next, "after") == Itoa(lastID) != "" && First(next, "limit") == Itoa(limit) != ""
            && First(next, "bbox") == First(q, "bbox") && First(next, "datetime") == First(q, "datetime")
            && Subtrajectory(next) == Subtrajectory(q)
  {}

  lemma WalkStep(tables: seq<seq<Row>>, f: Filter, srid: int, limit: int)
    requires tables != [] && limit >= 1
    ensures var ids := Page(tables[0], f, srid, limit);
            Walk(tables, f, srid, limit) ==
              if |ids| == limit && |tables| > 1 then [ids] + Walk(tables[1..], After(f, ids[|ids| - 1]), srid, limit)
              else [ids]
  {}

  /** A client that requests a page and then whatever the link says. */
  method FollowLinks(tables: seq<seq<Row>>, q: Query, env: Setting) returns (pages: seq<seq<int>>, finished: bool)
    requires tables != [] && Usable(env) && Decode(q, env).Success?
    requires forall i :: 0 <= i < |tables| ==> Representable(tables[i])
    ensures pages == Walk(tables, Decode(q, env).value, env.srid, Limit(q, env))
    ensures finished <==> |pages[|pages| - 1]| < Limit(q, env)
    decreases |tables|
  {
    LimitIsPositive(q, env);
    hide *;
    WalkStep(tables, Decode(q, env).value, env.srid, Limit(q, env));
    var ids, next, err := StreamItems(tables[0], q, env);
    PageIsRepresentable(tables[0], Decode(q, env).value, env.srid, Limit(q, env));
    pages := [ids];
    finished := next.None?;
    if next.Some? && |tables| > 1 {
      LinkCarriesOn(q, ids[|ids| - 1], Limit(q, env), env);
      var rest;
      rest, finished := FollowLinks(tables[1..], next.value, env);
      pages := pages + rest;
    }
  }

  lemma PageIsRepresentable(t: seq<Row>, f: Filter, srid: int, limit: int)
    requires Representable(t)
    ensures |Page(t, f, srid, limit)| <= (if limit < 0 then 0 else limit)
    ensures forall k :: 0 <= k < |Page(t, f, srid, limit)| ==>
              MIN_INT64 <= Page(t, f, srid, limit)[k] <= MAX_INT64
  {
    MatchingIsPart(t, f, srid);
    var m := Take(Matching(t, f, srid), limit);
    ReadIdsAre(m);
    forall k | 0 <= k < |ReadIds(m)| ensures MIN_INT64 <= ReadIds(m)[k] <= MAX_INT64 {
      assert ReadIds(m)[k] == Matching(t, f, srid)[k].id;
    }
  }

  lemma {:induction false} MatchingIsPart(t: seq<Row>, f: Filter, srid: int)
    ensures forall k :: 0 <= k < |Matching(t, f, srid)| ==>
              Matching(t, f, srid)[k] in t && Accepts(f, srid, Matching(t, f, srid)[k])
    ensures forall r :: r in t && Accepts(f, srid, r) ==> r in Matching(t, f, srid)
  {
    if t != [] {
      MatchingIsPart(t[..|t| - 1], f, srid);
      assert t == t[..|t| - 1] + [t[|t| - 1]];
    }
  }

  // Order of the rows.

  lemma {:induction false} MatchingOrdered(t: seq<Row>, f: Filter, srid: int)
    requires Ordered(t)
    ensures Ordered(Matching(t, f, srid))
  {
    if t != [] {
      var front := t[..|t| - 1];
      MatchingOrdered(front, f, srid);
      MatchingIsPart(front, f, srid);
      forall k | 0 <= k < |Matching(front, f, srid)| ensures Matching(front, f, srid)[k].id < t[|t| - 1].id {
        var i :| 0 <= i < |front| && front[i] == Matching(front, f, srid)[k];
      }
    }
  }

  lemma AcceptsAfter(f: Filter, srid: int, row: Row, id: int)
    requires id < row.id && (f.after.Some? ==> f.after.value < id)
    ensures Accepts(After(f, id), srid, row) <==> Accepts(f, srid, row)
  {}

  lemma MatchedBefore(t: seq<Row>, f: Filter, srid: int, k: nat)
    requires t != [] && Ordered(t) && k < |Matching(t[..|t| - 1], f, srid)|
    ensures var row := Matching(t[..|t| - 1], f, srid)[k];
            row.id < t[|t| - 1].id && (f.after.Some? ==> f.after.value < row.id)
  {
    var front := t[..|t| - 1];
    MatchingIsPart(front, f, srid);
    var j :| 0 <= j < |front| && front[j] == Matching(front, f, srid)[k];
  }

  /** The request after the k-th matching row gets the rows from there on. */
  lemma {:induction false} MatchingAfter(t: seq<Row>, f: Filter, srid: int, k: nat)
    requires Ordered(t) && 0 < k <= |Matching(t, f, srid)|
    ensures Matching(t, After(f, Matching(t, f, srid)[k - 1].id), srid) == Matching(t, f, srid)[k..]
  {
    var front, last := t[..|t| - 1], t[|t| - 1];
    var m := Matching(front, f, srid);
    if k <= |m| {
      hide Accepts, Ordered;
      assert Ordered(front) by {
        FrontIsOrdered(t);
      }
      MatchingAfter(front, f, srid, k);
      MatchedBefore(t, f, srid, k - 1);
      AcceptsAfter(f, srid, last, m[k - 1].id);
      assert Matching(t, f, srid)[k - 1] == m[k - 1];
    } else {
      assert forall i :: 0 <= i < |t| ==> t[i].id <= last.id;
      hide Accepts, Ordered;
      assert Matching(t, f, srid)[k - 1] == last;
      NoneAfter(t, After(f, last.id), srid);
    }
  }

  lemma FrontIsOrdered(t: seq<Row>)
    requires t != [] && Ordered(t)
    ensures Ordered(t[..|t| - 1])
  {}

  lemma {:induction false} NoneAfter(t: seq<Row>, g: Filter, srid: int)
    requires g.after.Some? && forall i :: 0 <= i < |t| ==> t[i].id <= g.after.value
    ensures Matching(t, g, srid) == []
  {
    if t != [] {
      NoneAfter(t[..|t| - 1], g, srid);
    }
  }

  ghost predicate Increasing(ids: seq<int>) {
    forall i, j :: 0 <= i < j < |ids| ==> ids[i] < ids[j]
  }

  ghost predicate AllAfter(ids: seq<int>, f: Filter) {
    f.after.Some? ==> forall k :: 0 <= k < |ids| ==> f.after.value < ids[k]
  }

  lemma PageIncreasing(t: seq<Row>, f: Filter, srid: int, limit: int)
    requires Ordered(t)
    ensures Increasing(Page(t, f, srid, limit)) && AllAfter(Page(t, f, srid, limit), f)
  {
    var m := Matching(t, f, srid);
    MatchingOrdered(t, f, srid);
    MatchingIsPart(t, f, srid);
    ReadIdsAre(Take(m, limit));
    var ids := Page(t, f, srid, limit);
    assert forall k :: 0 <= k < |ids| ==> ids[k] == m[k].id;
  }

  lemma IncreasingJoin(a: seq<int>, b: seq<int>, f: Filter)
    requires a != [] && Increasing(a) && AllAfter(a, f)
    requires Increasing(b) && AllAfter(b, After(f, a[|a| - 1]))
    ensures Increasing(a + b) && AllAfter(a + b, f)
  {
    forall k | 0 <= k < |a| ensures a[k] <= a[|a| - 1] {}
  }

  /** Whatever happens to the table between the requests, following the links never
      goes back: ids increase throughout, so none is returned twice. */
  lemma {:induction false} NeverTwice(tables: seq<seq<Row>>, f: Filter, srid: int, limit: int)
    requires tables != [] && limit >= 1 && forall i :: 0 <= i < |tables| ==> Ordered(tables[i])
    ensures var ids := Concat(Walk(tables, f, srid, limit)); Increasing(ids) && AllAfter(ids, f)
    decreases |tables|
  {
    var ids := Page(tables[0], f, srid, limit);
    PageIncreasing(tables[0], f, srid, limit);
    if Continues(tables, f, srid, limit) {
      var g := After(f, ids[|ids| - 1]);
      NeverTwice(tables[1..], g, srid, limit);
      WalkOn(tables, f, srid, limit);
      IncreasingJoin(ids, Concat(Walk(tables[1..], g, srid, limit)), f);
      hide Walk, Concat, Page, Increasing, AllAfter;
    } else {
      WalkEnds(tables, f, srid, limit);
    }
  }

  /** The table holds, in this state, a row of this id that the filter accepts. */
  ghost predicate Present(t: seq<Row>, f: Filter, srid: int, id: int) {
    exists k :: 0 <= k < |t| && t[k].id == id && Accepts(f, srid, t[k])
  }

  ghost predicate AllScan(t: seq<Row>) {
    forall k :: 0 <= k < |t| ==> t[k].scans
  }

  ghost predicate Finished(pages: seq<seq<int>>, limit: int) {
    pages != [] && |pages[|pages| - 1]| < limit
  }

  lemma PresentIsMatching(t: seq<Row>, f: Filter, srid: int, id: int)
    requires Present(t, f, srid, id)
    ensures exists k :: 0 <= k < |Matching(t, f, srid)| && Matching(t, f, srid)[k].id == id
  {
    MatchingIsPart(t, f, srid);
    var k :| 0 <= k < |t| && t[k].id == id && Accepts(f, srid, t[k]);
    assert t[k] in t;
  }

  /** A present row is on the page, or the page is full and the row comes after. */
  lemma OnPageOrLater(t: seq<Row>, f: Filter, srid: int, limit: int, id: int)
    requires Ordered(t) && AllScan(t) && limit >= 1 && Present(t, f, srid, id)
    ensures var ids := Page(t, f, srid, limit); id in ids || (|ids| == limit && ids[limit - 1] < id)
  {
    var m := Matching(t, f, srid);
    PresentIsMatching(t, f, srid, id);
    MatchingOrdered(t, f, srid);
    MatchingIsPart(t, f, srid);
    var k :| 0 <= k < |m| && m[k].id == id;
    var rows := Take(m, limit);
    ReadIdsAre(rows);
    assert forall j :: 0 <= j < |rows| ==> rows[j] == m[j] && m[j] in t;
    assert |ReadIds(rows)| == |rows|;
    if k < |rows| {
      assert ReadIds(rows)[k] == id;
    }
  }

  lemma PresentLater(t: seq<Row>, f: Filter, srid: int, id: int, last: int)
    requires Present(t, f, srid, id) && last < id
    ensures Present(t, After(f, last), srid, id)
  {
    var k :| 0 <= k < |t| && t[k].id == id && Accepts(f, srid, t[k]);
    assert Accepts(After(f, last), srid, t[k]);
  }

  /** A feature present and matching in every state the requests saw is returned,
      once the links have been followed to the end, whatever was inserted, changed
      or deleted around it. */
  lemma {:induction false} NeverMissed(tables: seq<seq<Row>>, f: Filter, srid: int, limit: int, id: int)
    requires tables != [] && limit >= 1
    requires forall i :: 0 <= i < |tables| ==>
               Ordered(tables[i]) && AllScan(tables[i]) && Present(tables[i], f, srid, id)
    requires Finished(Walk(tables, f, srid, limit), limit)
    ensures id in Concat(Walk(tables, f, srid, limit))
    decreases |tables|
  {
    var ids := Page(tables[0], f, srid, limit);
    OnPageOrLater(tables[0], f, srid, limit, id);
    hide Walk, Concat, Page;
    if Continues(tables, f, srid, limit) {
      var g := After(f, ids[|ids| - 1]);
      WalkOn(tables, f, srid, limit);
      if id !in ids {
        forall i | 0 <= i < |tables[1..]|
          ensures Ordered(tables[1..][i]) && AllScan(tables[1..][i]) && Present(tables[1..][i], g, srid, id)
        {
          PresentLater(tables[i + 1], f, srid, id, ids[|ids| - 1]);
        }
        NeverMissed(tables[1..], g, srid, limit, id);
      }
    } else {
      WalkEnds(tables, f, srid, limit);
    }
  }

  // A table that does not change.

  lemma {:induction false} ReadIdsSplit(rows: seq<Row>, k: nat)
    requires k <= |rows|
    ensures |ReadIds(rows[..k])| == k ==> ReadIds(rows) == ReadIds(rows[..k]) + ReadIds(rows[k..])
    ensures |ReadIds(rows[..k])| < k ==> ReadIds(rows) == ReadIds(rows[..k])
    decreases k
  {
    if k == 0 {
      assert rows[0..] == rows;
    } else if rows[0].scans {
      ReadIdsSplit(rows[1..], k - 1);
      assert rows[..k][1..] == rows[1..][..k - 1];
      assert rows[1..][k - 1..] == rows[k..];
    }
  }

  /** On a table that stays as it is, enough requests return the matching rows, in
      order, up to the first that cannot be read back. */
  lemma {:induction false} FixedTable(tables: seq<seq<Row>>, t: seq<Row>, f: Filter, srid: int, limit: int)
    requires limit >= 1 && Ordered(t) && |tables| > |Matching(t, f, srid)| / limit
    requires forall i :: 0 <= i < |tables| ==> tables[i] == t
    ensures Concat(Walk(tables, f, srid, limit)) == ReadIds(Matching(t, f, srid))
    ensures Finished(Walk(tables, f, srid, limit), limit)
    ensures |ReadIds(Matching(t, f, srid))| == |Matching(t, f, srid)| ==>
              |Walk(tables, f, srid, limit)| == |Matching(t, f, srid)| / limit + 1
    decreases |tables|
  {
    hide Walk, Concat, Page, Matching, ReadIds, Ordered;
    var m := Matching(t, f, srid);
    var ids := Page(t, f, srid, limit);
    assert tables[0] == t;
    PageIsSlice(t, f, srid, limit);
    if |ids| == limit {
      SplitCounts(m, limit);
      MatchingAfter(t, f, srid, limit);
      QuotientDown(|m|, limit);
      FixedTable(tables[1..], t, After(f, ids[limit - 1]), srid, limit);
      WalkOn(tables, f, srid, limit);
    } else {
      WalkEnds(tables, f, srid, limit);
      ShortQuotient(|m|, limit);
    }
  }

  /** When the first `limit` rows can all be read back, so much for them. */
  lemma SplitCounts(m: seq<Row>, limit: nat)
    requires 1 <= limit <= |m| && |ReadIds(m[..limit])| == limit
    ensures ReadIds(m) == ReadIds(m[..limit]) + ReadIds(m[limit..])
    ensures ReadIds(m[..limit])[limit - 1] == m[limit - 1].id
  {
    ReadIdsSplit(m, limit);
    ReadIdsAre(m[..limit]);
  }

  lemma PageIsSlice(t: seq<Row>, f: Filter, srid: int, limit: int)
    requires limit >= 1
    ensures var m := Matching(t, f, srid);
            var ids := Page(t, f, srid, limit);
            && |ids| <= limit
            && (|ids| == limit ==> limit <= |m| && ids == ReadIds(m[..limit]))
            && (|ids| < limit ==> ids == ReadIds(m))
            && (|ids| < limit && |ReadIds(m)| == |m| ==> |m| < limit)
  {
    var m := Matching(t, f, srid);
    ReadIdsAre(Take(m, limit));
    if limit <= |m| {
      assert Take(m, limit) == m[..limit];
      ReadIdsSplit(m, limit);
    }
  }

  lemma QuotientDown(n: nat, limit: int)
    requires 1 <= limit <= n
    ensures n / limit == (n - limit) / limit + 1
  {
    assert n == limit * (n / limit) + n % limit;
    assert n - limit == limit * (n / limit - 1) + n % limit;
    DivModUnique(n - limit, limit, n / limit - 1, n % limit);
  }

  lemma ShortQuotient(n: nat, limit: int)
    requires limit >= 1
    ensures n < limit ==> n / limit == 0
  {
    if n < limit {
      SmallMod(n, limit);
    }
  }

  /** The pages make up all the matching rows exactly when every one of them can be
      read back: a row that cannot ends its page early, and a short page has no
      link to what follows. */
  lemma CompleteIffAllScan(tables: seq<seq<Row>>, t: seq<Row>, f: Filter, srid: int, limit: int)
    requires limit >= 1 && Ordered(t) && |tables| > |Matching(t, f, srid)| / limit
    requires forall i :: 0 <= i < |tables| ==> tables[i] == t
    ensures var m := Matching(t, f, srid);
            Concat(Walk(tables, f, srid, limit)) == seq(|m|, k requires 0 <= k < |m| => m[k].id) <==> AllScan(m)
  {
    var m := Matching(t, f, srid);
    FixedTable(tables, t, f, srid, limit);
    ReadIdsAre(m);
  }
}
