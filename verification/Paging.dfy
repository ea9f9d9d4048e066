/** Keyset paging over a collection: the filter clause with its bound arguments,
    the page a request gets, and what following the next links returns. */
module Paging {
  import opened Decimal
  import opened Wrappers

  datatype Box = Box(minx: real, miny: real, maxx: real, maxy: real)
  datatype Interval = Interval(start: string, end: string)

  /** One row as the filters see it: whether its trip crosses a box in some
      reference system, overlaps an interval, has values inside it, and whether the
      row can be read back. */
  datatype Row = Row(
    id: int, crosses: (Box, int) -> bool, overlaps: Interval -> bool, clips: Interval -> bool, scans: bool)

  /** How the tier is configured, and how it reads a box or an interval from text,
      where it can. */
  datatype Setting = Setting(
    box: string -> Option<Box>, interval: string -> Option<Interval>, srid: int, defaultLimit: int, maxLimit: int)

  type Query = map<string, seq<string>>

  function First(q: Query, key: string): string {
    if key in q && q[key] != [] then q[key][0] else ""
  }

  function Set(q: Query, key: string, value: string): Query {
    q[key := [value]]
  }

  // The filter clause.

  /** What a request asks for. */
  datatype Filter = Filter(after: Option<int>, box: Option<Box>, span: Option<Interval>, clip: bool)

  predicate Accepts(f: Filter, srid: int, row: Row) {
    && (f.after.Some? ==> row.id > f.after.value)
    && (f.box.Some? ==> row.crosses(f.box.value, srid))
    && (f.span.Some? ==> row.overlaps(f.span.value) && (f.clip ==> row.clips(f.span.value)))
  }

  datatype FilterError = BadAfter | BadBbox | SubtrajectoryNeedsInterval | BadDatetime

  function Subtrajectory(q: Query): string {
    if First(q, "subtrajectory") == "" then First(q, "subTrajectory") else First(q, "subtrajectory")
  }

  /** A parameter's value: none if the parameter is empty. */
  function Read<T>(text: string, read: string -> Option<T>): Option<T> {
    if text == "" then None else read(text)
  }

  predicate Unreadable<T>(text: string, read: string -> Option<T>) {
    text != "" && read(text).None?
  }

  /** The request's filter, or why it is refused; the checks come in this order. */
  function Decode(q: Query, env: Setting): Result<Filter, FilterError> {
    var dt := First(q, "datetime");
    var clip := Subtrajectory(q) == "true";
    if Unreadable(First(q, "after"), ParseInt) then Failure(BadAfter)
    else if Unreadable(First(q, "bbox"), env.box) then Failure(BadBbox)
    else if clip && dt == "" then Failure(SubtrajectoryNeedsInterval)
    else if Unreadable(dt, env.interval) then Failure(BadDatetime)
    else
      Success(Filter(Read(First(q, "after"), ParseInt), Read(First(q, "bbox"), env.box), Read(dt, env.interval), clip))
  }

  /** An argument bound to a placeholder. */
  datatype Arg = IntArg(i: int) | NumArg(r: real) | SpanArg(s: Interval)

  /** A condition of the WHERE clause; the numbers are placeholders, from 1. */
  datatype Cond =
    | IdAfter(p: nat)
    | CrossesBox(p0: nat, p1: nat, p2: nat, p3: nat, srid: nat)
    | OverlapsSpan(p: nat)
    | AtTimeNotNull(p: nat)

  /** The argument a placeholder names. */
  function Bound(args: seq<Arg>, p: nat): Option<Arg> {
    if 1 <= p <= |args| then Some(args[p - 1]) else None
  }

  /** Whether a row meets a condition under its arguments; a placeholder without an
      argument of the right kind makes the statement fail, and nothing passes. */
  predicate Holds(c: Cond, args: seq<Arg>, row: Row) {
    match c
    case IdAfter(p) =>
      (match Bound(args, p) case Some(IntArg(i)) => row.id > i case _ => false)
    case CrossesBox(p0, p1, p2, p3, srid) =>
      (match (Bound(args, p0), Bound(args, p1), Bound(args, p2), Bound(args, p3), Bound(args, srid))
       case (Some(NumArg(a)), Some(NumArg(b)), Some(NumArg(c)), Some(NumArg(d)), Some(IntArg(s))) =>
         row.crosses(Box(a, b, c, d), s)
       case _ => false)
    case OverlapsSpan(p) =>
      (match Bound(args, p) case Some(SpanArg(s)) => row.overlaps(s) case _ => false)
    case AtTimeNotNull(p) =>
      (match Bound(args, p) case Some(SpanArg(s)) => row.clips(s) case _ => false)
  }

  predicate AllHold(conds: seq<Cond>, args: seq<Arg>, row: Row) {
    forall k :: 0 <= k < |conds| ==> Holds(conds[k], args, row)
  }

  /** Read with the arguments they were numbered for, and whatever is bound after
      them, the conditions accept exactly the rows of the filter. */
  ghost predicate Encodes(conds: seq<Cond>, args: seq<Arg>, f: Filter, srid: int) {
    forall row, more :: AllHold(conds, args + more, row) <==> Accepts(f, srid, row)
  }

  const ANY := Filter(None, None, None, false)

  lemma AllHoldSnoc(conds: seq<Cond>, c: Cond, args: seq<Arg>, row: Row)
    ensures AllHold(conds + [c], args, row) <==> AllHold(conds, args, row) && Holds(c, args, row)
  {
    var all := conds + [c];
    assert all[|conds|] == c && forall k :: 0 <= k < |conds| ==> all[k] == conds[k];
  }

  /** A condition numbered from the arguments appended with it sees just those. */
  lemma Snoc(conds: seq<Cond>, args: seq<Arg>, f: Filter, srid: int, c: Cond, extra: seq<Arg>, g: Filter)
    requires Encodes(conds, args, f, srid)
    requires forall row, more :: Holds(c, args + extra + more, row) && Accepts(f, srid, row) <==> Accepts(g, srid, row)
    ensures Encodes(conds + [c], args + extra, g, srid)
  {
    forall row, more
      ensures AllHold(conds + [c], args + extra + more, row) <==> Accepts(g, srid, row)
    {
      AllHoldSnoc(conds, c, args + extra + more, row);
      assert args + extra + more == args + (extra + more);
    }
  }

  lemma EncodesAny(srid: int)
    ensures Encodes([], [], ANY, srid)
  {}

  /** Builds the conditions and arguments of a request, or refuses it. */
  method ItemFilters(q: Query, env: Setting) returns (conds: seq<Cond>, args: seq<Arg>, err: Option<FilterError>)
    ensures err == match Decode(q, env) case Success(_) => None case Failure(e) => Some(e)
    ensures err.None? ==> Encodes(conds, args, Decode(q, env).value, env.srid)
  {
    conds, args := [], [];
    ghost var f := ANY;
    EncodesAny(env.srid);
    hide Encodes, Accepts, Holds;
    var after := First(q, "after");
    if after != "" {
      var id := ParseInt(after);
      if id.None? {
        return conds, args, Some(BadAfter);
      }
      AddAfter(conds, args, f, env.srid, id.value);
      conds := conds + [IdAfter(|args| + 1)];
      args := args + [IntArg(id.value)];
      f := f.(after := id);
    }
    if First(q, "bbox") != "" {
      var box := env.box(First(q, "bbox"));
      if box.None? {
        return conds, args, Some(BadBbox);
      }
      var n := |args|;
      var b := box.value;
      AddBox(conds, args, f, env.srid, b);
      conds := conds + [CrossesBox(n + 1, n + 2, n + 3, n + 4, n + 5)];
      args := args + [NumArg(b.minx), NumArg(b.miny), NumArg(b.maxx), NumArg(b.maxy), IntArg(env.srid)];
      f := f.(box := box);
    }
    var sub := Subtrajectory(q);
    var dt := First(q, "datetime");
    if sub == "true" && dt == "" {
      return conds, args, Some(SubtrajectoryNeedsInterval);
    }
    if dt != "" {
      var span := env.interval(dt);
      if span.None? {
        return conds, args, Some(BadDatetime);
      }
      var n := |args|;
      AddSpan(conds, args, f, env.srid, span.value);
      conds := conds + [OverlapsSpan(n + 1)];
      args := args + [SpanArg(span.value)];
      f := f.(span := span);
      if sub == "true" {
        AddClip(conds, args, f, env.srid, n + 1);
        conds := conds + [AtTimeNotNull(n + 1)];
        f := f.(clip := true);
      }
    }
    return conds, args, None;
  }

  lemma AddAfter(conds: seq<Cond>, args: seq<Arg>, f: Filter, srid: int, id: int)
    requires Encodes(conds, args, f, srid) && f.after.None?
    ensures Encodes(conds + [IdAfter(|args| + 1)], args + [IntArg(id)], f.(after := Some(id)), srid)
  {
    hide Encodes;
    var c, extra, g := IdAfter(|args| + 1), [IntArg(id)], f.(after := Some(id));
    forall row, more
      ensures Holds(c, args + extra + more, row) && Accepts(f, srid, row) <==> Accepts(g, srid, row)
    {
      assert (args + extra + more)[|args|] == IntArg(id);
    }
    Snoc(conds, args, f, srid, c, extra, g);
  }

  lemma AddBox(conds: seq<Cond>, args: seq<Arg>, f: Filter, srid: int, b: Box)
    requires Encodes(conds, args, f, srid) && f.box.None?
    ensures var n := |args|;
            Encodes(conds + [CrossesBox(n + 1, n + 2, n + 3, n + 4, n + 5)],
                    args + [NumArg(b.minx), NumArg(b.miny), NumArg(b.maxx), NumArg(b.maxy), IntArg(srid)],
                    f.(box := Some(b)), srid)
  {
    hide Encodes;
    var n := |args|;
    var extra := [NumArg(b.minx), NumArg(b.miny), NumArg(b.maxx), NumArg(b.maxy), IntArg(srid)];
    var c, g := CrossesBox(n + 1, n + 2, n + 3, n + 4, n + 5), f.(box := Some(b));
    assert b == Box(b.minx, b.miny, b.maxx, b.maxy);
    forall row, more
      ensures Holds(c, args + extra + more, row) && Accepts(f, srid, row) <==> Accepts(g, srid, row)
    {
      var all := args + extra + more;
      assert all[n] == extra[0] && all[n + 1] == extra[1] && all[n + 2] == extra[2];
      assert all[n + 3] == extra[3] && all[n + 4] == extra[4];
    }
    Snoc(conds, args, f, srid, c, extra, g);
  }

  lemma AddSpan(conds: seq<Cond>, args: seq<Arg>, f: Filter, srid: int, s: Interval)
    requires Encodes(conds, args, f, srid) && f.span.None? && !f.clip
    ensures Encodes(conds + [OverlapsSpan(|args| + 1)], args + [SpanArg(s)], f.(span := Some(s)), srid)
    ensures |args + [SpanArg(s)]| >= 1 && Bound(args + [SpanArg(s)], |args| + 1) == Some(SpanArg(s))
  {
    hide Encodes;
    var c, extra, g := OverlapsSpan(|args| + 1), [SpanArg(s)], f.(span := Some(s));
    forall row, more
      ensures Holds(c, args + extra + more, row) && Accepts(f, srid, row) <==> Accepts(g, srid, row)
    {
      assert (args + extra + more)[|args|] == SpanArg(s);
    }
    Snoc(conds, args, f, srid, c, extra, g);
  }

  /** The clipping condition reuses the interval's placeholder. */
  lemma AddClip(conds: seq<Cond>, args: seq<Arg>, f: Filter, srid: int, p: nat)
    requires Encodes(conds, args, f, srid) && f.span.Some? && !f.clip
    requires Bound(args, p) == Some(SpanArg(f.span.value))
    ensures Encodes(conds + [AtTimeNotNull(p)], args, f.(clip := true), srid)
  {
    hide Encodes;
    var c, extra: seq<Arg>, g := AtTimeNotNull(p), [], f.(clip := true);
    forall row, more
      ensures Holds(c, args + extra + more, row) && Accepts(f, srid, row) <==> Accepts(g, srid, row)
    {
      assert (args + extra + more)[p - 1] == args[p - 1];
    }
    Snoc(conds, args, f, srid, c, extra, g);
    assert args + [] == args;
  }

  // One page.

  /** A collection's feature table in id order. */
  ghost predicate Ordered(t: seq<Row>) {
    forall i, j :: 0 <= i < j < |t| ==> t[i].id < t[j].id
  }

  /** The rows a filter accepts, in id order. */
  function Matching(t: seq<Row>, f: Filter, srid: int): seq<Row> {
    if t == [] then []
    else
      var m := Matching(t[..|t| - 1], f, srid);
      if Accepts(f, srid, t[|t| - 1]) then m + [t[|t| - 1]] else m
  }

  /** What the database answers: the rows for which every condition holds under the
      bound arguments, in id order, no more than the bound limit. */
  function Execute(t: seq<Row>, conds: seq<Cond>, args: seq<Arg>, limit: nat): seq<Row> {
    match Bound(args, limit)
    case Some(IntArg(n)) => Take(Where(t, conds, args), n)
    case _ => []
  }

  function Where(t: seq<Row>, conds: seq<Cond>, args: seq<Arg>): seq<Row> {
    if t == [] then []
    else
      var m := Where(t[..|t| - 1], conds, args);
      if AllHold(conds, args, t[|t| - 1]) then m + [t[|t| - 1]] else m
  }

  function Take(rows: seq<Row>, n: int): seq<Row> {
    if n <= 0 then [] else if n < |rows| then rows[..n] else rows
  }

  /** The ids of the rows up to the first that cannot be read back. */
  function ReadIds(rows: seq<Row>): seq<int> {
    if rows == [] || !rows[0].scans then [] else [rows[0].id] + ReadIds(rows[1..])
  }

  function Page(t: seq<Row>, f: Filter, srid: int, limit: int): seq<int> {
    ReadIds(Take(Matching(t, f, srid), limit))
  }

  ghost predicate Usable(env: Setting) {
    1 <= env.defaultLimit && 1 <= env.maxLimit <= MAX_INT64
  }

  function Limit(q: Query, env: Setting): int {
    var asked := match ParseInt(First(q, "limit")) case Some(n) => (if n > 0 then n else env.defaultLimit)
                                                   case None => env.defaultLimit;
    if asked > env.maxLimit then env.maxLimit else asked
  }

  /** The next link: the same request after the last id, at the limit in force. */
  function NextQuery(q: Query, lastID: int, limit: int): Query {
    Set(Set(q, "after", Itoa(lastID)), "limit", Itoa(limit))
  }

  lemma {:induction false} WhereIsMatching(t: seq<Row>, conds: seq<Cond>, args: seq<Arg>, more: seq<Arg>, f: Filter,
                                           srid: int)
    requires Encodes(conds, args, f, srid)
    ensures Where(t, conds, args + more) == Matching(t, f, srid)
  {
    hide AllHold, Accepts;
    if t != [] {
      WhereIsMatching(t[..|t| - 1], conds, args, more, f, srid);
    }
  }

  lemma ReadIdsFrom(rows: seq<Row>, n: nat)
    requires n <= |rows|
    ensures n == |rows| || !rows[n].scans ==> ReadIds(rows[n..]) == []
    ensures n < |rows| && rows[n].scans ==> ReadIds(rows[n..]) == [rows[n].id] + ReadIds(rows[n + 1..])
  {
    assert n < |rows| ==> rows[n..][1..] == rows[n + 1..];
  }

  /** The row loop: writes features until a row cannot be read back, and keeps the
      last id written. */
  method ReadRows(rows: seq<Row>) returns (ids: seq<int>, lastID: int)
    ensures ids == ReadIds(rows)
    ensures ids != [] ==> lastID == ids[|ids| - 1]
  {
    hide ReadIds;
    ids, lastID := [], 0;
    var n := 0;
    assert rows[0..] == rows;
    while n < |rows|
      invariant n <= |rows| && n == |ids|
      invariant ReadIds(rows) == ids + ReadIds(rows[n..])
      invariant n > 0 ==> lastID == ids[n - 1]
    {
      ReadIdsFrom(rows, n);
      if !rows[n].scans {
        break;
      }
      ids := ids + [rows[n].id];
      lastID := rows[n].id;
      n := n + 1;
    }
    ReadIdsFrom(rows, n);
  }

  /** The limit a request asks for, within bounds; anything unreadable or not
      positive is the default. */
  method ReadLimit(q: Query, env: Setting) returns (limit: int)
    ensures limit == Limit(q, env)
  {
    limit := env.defaultLimit;
    var l := First(q, "limit");
    if l != "" {
      var n := ParseInt(l);
      if n.Some? && n.value > 0 {
        limit := n.value;
      }
    }
    if limit > env.maxLimit {
      limit := env.maxLimit;
    }
  }

  lemma ExecuteIsPage(t: seq<Row>, conds: seq<Cond>, args: seq<Arg>, f: Filter, srid: int, limit: int)
    requires Encodes(conds, args, f, srid)
    ensures ReadIds(Execute(t, conds, args + [IntArg(limit)], |args| + 1)) == Page(t, f, srid, limit)
  {
    hide Encodes, ReadIds;
    WhereIsMatching(t, conds, args, [IntArg(limit)], f, srid);
    assert (args + [IntArg(limit)])[|args|] == IntArg(limit);
  }

  lemma LimitIsPositive(q: Query, env: Setting)
    requires Usable(env)
    ensures Limit(q, env) >= 1
  {}

  // The page in terms of the request's own parameters.

  /** The first value the request gives for the parameter. */
  ghost predicate Gives(q: Query, key: string, text: string) {
    key in q && q[key] != [] && q[key][0] == text
  }

  ghost predicate GivesNone(q: Query, key: string) {
    key in q ==> q[key] == []
  }

  /** The page is the first n of the rows, up to one that cannot be read back, and there
      is a next link exactly when it has all n. */
  ghost predicate FirstOf(ids: seq<int>, next: Option<Query>, rows: seq<Row>, n: int) {
    && |ids| <= n && |ids| <= |rows|
    && (forall k :: 0 <= k < |ids| ==> rows[k].scans && ids[k] == rows[k].id)
    && (|ids| < n && |ids| < |rows| ==> !rows[|ids|].scans)
    && (next.Some? <==> |ids| == n)
  }

  /** The request gives a limit that is a positive 64-bit integer. */
  ghost predicate AsksFor(q: Query, n: int) {
    n >= 1 && exists text :: Gives(q, "limit", text) && Spells(text, n) && n <= MAX_INT64
  }

  /** How many rows the page is to have: as many as asked for, or the default, and never
      more than the maximum. */
  ghost predicate Wanted(q: Query, env: Setting, n: int) {
    && (forall asked :: AsksFor(q, asked) ==> n == if asked <= env.maxLimit then asked else env.maxLimit)
    && ((forall asked :: !AsksFor(q, asked)) ==>
          n == if env.defaultLimit <= env.maxLimit then env.defaultLimit else env.maxLimit)
  }

  lemma LimitIsWanted(q: Query, env: Setting)
    ensures Wanted(q, env, Limit(q, env))
  {
    var text := First(q, "limit");
    forall asked ensures AsksFor(q, asked) <==> text != "" && asked >= 1 && ParseInt(text) == Some(asked) {
      ParseIntReads(text, asked);
      if AsksFor(q, asked) {
        var t :| Gives(q, "limit", t) && Spells(t, asked) && asked <= MAX_INT64;
      }
      if text != "" && asked >= 1 && ParseInt(text) == Some(asked) {
        assert Gives(q, "limit", text);
      }
    }
    hide ParseInt, AsksFor;
  }

  lemma WantedIsLimit(q: Query, env: Setting, n: int)
    requires Wanted(q, env, n)
    ensures n == Limit(q, env)
  {
    LimitIsWanted(q, env);
    hide AsksFor, Limit;
    if asked :| AsksFor(q, asked) {
    }
  }

  /** The limit a link writes is one that is asked for. */
  lemma AsksByText(q: Query, n: int)
    requires 1 <= n <= MAX_INT64 && Gives(q, "limit", Itoa(n))
    ensures AsksFor(q, n)
  {
    ParseItoa(n);
    ParseIntReads(Itoa(n), n);
    hide Itoa;
  }

  lemma {:induction false} ReadIdsAre(rows: seq<Row>)
    ensures var ids := ReadIds(rows);
            && |ids| <= |rows|
            && (forall k :: 0 <= k < |ids| ==> rows[k].scans && ids[k] == rows[k].id)
            && (|ids| < |rows| ==> !rows[|ids|].scans)
  {
    if rows != [] && rows[0].scans {
      ReadIdsAre(rows[1..]);
    }
  }

  lemma PageIsFirst(t: seq<Row>, f: Filter, srid: int, limit: int, next: Option<Query>)
    requires limit >= 1 && (next.Some? <==> |Page(t, f, srid, limit)| == limit)
    ensures FirstOf(Page(t, f, srid, limit), next, Matching(t, f, srid), limit)
  {
    ReadIdsAre(Take(Matching(t, f, srid), limit));
  }

  /** What a filter clause comes from: each parameter by its first value, where none and
      the empty text are the same, and clipping by either spelling. */
  ghost predicate Requests(q: Query, env: Setting, f: Filter) {
    && (forall text :: Gives(q, "after", text) && text != "" ==> f.after.Some? && Spells(text, f.after.value))
    && (GivesNone(q, "after") || Gives(q, "after", "") ==> f.after.None?)
    && (forall text :: Gives(q, "bbox", text) && text != "" ==> f.box.Some? && f.box == env.box(text))
    && (GivesNone(q, "bbox") || Gives(q, "bbox", "") ==> f.box.None?)
    && (forall text :: Gives(q, "datetime", text) && text != "" ==> f.span.Some? && f.span == env.interval(text))
    && (GivesNone(q, "datetime") || Gives(q, "datetime", "") ==> f.span.None?)
    && (f.clip <==> Gives(q, "subtrajectory", "true")
                    || ((GivesNone(q, "subtrajectory") || Gives(q, "subtrajectory", ""))
                        && Gives(q, "subTrajectory", "true")))
  }

  lemma DecodedIsRequested(q: Query, env: Setting)
    ensures Decode(q, env).Success? ==> Requests(q, env, Decode(q, env).value)
  {
    if Decode(q, env).Success? {
      var f := Decode(q, env).value;
      hide Decode, ParseInt, Spells, First, Subtrajectory, Gives, GivesNone;
      FirstGives(q, "after");
      FirstGives(q, "bbox");
      FirstGives(q, "datetime");
      FirstGives(q, "subtrajectory");
      FirstGives(q, "subTrajectory");
      DecodedParts(q, env);
      if First(q, "after") != "" {
        ParseIntReads(First(q, "after"), f.after.value);
      }
    }
  }

  lemma DecodedParts(q: Query, env: Setting)
    requires Decode(q, env).Success?
    ensures var f := Decode(q, env).value;
            && (if First(q, "after") == "" then f.after.None?
                else f.after.Some? && f.after == ParseInt(First(q, "after")))
            && (if First(q, "bbox") == "" then f.box.None? else f.box.Some? && f.box == env.box(First(q, "bbox")))
            && (if First(q, "datetime") == "" then f.span.None?
                else f.span.Some? && f.span == env.interval(First(q, "datetime")))
            && (f.clip <==> First(q, "subtrajectory") == "true"
                            || (First(q, "subtrajectory") == "" && First(q, "subTrajectory") == "true"))
  {
    hide ParseInt, First;
  }

  lemma FirstGives(q: Query, key: string)
    ensures GivesFirst(q, key, First(q, key))
  {}

  ghost predicate GivesFirst(q: Query, key: string, first: string) {
    && (forall text :: Gives(q, key, text) && text != "" <==> text == first != "")
    && (GivesNone(q, key) || Gives(q, key, "") <==> first == "")
  }

  /** Streams one page and, when it is full, the next link. */
  method StreamItems(t: seq<Row>, q: Query, env: Setting)
      returns (ids: seq<int>, next: Option<Query>, err: Option<FilterError>)
    requires Usable(env)
    ensures err == match Decode(q, env) case Success(_) => None case Failure(e) => Some(e)
    ensures err.None? ==> ids == Page(t, Decode(q, env).value, env.srid, Limit(q, env))
    ensures err.None? ==>
              next == if |ids| == Limit(q, env) then Some(NextQuery(q, ids[|ids| - 1], Limit(q, env))) else None
    ensures err.None? ==> Requests(q, env, Decode(q, env).value)
    ensures forall n | err.None? && Wanted(q, env, n) ::
              FirstOf(ids, next, Matching(t, Decode(q, env).value, env.srid), n)
  {
    hide *;
    ids, next := [], None;
    LimitIsPositive(q, env);
    var limit := ReadLimit(q, env);
    var conds, args;
    conds, args, err := ItemFilters(q, env);
    if err.Some? {
      return;
    }
    ExecuteIsPage(t, conds, args, Decode(q, env).value, env.srid, limit);
    args := args + [IntArg(limit)];
    var rows := Execute(t, conds, args, |args|);
    var lastID;
    ids, lastID := ReadRows(rows);
    if |ids| == limit {
      next := Some(NextQuery(q, lastID, limit));
    }
    DecodedIsRequested(q, env);
    PageIsFirst(t, Decode(q, env).value, env.srid, limit, next);
    forall n | Wanted(q, env, n) ensures n == limit {
      WantedIsLimit(q, env, n);
    }
  }
}
