/** Stream records, their event time, window definitions, and what it means for
    a query to deliver a list of windows. */
module Records {
  import opened Multiples

  /** What the four accepted timestamp layouts make of a record's text: Unix
      seconds, or nothing. */
  datatype Stamp = Parsed(unix: int) | Unparsed

  /** One stream record; `text` is the timestamp as the source wrote it. */
  datatype Instant = Instant(text: string, stamp: Stamp, v: real, s: string)

  /** A record's event time. A stamp that does not parse falls back to the index
      the caller passes, whatever that index counts. */
  function InstantUnix(x: Instant, idx: int): int {
    match x.stamp
    case Parsed(u) => u
    case Unparsed => idx
  }

  /** Go's `%`: the remainder takes the sign of the dividend. */
  function Rem(a: int, b: int): (r: int)
    requires b > 0
    ensures -b < r < b
    ensures 0 <= a ==> r == a % b
    ensures (a - r) % b == 0
    ensures r == 0 <==> a % b == 0
    ensures a < 0 ==> r <= 0
  {
    if 0 <= a then
      ModOfDifference(a, b);
      a % b
    else
      NegatedMod(a, b);
      -((-a) % b)
  }

  /** The end of the window that opens with a record at time t. */
  function FirstEnd(t: int, width: int): (e: int)
    requires width > 0
    ensures t < e && e % width == 0
    ensures 0 <= t ==> e <= t + width
  {
    NextMultiple(t - Rem(t, width), width);
    t - Rem(t, width) + width
  }

  /** The window that opens at t covers t - i.e. t lies less than a width before
      its end - exactly when t is not negative or sits on a multiple of the
      width: the truncating remainder rounds other negative times up. */
  lemma FirstEndCovers(t: int, width: int)
    requires width > 0
    ensures FirstEnd(t, width) - width <= t <==> 0 <= t || t % width == 0
  {}

  datatype WindowKind = Count | Tumbling | Hopping

  /** A window as a query states it; any unit other than the two named is
      seconds. */
  datatype Window = Window(kind: WindowKind, size: int, unit: string, hop: int, hopUnit: string)

  function Seconds(n: int, unit: string): (s: int)
    ensures s > 0
  {
    var scaled := if unit == "MINUTES" then n * 60 else if unit == "HOURS" then n * 3600 else n;
    if scaled <= 0 then 1 else scaled
  }

  /** What a size or hop with its unit is worth in seconds; none or less counts as one
      second. */
  ghost predicate Worth(n: int, unit: string, seconds: int) {
    && (n > 0 && unit == "MINUTES" ==> seconds == 60 * n)
    && (n > 0 && unit == "HOURS" ==> seconds == 3600 * n)
    && (n > 0 && unit != "MINUTES" && unit != "HOURS" ==> seconds == n)
    && (n <= 0 ==> seconds == 1)
  }

  lemma SecondsAreWorth(n: int, unit: string, seconds: int)
    ensures Worth(n, unit, seconds) <==> seconds == Seconds(n, unit)
  {}

  function SpanSeconds(w: Window): (s: int)
    ensures s > 0
  {
    Seconds(w.size, w.unit)
  }

  function HopSeconds(w: Window): (s: int)
    ensures s > 0
  {
    Seconds(w.hop, w.hopUnit)
  }

  /** What a pointwise operation makes of a stream: every record's value lifted,
      at the record's own timestamp, in order. */
  function Transformed(xs: seq<Instant>, f: real -> real): (r: seq<Event>)
    ensures |r| == |xs|
    ensures forall k :: 0 <= k < |xs| ==> r[k] == InstantEvent(xs[k].text, f(xs[k].v))
  {
    seq(|xs|, k requires 0 <= k < |xs| => InstantEvent(xs[k].text, f(xs[k].v)))
  }

  /** A closed window: the records its aggregate is taken over. */
  datatype Closed = Closed(records: seq<Instant>)

  /** Delivering one window ends in one of three ways: the event is sent, the
      aggregate cannot be computed, or the query is cancelled while it waits. */
  datatype Outcome = Sent | AggregateFailed | Cancelled

  /** The environment's answer for the k-th window offered. */
  type Emitter = (nat, Closed) -> Outcome

  datatype Status = Running | Stopped | Failed

  /** A result: a window with its bounds and the records the aggregate is taken
      over, or a transformed record at its own timestamp. */
  datatype Event =
    | WindowEvent(windowStart: string, windowEnd: string, over: Closed)
    | InstantEvent(datetime: string, value: real)

  function ToEvent(w: Closed): Event
    requires w.records != []
  {
    WindowEvent(w.records[0].text, w.records[|w.records| - 1].text, w)
  }

  ghost predicate NoneEmpty(ws: seq<Closed>) {
    forall k :: 0 <= k < |ws| ==> ws[k].records != []
  }

  /** The records of a list of windows, one after the other. */
  function Flatten(ws: seq<Closed>): seq<Instant> {
    if ws == [] then [] else Flatten(ws[..|ws| - 1]) + ws[|ws| - 1].records
  }

  /** While a query runs, every window closed so far has been delivered. */
  ghost predicate UpToDate(results: seq<Event>, ws: seq<Closed>, emit: Emitter)
    requires NoneEmpty(ws)
  {
    && |results| == |ws|
    && forall k :: 0 <= k < |ws| ==> emit(k, ws[k]) == Sent && results[k] == ToEvent(ws[k])
  }

  /** How a query over the windows `ws` ends: the results are the events of the
      windows up to the first that cannot be delivered, and the status says
      whether it was the aggregate that failed. */
  ghost predicate Delivers(results: seq<Event>, status: Status, ws: seq<Closed>, emit: Emitter)
    requires NoneEmpty(ws)
  {
    && |results| <= |ws|
    && UpToDate(results, ws[..|results|], emit)
    && (|results| < |ws| ==> emit(|results|, ws[|results|]) != Sent)
    && status == if |results| < |ws| && emit(|results|, ws[|results|]) == AggregateFailed then Failed else Stopped
  }

  lemma DeliveredOne(results: seq<Event>, ws: seq<Closed>, next: Closed, emit: Emitter)
    requires NoneEmpty(ws) && UpToDate(results, ws, emit)
    requires next.records != [] && emit(|results|, next) == Sent
    ensures NoneEmpty(ws + [next]) && UpToDate(results + [ToEvent(next)], ws + [next], emit)
  {}

  lemma Undelivered(results: seq<Event>, status: Status, ws: seq<Closed>, next: Closed, all: seq<Closed>, emit: Emitter)
    requires NoneEmpty(all) && NoneEmpty(ws) && UpToDate(results, ws, emit)
    requires next.records != [] && emit(|results|, next) != Sent && ws + [next] <= all
    requires status == if emit(|results|, next) == AggregateFailed then Failed else Stopped
    ensures Delivers(results, status, all, emit)
  {
    assert all[|ws|] == next;
    assert all[..|results|] == ws;
  }

  lemma AllDelivered(results: seq<Event>, ws: seq<Closed>, emit: Emitter)
    requires NoneEmpty(ws) && UpToDate(results, ws, emit)
    ensures Delivers(results, Stopped, ws, emit)
  {
    assert ws[..|results|] == ws;
  }
}
