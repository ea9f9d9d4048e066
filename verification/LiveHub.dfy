/** The hub that fans pushed records out to the live queries on their key. */
module LiveHub {
  import opened Broadcast
  import opened Decimal
  import opened Records

  const CAPACITY := 64

  /** The key of a property: collection, feature and property name, separated by
      NUL. */
  function LiveKey(cid: string, fid: int, pname: string): string {
    cid + "\0" + Itoa(fid) + "\0" + pname
  }

  lemma SplitAtFirst(a: string, x: string, b: string, y: string, c: char)
    requires c !in a && c !in b && a + ([c] + x) == b + ([c] + y)
    ensures a == b && x == y
  {
    var u := a + ([c] + x);
    assert u[|a|] == c && u[|b|] == c;
    assert forall k :: 0 <= k < |a| ==> u[k] == a[k] != c;
    assert forall k :: 0 <= k < |b| ==> u[k] == b[k] != c;
    assert a == u[..|a|] && b == u[..|b|];
    assert x == u[|a| + 1..] && y == u[|b| + 1..];
  }

  lemma KeyShape(cid: string, id: string, pname: string)
    ensures cid + "\0" + id + "\0" + pname == cid + (['\0'] + (id + (['\0'] + pname)))
  {}

  /** Keys of collections without NUL in their id tell properties apart. */
  lemma LiveKeyInjective(c1: string, f1: int, p1: string, c2: string, f2: int, p2: string)
    requires '\0' !in c1 && '\0' !in c2
    requires LiveKey(c1, f1, p1) == LiveKey(c2, f2, p2)
    ensures c1 == c2 && f1 == f2 && p1 == p2
  {
    var i1, i2 := Itoa(f1), Itoa(f2);
    ItoaAvoids(f1, '\0');
    ItoaAvoids(f2, '\0');
    KeyShape(c1, i1, p1);
    KeyShape(c2, i2, p2);
    SplitAtFirst(c1, i1 + (['\0'] + p1), c2, i2 + (['\0'] + p2), '\0');
    SplitAtFirst(i1, p1, i2, p2, '\0');
    hide Itoa;
    ItoaInjective(f1, f2);
  }

  /** One id is the other followed by NUL, an integer's text, and then by nothing or
      another NUL. */
  ghost predicate Extends(long: string, short: string) {
    exists n: int, rest: string :: ExtendedBy(long, short, n, rest)
  }

  ghost predicate ExtendedBy(long: string, short: string, n: int, rest: string) {
    long == short + (['\0'] + (Itoa(n) + rest)) && (rest == [] || rest[0] == '\0')
  }

  ghost predicate ShareKey(c1: string, c2: string) {
    exists f1, p1, f2, p2 :: LiveKey(c1, f1, p1) == LiveKey(c2, f2, p2)
  }

  /** Exactly which different collection ids could share a key, were every text an
      id. */
  lemma ShareKeyIff(c1: string, c2: string)
    requires c1 != c2
    ensures ShareKey(c1, c2) <==> Extends(c1, c2) || Extends(c2, c1)
  {
    if f1, p1, f2, p2 :| LiveKey(c1, f1, p1) == LiveKey(c2, f2, p2) {
      if |c1| < |c2| {
        SharedIsExtended(c2, f2, p2, c1, f1, p1);
      } else {
        SharedIsExtended(c1, f1, p1, c2, f2, p2);
      }
    }
    if Extends(c1, c2) {
      ExtendedShares(c1, c2);
    }
    if Extends(c2, c1) {
      ExtendedShares(c2, c1);
    }
  }

  lemma SharedIsExtended(long: string, f1: int, p1: string, short: string, f2: int, p2: string)
    requires long != short && |short| <= |long| && LiveKey(long, f1, p1) == LiveKey(short, f2, p2)
    ensures Extends(long, short)
  {
    var i1, i2 := Itoa(f1), Itoa(f2);
    KeyShape(long, i1, p1);
    KeyShape(short, i2, p2);
    ItoaAvoids(f2, '\0');
    hide Itoa;
    var u := short + (['\0'] + (i2 + (['\0'] + p2)));
    assert long == u[..|long|] && short == u[..|short|] == long[..|short|];
    assert |short| < |long| && long[|short|] == u[|short|] == '\0';
    var tail := long[|short| + 1..];
    assert long == short + (['\0'] + tail);
    assert u[|short| + 1..] == i2 + (['\0'] + p2);
    assert u[|short| + 1..] == tail + (['\0'] + (i1 + (['\0'] + p1)));
    StartsWhole(i2, p2, tail, i1 + (['\0'] + p1));
    var rest := tail[|i2|..];
    assert tail == i2 + rest;
    assert ExtendedBy(long, short, f2, rest);
  }

  /** Text without NUL before a NUL lies whole within the text before the other's. */
  lemma StartsWhole(id: string, x: string, tail: string, y: string)
    requires '\0' !in id && id + (['\0'] + x) == tail + (['\0'] + y)
    ensures |id| <= |tail| && tail[..|id|] == id
    ensures |id| < |tail| ==> tail[|id|] == '\0'
  {
    var u := id + (['\0'] + x);
    assert u[|tail|] == '\0' && u[|id|] == '\0';
    assert forall k :: 0 <= k < |id| ==> u[k] == id[k] && id[k] in id;
    assert forall k :: 0 <= k < |tail| ==> u[k] == tail[k];
    assert |id| <= |tail|;
    assert tail[..|id|] == u[..|id|] == id;
  }

  lemma ExtendedShares(long: string, short: string)
    requires Extends(long, short)
    ensures ShareKey(long, short) && ShareKey(short, long)
  {
    var n, rest :| ExtendedBy(long, short, n, rest);
    var end := Itoa(0) + (['\0'] + "");
    var p := if rest == [] then end else rest[1..] + (['\0'] + end);
    KeyShape(long, Itoa(0), "");
    KeyShape(short, Itoa(n), p);
    hide Itoa;
    assert ['\0'] + p == rest + (['\0'] + end);
    Regrouped(short, ['\0'], Itoa(n), rest, ['\0'] + end);
    assert LiveKey(long, 0, "") == LiveKey(short, n, p);
  }

  lemma Regrouped(a: string, b: string, c: string, d: string, e: string)
    ensures (a + (b + (c + d))) + e == a + (b + (c + (d + e)))
  {
    assert (c + d) + e == c + (d + e);
    assert (b + (c + d)) + e == b + ((c + d) + e);
  }

  predicate IdStart(c: char) {
    'a' <= c <= 'z' || c == '_'
  }

  /** The ids a collection can be created with: [a-z_][a-z0-9_]*. */
  predicate ValidID(s: string) {
    s != [] && IdStart(s[0]) && forall k :: 0 <= k < |s| ==> IdStart(s[k]) || IsDigit(s[k])
  }

  type CollectionId = s: string | ValidID(s) witness "a"

  /** A property of a collection that exists, which pushing and subscribing require. */
  datatype Property = Property(cid: CollectionId, fid: int, pname: string)

  function Key(p: Property): string {
    LiveKey(p.cid, p.fid, p.pname)
  }

  /** Collections that exist have no NUL in their id, so keys tell properties
      apart. */
  lemma KeyInjective(p: Property, q: Property)
    requires Key(p) == Key(q)
    ensures p == q
  {
    hide LiveKey;
    assert '\0' !in p.cid && '\0' !in q.cid;
    LiveKeyInjective(p.cid, p.fid, p.pname, q.cid, q.fid, q.pname);
  }

  function RekeyOp(op: Op<Property, Instant>): Op<string, Instant> {
    match op
    case Begin(p, ev) => Begin(Key(p), ev)
    case Send(id) => Send(id)
    case End => End
    case Drain => Drain
    case Join(id, p) => Join(id, Key(p))
    case Leave(id) => Leave(id)
    case Receive(id) => Receive(id)
  }

  function Rekey(ops: seq<Op<Property, Instant>>): seq<Op<string, Instant>> {
    if ops == [] then [] else Rekey(Init(ops)) + [RekeyOp(Last(ops))]
  }

  function RekeyHub(h: Broadcast.Hub<Property, Instant>): Broadcast.Hub<string, Instant> {
    Broadcast.Hub(map id | id in h.subs :: Key(h.subs[id]), h.chans, h.stopped, h.busy)
  }

  lemma SameListeners(h: Broadcast.Hub<Property, Instant>, p: Property)
    ensures Listeners(RekeyHub(h), Key(p)) == Listeners(h, p)
  {
    forall id | id in h.subs && Key(h.subs[id]) == Key(p) ensures h.subs[id] == p {
      KeyInjective(h.subs[id], p);
    }
  }

  lemma RekeyStep(h: Broadcast.Hub<Property, Instant>, op: Op<Property, Instant>)
    requires Enabled(h, op)
    ensures Enabled(RekeyHub(h), RekeyOp(op))
    ensures Apply(RekeyHub(h), RekeyOp(op), CAPACITY) == RekeyHub(Apply(h, op, CAPACITY))
  {
    hide Key;
    if op.Begin? {
      SameListeners(h, op.key);
    }
  }

  /** The hub keyed by text is a hub keyed by property: no query ever gets a record
      pushed for another collection, feature or property name. */
  lemma {:induction false} KeyedByProperty(ops: seq<Op<Property, Instant>>)
    requires Legal(ops, CAPACITY)
    ensures Legal(Rekey(ops), CAPACITY)
    ensures Run(Rekey(ops), CAPACITY) == RekeyHub(Run(ops, CAPACITY))
  {
    if ops != [] {
      KeyedByProperty(Init(ops));
      RekeyStep(Run(Init(ops), CAPACITY), Last(ops));
      assert Init(Rekey(ops)) == Rekey(Init(ops));
    }
  }

  /** What a query has been given are, in order, records pushed for its own
      property while it was subscribed. */
  lemma OwnRecordsOnly(ops: seq<Op<Property, Instant>>, id: nat)
    requires Legal(ops, CAPACITY)
    ensures Legal(Rekey(ops), CAPACITY)
    ensures Subsequence(DeliveredTo(Run(Rekey(ops), CAPACITY), id), Pumped(ops, id, CAPACITY))
  {
    KeyedByProperty(ops);
    Delivery(ops, id, CAPACITY);
  }

  // The goroutine that waits for a query to be cancelled.

  /** Its critical section as it is written: the channel is removed and closed,
      subscribed or not. */
  function CloseAnyway(h: Broadcast.Hub<string, Instant>, id: nat): Broadcast.Hub<string, Instant> {
    if id in h.chans then h.(subs := h.subs - {id}, chans := h.chans[id := Close(h.chans[id])]) else h
  }

  /** A second close is a fault. */
  lemma SecondCloseFaults(h: Broadcast.Hub<string, Instant>, id: nat)
    requires id in h.chans
    ensures CloseAnyway(CloseAnyway(h, id), id).chans[id].faults > h.chans[id].faults
  {}

  /** The hub with the channels whose goroutine still waits. */
  datatype Live = Live(hub: Broadcast.Hub<string, Instant>, waiting: set<nat>)

  /** Open is subscribing, which starts the goroutine; Fire is the goroutine running
      once its query is cancelled, after which it ends; Other is a step of a
      broadcast or of a reader. */
  datatype LiveStep = Open(id: nat, key: string) | Fire(id: nat) | Other(op: Op<string, Instant>)

  predicate LiveEnabled(l: Live, step: LiveStep) {
    match step
    case Open(id, key) => Enabled(l.hub, Join(id, key))
    case Fire(id) => id in l.waiting && l.hub.busy.Idle?
    case Other(op) => (op.Begin? || op.Send? || op.End? || op.Receive?) && Enabled(l.hub, op)
  }

  function LiveApply(l: Live, step: LiveStep): Live
    requires LiveEnabled(l, step)
  {
    match step
    case Open(id, key) => Live(Apply(l.hub, Join(id, key), CAPACITY), l.waiting + {id})
    case Fire(id) => Live(CloseAnyway(l.hub, id), l.waiting - {id})
    case Other(op) => l.(hub := Apply(l.hub, op, CAPACITY))
  }

  predicate LiveLegal(steps: seq<LiveStep>)
    decreases |steps|, 0
  {
    steps == []
    || (LiveLegal(steps[..|steps| - 1]) && LiveEnabled(LiveRun(steps[..|steps| - 1]), steps[|steps| - 1]))
  }

  function LiveRun(steps: seq<LiveStep>): Live
    requires LiveLegal(steps)
    decreases |steps|, 1
  {
    if steps == [] then Live(Empty(), {}) else LiveApply(LiveRun(steps[..|steps| - 1]), steps[|steps| - 1])
  }

  function OpOf(step: LiveStep): Op<string, Instant> {
    match step
    case Open(id, key) => Join(id, key)
    case Fire(id) => Leave(id)
    case Other(op) => op
  }

  function OpsOf(steps: seq<LiveStep>): seq<Op<string, Instant>> {
    if steps == [] then [] else OpsOf(steps[..|steps| - 1]) + [OpOf(steps[|steps| - 1])]
  }

  lemma LiveStepIsOp(l: Live, step: LiveStep)
    requires LiveEnabled(l, step) && Safe(l.hub, CAPACITY) && !l.hub.stopped && l.waiting == l.hub.subs.Keys
    ensures var next := LiveApply(l, step);
            && Enabled(l.hub, OpOf(step)) && next.hub == Apply(l.hub, OpOf(step), CAPACITY)
            && !next.hub.stopped && next.waiting == next.hub.subs.Keys
  {}

  /** One goroutine a channel: it waits exactly while the channel is subscribed, so
      every execution is one of the broadcast system - nothing is sent to a closed
      channel and none is closed twice. */
  lemma {:induction false} LiveIsBroadcast(steps: seq<LiveStep>)
    requires LiveLegal(steps)
    ensures Legal(OpsOf(steps), CAPACITY)
    ensures LiveRun(steps).hub == Run(OpsOf(steps), CAPACITY)
    ensures LiveRun(steps).waiting == LiveRun(steps).hub.subs.Keys && !LiveRun(steps).hub.stopped
    ensures Safe(LiveRun(steps).hub, CAPACITY)
  {
    if steps != [] {
      var before := steps[..|steps| - 1];
      LiveIsBroadcast(before);
      LiveStepIsOp(LiveRun(before), steps[|steps| - 1]);
      assert Init(OpsOf(steps)) == OpsOf(before);
      hide Apply, Enabled, LiveApply, LiveEnabled, Safe;
      AlwaysSafe(OpsOf(steps), CAPACITY);
    }
  }

  /** The subscribers among `served` whose queue has a free slot. */
  ghost function Roomy(chans: map<nat, Chan<Instant>>, served: set<nat>): set<nat> {
    set id | id in served && id in chans && |chans[id].buf| < CAPACITY
  }

  /** The queues that are longer after than before. */
  ghost function Grew(before: map<nat, Chan<Instant>>, after: map<nat, Chan<Instant>>): set<nat> {
    set id | id in before && id in after && |before[id].buf| < |after[id].buf|
  }

  lemma RoomyOne(chans: map<nat, Chan<Instant>>, served: set<nat>, id: nat)
    requires id in chans && id !in served
    ensures |Roomy(chans, served + {id})|
         == |Roomy(chans, served)| + if |chans[id].buf| < CAPACITY then 1 else 0
  {
    if |chans[id].buf| < CAPACITY {
      assert Roomy(chans, served + {id}) == Roomy(chans, served) + {id};
    } else {
      assert Roomy(chans, served + {id}) == Roomy(chans, served);
    }
  }

  lemma PublishEnd(h: Broadcast.Hub<string, Instant>, key: string, x: Instant, chans: map<nat, Chan<Instant>>)
    requires Safe(h, CAPACITY) && h.busy.Idle? && chans == Served(h.chans, Listeners(h, key), x, CAPACITY)
    ensures h.(chans := chans) == AfterBroadcast(h, key, x, CAPACITY)
    ensures Safe(h.(chans := chans), CAPACITY)
    ensures chans.Keys == h.chans.Keys
    ensures Roomy(h.chans, Listeners(h, key)) == Grew(h.chans, chans)
  {
    BroadcastIsSafe(h, key, x, CAPACITY);
  }

  function Members(subs: map<string, set<nat>>, key: string): set<nat> {
    if key in subs then subs[key] else {}
  }

  /** A channel is in the set of its goroutine's key, and in no other. */
  ghost predicate Indexed(subs: map<string, set<nat>>, waiting: map<nat, string>) {
    && (forall key, id :: key in subs && id in subs[key] ==> id in waiting && waiting[id] == key)
    && (forall id :: id in waiting ==> waiting[id] in subs && id in subs[waiting[id]])
  }

  lemma IndexOpen(subs: map<string, set<nat>>, waiting: map<nat, string>, id: nat, key: string)
    requires Indexed(subs, waiting) && id !in waiting
    ensures Indexed(subs[key := Members(subs, key) + {id}], waiting[id := key])
  {}

  lemma IndexFire(subs: map<string, set<nat>>, waiting: map<nat, string>, id: nat)
    requires Indexed(subs, waiting) && id in waiting
    ensures waiting[id] in subs
    ensures Indexed(subs[waiting[id] := subs[waiting[id]] - {id}], waiting - {id})
  {}

  lemma IndexListeners(h: Broadcast.Hub<string, Instant>, subs: map<string, set<nat>>, key: string)
    requires Indexed(subs, h.subs)
    ensures Members(subs, key) == Listeners(h, key)
  {}

  class Hub {
    var subs: map<string, set<nat>>
    var chans: map<nat, Chan<Instant>>
    var next: nat
    // the goroutines that wait for a cancellation, each with the key it was given
    var waiting: map<nat, string>

    ghost function View(): Broadcast.Hub<string, Instant>
      reads this
    {
      Broadcast.Hub(waiting, chans, false, Idle)
    }

    ghost predicate Valid()
      reads this
    {
      && Safe(View(), CAPACITY)
      && (forall id :: id in chans ==> id < next)
      && Indexed(subs, waiting)
    }

    constructor ()
      ensures Valid() && View() == Empty()
    {
      subs, chans, next, waiting := map[], map[], 0, map[];
    }

    /** A live query joins the hub on its key, with a channel of its own. */
    method Subscribe(key: string) returns (id: nat)
      requires Valid()
      modifies this
      ensures Valid() && id !in old(chans)
      ensures View() == Apply(old(View()), Join(id, key), CAPACITY)
    {
      ghost var h := View();
      id := next;
      SafeStep(h, Join(id, key), CAPACITY);
      assert Apply(h, Join(id, key), CAPACITY) == Broadcast.Hub(waiting[id := key], chans[id := Fresh()], false, Idle);
      assert id !in waiting;
      IndexOpen(subs, waiting, id, key);
      hide Safe, Apply, Indexed;
      next := next + 1;
      chans := chans[id := Fresh()];
      subs := subs[key := Members(subs, key) + {id}];
      waiting := waiting[id := key];
    }

    /** The query's context is cancelled: its goroutine removes and closes the channel
        without looking, and ends. */
    method Cancel(id: nat)
      requires Valid() && id in waiting
      modifies this
      ensures Valid() && id !in waiting
      ensures View() == CloseAnyway(old(View()), id) == Apply(old(View()), Leave(id), CAPACITY)
    {
      ghost var h := View();
      SafeStep(h, Leave(id), CAPACITY);
      IndexFire(subs, waiting, id);
      hide Safe, Indexed;
      var key := waiting[id];
      subs := subs[key := subs[key] - {id}];
      chans := chans[id := Close(chans[id])];
      waiting := waiting - {id};
      assert View() == Apply(h, Leave(id), CAPACITY);
    }

    /** The loop of Publish over the channels subscribed on the key. */
    method OfferAll(all: set<nat>, x: Instant) returns (n: nat)
      requires forall id :: id in all ==> id in chans
      modifies this`chans
      ensures chans == Served(old(chans), all, x, CAPACITY)
      ensures n == |Roomy(old(chans), all)|
    {
      n := 0;
      ghost var before := chans;
      var todo := all;
      assert chans == Served(before, {}, x, CAPACITY);
      assert Roomy(before, {}) == {} == all - todo;
      hide Served, Roomy;
      while todo != {}
        invariant todo <= all
        invariant chans == Served(before, all - todo, x, CAPACITY)
        invariant n == |Roomy(before, all - todo)|
        decreases todo
      {
        var id :| id in todo;
        ServeOne(before, all - todo, id, x, CAPACITY);
        RoomyOne(before, all - todo, id);
        if |chans[id].buf| < CAPACITY {
          n := n + 1;
        }
        chans := chans[id := Offer(chans[id], x, CAPACITY)];
        assert all - (todo - {id}) == all - todo + {id};
        todo := todo - {id};
      }
      assert all - todo == all;
    }

    /** Offers a record to every query on the key; the result is the number of
        queues that grew. */
    method Publish(key: string, x: Instant) returns (n: nat)
      requires Valid()
      modifies this
      ensures Valid()
      ensures View() == AfterBroadcast(old(View()), key, x, CAPACITY)
      ensures n == |Grew(old(chans), chans)|
    {
      ghost var h := View();
      var all := Members(subs, key);
      IndexListeners(h, subs, key);
      n := OfferAll(all, x);
      PublishEnd(h, key, x, chans);
    }
  }
}
