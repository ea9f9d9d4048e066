/** The lossy broadcast that a query's fan-out and the live hub share: channels of
    bounded capacity, a set of subscribers kept under a lock, and sends that skip
    a full channel. One step is one operation on one channel, or one critical
    section that touches none of their buffers, so reads interleave with a
    broadcast at any point. */
module Broadcast {

  /** A buffered channel: what is queued, what its reader has taken so far,
      whether it is open, and how often it was misused in a way that panics. */
  datatype Chan<E> = Chan(buf: seq<E>, got: seq<E>, open: bool, faults: nat)

  function Fresh<E>(): Chan<E> {
    Chan([], [], true, 0)
  }

  /** A send inside a select with a default case. */
  function Offer<E>(c: Chan<E>, x: E, cap: nat): Chan<E> {
    if !c.open then c.(faults := c.faults + 1)
    else if |c.buf| < cap then c.(buf := c.buf + [x])
    else c
  }

  function Take<E>(c: Chan<E>): Chan<E> {
    if c.buf == [] then c else c.(buf := c.buf[1..], got := c.got + [c.buf[0]])
  }

  function Close<E>(c: Chan<E>): Chan<E> {
    if c.open then c.(open := false) else c.(faults := c.faults + 1)
  }

  /** Everything that has been put in the channel, read or not. */
  function Delivered<E>(c: Chan<E>): seq<E> {
    c.got + c.buf
  }

  datatype Activity<E> = Idle | Sending(ev: E, due: set<nat>)

  /** The subscribers with the key each listens on, every channel ever made, and
      the broadcast the lock is held for, if any. */
  datatype Hub<K, E> = Hub(subs: map<nat, K>, chans: map<nat, Chan<E>>, stopped: bool, busy: Activity<E>)

  function Empty<K, E>(): Hub<K, E> {
    Hub(map[], map[], false, Idle)
  }

  /** Begin takes the lock for one event, Send serves one subscriber, End releases
      the lock; Drain closes every channel once the events have ended; Join and
      Leave are subscribing and unsubscribing; Receive is a reader's, and needs no
      lock. */
  datatype Op<K, E> =
    | Begin(key: K, ev: E)
    | Send(id: nat)
    | End
    | Drain
    | Join(id: nat, key: K)
    | Leave(id: nat)
    | Receive(id: nat)

  predicate Enabled<K, E>(h: Hub<K, E>, op: Op<K, E>) {
    match op
    case Begin(_, _) => h.busy.Idle? && !h.stopped
    case Send(id) => h.busy.Sending? && id in h.busy.due
    case End => h.busy.Sending? && h.busy.due == {}
    case Drain => h.busy.Idle? && !h.stopped
    case Join(id, _) => h.busy.Idle? && id !in h.chans
    case Leave(_) => h.busy.Idle?
    case Receive(id) => id in h.chans
  }

  function Listeners<K(==), E>(h: Hub<K, E>, key: K): set<nat> {
    set id | id in h.subs && h.subs[id] == key
  }

  function CloseAll<K, E>(h: Hub<K, E>): map<nat, Chan<E>> {
    map id | id in h.chans :: if id in h.subs then Close(h.chans[id]) else h.chans[id]
  }

  /** One step. Unsubscribing a channel that is not subscribed does nothing;
      subscribing after the end returns a closed channel. */
  function Apply<K(==), E>(h: Hub<K, E>, op: Op<K, E>, cap: nat): Hub<K, E>
    requires Enabled(h, op)
  {
    match op
    case Begin(key, ev) => h.(busy := Sending(ev, Listeners(h, key)))
    case Send(id) =>
      var sent := if id in h.chans then h.chans[id := Offer(h.chans[id], h.busy.ev, cap)] else h.chans;
      h.(chans := sent, busy := Sending(h.busy.ev, h.busy.due - {id}))
    case End => h.(busy := Idle)
    case Drain => Hub(map[], CloseAll(h), true, Idle)
    case Join(id, key) =>
      if h.stopped then h.(chans := h.chans[id := Close(Fresh())])
      else h.(chans := h.chans[id := Fresh()], subs := h.subs[id := key])
    case Leave(id) =>
      if id in h.subs && id in h.chans then h.(chans := h.chans[id := Close(h.chans[id])], subs := h.subs - {id})
      else h
    case Receive(id) => h.(chans := h.chans[id := Take(h.chans[id])])
  }

  /** An execution: every step is enabled when it is taken. */
  predicate Legal<K(==), E>(ops: seq<Op<K, E>>, cap: nat)
    decreases |ops|, 0
  {
    ops == [] || (Legal(ops[..|ops| - 1], cap) && Enabled(Run(ops[..|ops| - 1], cap), ops[|ops| - 1]))
  }

  function Run<K(==), E>(ops: seq<Op<K, E>>, cap: nat): Hub<K, E>
    requires Legal(ops, cap)
    decreases |ops|, 1
  {
    if ops == [] then Empty() else Apply(Run(ops[..|ops| - 1], cap), ops[|ops| - 1], cap)
  }

  // A broadcast without reads in between.

  /** The channels after some of the subscribers have had their turn. */
  function Served<E>(chans: map<nat, Chan<E>>, served: set<nat>, ev: E, cap: nat): map<nat, Chan<E>> {
    map id | id in chans :: if id in served then Offer(chans[id], ev, cap) else chans[id]
  }

  lemma ServeOne<E>(chans: map<nat, Chan<E>>, served: set<nat>, id: nat, ev: E, cap: nat)
    requires id in chans && id !in served
    ensures id in Served(chans, served, ev, cap) && Served(chans, served, ev, cap)[id] == chans[id]
    ensures Served(chans, served + {id}, ev, cap) == Served(chans, served, ev, cap)[id := Offer(chans[id], ev, cap)]
  {}

  function AfterBroadcast<K(==), E>(h: Hub<K, E>, key: K, ev: E, cap: nat): Hub<K, E> {
    h.(chans := Served(h.chans, Listeners(h, key), ev, cap))
  }

  predicate AllEnabled<K(==), E>(h: Hub<K, E>, ops: seq<Op<K, E>>, cap: nat)
    decreases |ops|
  {
    ops == [] || (Enabled(h, ops[0]) && AllEnabled(Apply(h, ops[0], cap), ops[1..], cap))
  }

  function ApplyAll<K(==), E>(h: Hub<K, E>, ops: seq<Op<K, E>>, cap: nat): Hub<K, E>
    requires AllEnabled(h, ops, cap)
    decreases |ops|
  {
    if ops == [] then h else ApplyAll(Apply(h, ops[0], cap), ops[1..], cap)
  }

  function Turns<K, E>(order: seq<nat>): seq<Op<K, E>> {
    if order == [] then [End] else [Send(order[0])] + Turns(order[1..])
  }

  lemma {:induction false} TurnsServe<K, E>(h: Hub<K, E>, order: seq<nat>, chans: map<nat, Chan<E>>,
                                            served: set<nat>, cap: nat)
    requires h.busy.Sending? && h.chans == Served(chans, served, h.busy.ev, cap)
    requires forall i, j :: 0 <= i < j < |order| ==> order[i] != order[j]
    requires forall i :: i in h.busy.due <==> i in order
    requires forall i :: i in order ==> i !in served
    ensures AllEnabled(h, Turns(order), cap)
    ensures ApplyAll(h, Turns(order), cap)
         == h.(chans := Served(chans, served + h.busy.due, h.busy.ev, cap), busy := Idle)
    decreases |order|
  {
    if order == [] {
      assert h.busy.due == {};
      assert served + {} == served;
      var turns: seq<Op<K, E>> := Turns(order);
      assert turns[1..] == [];
    } else {
      var id := order[0];
      var turns: seq<Op<K, E>> := Turns(order);
      assert turns[0] == Send(id) && turns[1..] == Turns(order[1..]);
      assert id in h.busy.due by {
        assert id in order;
      }
      var next := Apply(h, Send(id), cap);
      forall i ensures i in next.busy.due <==> i in order[1..] {
        assert order == [id] + order[1..];
      }
      assert next.chans == Served(chans, served + {id}, h.busy.ev, cap);
      TurnsServe(next, order[1..], chans, served + {id}, cap);
      assert served + {id} + next.busy.due == served + h.busy.due;
    }
  }

  /** In whatever order the map iteration visits the subscribers, a broadcast has
      the same outcome. */
  lemma BroadcastInAnyOrder<K, E>(h: Hub<K, E>, key: K, ev: E, order: seq<nat>, cap: nat)
    requires h.busy.Idle? && !h.stopped
    requires forall i, j :: 0 <= i < j < |order| ==> order[i] != order[j]
    requires forall i :: i in Listeners(h, key) <==> i in order
    ensures var ops := [Begin(key, ev)] + Turns(order);
            AllEnabled(h, ops, cap) && ApplyAll(h, ops, cap) == AfterBroadcast(h, key, ev, cap)
  {
    var ops := [Begin(key, ev)] + Turns(order);
    assert ops[0] == Begin(key, ev) && ops[1..] == Turns(order);
    var begun := Apply(h, ops[0], cap);
    assert begun.chans == Served(h.chans, {}, ev, cap);
    TurnsServe(begun, order, h.chans, {}, cap);
    assert {} + begun.busy.due == Listeners(h, key);
  }

  // Lifecycle of the channels.

  /** A channel is open exactly while it is subscribed, has never been sent to or
      closed when it was not, and holds no more than its capacity; after the end
      nobody is subscribed. */
  ghost predicate Safe<K, E>(h: Hub<K, E>, cap: nat) {
    && (forall id :: id in h.subs ==> id in h.chans)
    && (forall id :: id in h.chans ==>
          (h.chans[id].open <==> id in h.subs) && h.chans[id].faults == 0 && |h.chans[id].buf| <= cap)
    && (h.busy.Sending? ==> !h.stopped && forall id :: id in h.busy.due ==> id in h.subs)
    && (h.stopped ==> h.subs == map[])
  }

  lemma SafeStep<K, E>(h: Hub<K, E>, op: Op<K, E>, cap: nat)
    requires Safe(h, cap) && Enabled(h, op)
    ensures Safe(Apply(h, op, cap), cap)
  {}

  lemma BroadcastIsSafe<K, E>(h: Hub<K, E>, key: K, ev: E, cap: nat)
    requires Safe(h, cap) && h.busy.Idle?
    ensures Safe(AfterBroadcast(h, key, ev, cap), cap)
  {}

  lemma {:induction false} AlwaysSafe<K, E>(ops: seq<Op<K, E>>, cap: nat)
    requires Legal(ops, cap)
    ensures Safe(Run(ops, cap), cap)
  {
    if ops != [] {
      AlwaysSafe(ops[..|ops| - 1], cap);
      SafeStep(Run(ops[..|ops| - 1], cap), ops[|ops| - 1], cap);
    }
  }

  /** Once the events have ended nothing reopens: the hub stays stopped, everyone's
      channel is closed, and whoever subscribes later gets a closed channel. */
  lemma {:induction false} StoppedForGood<K, E>(ops: seq<Op<K, E>>, n: nat, cap: nat)
    requires Legal(ops, cap) && n <= |ops| && Legal(ops[..n], cap) && Run(ops[..n], cap).stopped
    ensures Run(ops, cap).stopped
    ensures forall id :: id in Run(ops, cap).chans ==> !Run(ops, cap).chans[id].open
  {
    AlwaysSafe(ops, cap);
    if n < |ops| {
      var before := ops[..|ops| - 1];
      assert before[..n] == ops[..n];
      StoppedForGood(before, n, cap);
    } else {
      assert ops[..n] == ops;
    }
  }

  // What a subscriber receives.

  /** `a` is `b` with some elements left out, in order. */
  ghost predicate Subsequence<E>(a: seq<E>, b: seq<E>) {
    if a == [] then true
    else if b == [] then false
    else (a[|a| - 1] == b[|b| - 1] && Subsequence(a[..|a| - 1], b[..|b| - 1])) || Subsequence(a, b[..|b| - 1])
  }

  lemma SubsequenceGrows<E>(a: seq<E>, b: seq<E>, x: E)
    requires Subsequence(a, b)
    ensures Subsequence(a, b + [x]) && Subsequence(a + [x], b + [x])
  {
    assert (b + [x])[..|b|] == b && (a + [x])[..|a|] == a;
  }

  function Last<K, E>(ops: seq<Op<K, E>>): Op<K, E>
    requires ops != []
  {
    ops[|ops| - 1]
  }

  function Init<K, E>(ops: seq<Op<K, E>>): seq<Op<K, E>>
    requires ops != []
  {
    ops[..|ops| - 1]
  }

  function HasRoom<K, E>(h: Hub<K, E>, id: nat, cap: nat): bool {
    id in h.chans && h.chans[id].open && |h.chans[id].buf| < cap
  }

  /** The events broadcast on the subscriber's key while it was subscribed. */
  function Pumped<K(==), E>(ops: seq<Op<K, E>>, id: nat, cap: nat): seq<E>
    requires Legal(ops, cap)
  {
    if ops == [] then []
    else
      var h := Run(Init(ops), cap);
      var op := Last(ops);
      Pumped(Init(ops), id, cap)
        + if op.Begin? && id in h.subs && h.subs[id] == op.key then [op.ev] else []
  }

  /** The events that reached the subscriber's turn. */
  function Offered<K(==), E>(ops: seq<Op<K, E>>, id: nat, cap: nat): seq<E>
    requires Legal(ops, cap)
  {
    if ops == [] then []
    else
      var h := Run(Init(ops), cap);
      Offered(Init(ops), id, cap) + if Last(ops) == Send(id) then [h.busy.ev] else []
  }

  /** ... and of those, the ones for which its own channel had a free slot. */
  function Accepted<K(==), E>(ops: seq<Op<K, E>>, id: nat, cap: nat): seq<E>
    requires Legal(ops, cap)
  {
    if ops == [] then []
    else
      var h := Run(Init(ops), cap);
      Accepted(Init(ops), id, cap) + if Last(ops) == Send(id) && HasRoom(h, id, cap) then [h.busy.ev] else []
  }

  function InFlight<K, E>(h: Hub<K, E>, id: nat): seq<E> {
    if h.busy.Sending? && id in h.busy.due then [h.busy.ev] else []
  }

  function DeliveredTo<K, E>(h: Hub<K, E>, id: nat): seq<E> {
    if id in h.chans then Delivered(h.chans[id]) else []
  }

  lemma DeliveryStep<K, E>(h: Hub<K, E>, op: Op<K, E>, id: nat, cap: nat)
    requires Safe(h, cap) && Enabled(h, op)
    ensures DeliveredTo(Apply(h, op, cap), id)
         == DeliveredTo(h, id) + if op == Send(id) && HasRoom(h, id, cap) then [h.busy.ev] else []
  {
    if op == Receive(id) && h.chans[id].buf != [] {
      var c := h.chans[id];
      assert c.buf == [c.buf[0]] + c.buf[1..];
    }
  }

  lemma {:induction false} DeliveredIsAccepted<K, E>(ops: seq<Op<K, E>>, id: nat, cap: nat)
    requires Legal(ops, cap)
    ensures DeliveredTo(Run(ops, cap), id) == Accepted(ops, id, cap)
  {
    if ops != [] {
      DeliveredIsAccepted(Init(ops), id, cap);
      AlwaysSafe(Init(ops), cap);
      DeliveryStep(Run(Init(ops), cap), Last(ops), id, cap);
    }
  }

  lemma TurnStep<K, E>(h: Hub<K, E>, op: Op<K, E>, id: nat, cap: nat)
    requires Safe(h, cap) && Enabled(h, op)
    ensures (if op == Send(id) then [h.busy.ev] else []) + InFlight(Apply(h, op, cap), id)
         == InFlight(h, id) + (if op.Begin? && id in h.subs && h.subs[id] == op.key then [op.ev] else [])
  {}

  /** Every event broadcast to a subscriber gets its turn, once and in order. */
  lemma {:induction false} EveryEventHasItsTurn<K, E>(ops: seq<Op<K, E>>, id: nat, cap: nat)
    requires Legal(ops, cap)
    ensures Offered(ops, id, cap) + InFlight(Run(ops, cap), id) == Pumped(ops, id, cap)
  {
    if ops != [] {
      var h := Run(Init(ops), cap);
      EveryEventHasItsTurn(Init(ops), id, cap);
      AlwaysSafe(Init(ops), cap);
      TurnStep(h, Last(ops), id, cap);
      Regroup(Offered(Init(ops), id, cap), if Last(ops) == Send(id) then [h.busy.ev] else [],
              InFlight(Run(ops, cap), id));
      Regroup(Offered(Init(ops), id, cap), InFlight(h, id),
              if Last(ops).Begin? && id in h.subs && h.subs[id] == Last(ops).key then [Last(ops).ev] else []);
    }
  }

  lemma Regroup<E>(a: seq<E>, b: seq<E>, c: seq<E>)
    ensures (a + b) + c == a + (b + c)
  {}

  lemma {:induction false} AcceptedIsSubsequence<K, E>(ops: seq<Op<K, E>>, id: nat, cap: nat)
    requires Legal(ops, cap)
    ensures Subsequence(Accepted(ops, id, cap), Offered(ops, id, cap))
  {
    if ops != [] {
      var a, b := Accepted(Init(ops), id, cap), Offered(Init(ops), id, cap);
      AcceptedIsSubsequence(Init(ops), id, cap);
      if Last(ops) == Send(id) {
        SubsequenceGrows(a, b, Run(Init(ops), cap).busy.ev);
      }
      assert a + [] == a && b + [] == b;
    }
  }

  /** What a subscriber has read, followed by what is queued for it, is an in-order
      subsequence of the events broadcast on its key while it was subscribed. */
  lemma Delivery<K, E>(ops: seq<Op<K, E>>, id: nat, cap: nat)
    requires Legal(ops, cap)
    ensures DeliveredTo(Run(ops, cap), id) == Accepted(ops, id, cap)
    ensures Subsequence(DeliveredTo(Run(ops, cap), id), Pumped(ops, id, cap))
  {
    hide *;
    DeliveredIsAccepted(ops, id, cap);
    AcceptedIsSubsequence(ops, id, cap);
    EveryEventHasItsTurn(ops, id, cap);
    SubsequenceOfLonger(Accepted(ops, id, cap), Offered(ops, id, cap), InFlight(Run(ops, cap), id));
  }

  lemma {:induction false} SubsequenceOfLonger<E>(a: seq<E>, b: seq<E>, more: seq<E>)
    requires Subsequence(a, b)
    ensures Subsequence(a, b + more)
    decreases |more|
  {
    hide Subsequence;
    if more == [] {
      assert b + more == b;
    } else {
      SubsequenceOfLonger(a, b, more[..|more| - 1]);
      SubsequenceGrows(a, b + more[..|more| - 1], more[|more| - 1]);
      assert b + more == (b + more[..|more| - 1]) + [more[|more| - 1]];
    }
  }

  /** Its own channel had a free slot whenever its turn came. */
  ghost predicate NeverFull<K, E>(ops: seq<Op<K, E>>, id: nat, cap: nat)
    requires Legal(ops, cap)
  {
    ops == [] || (NeverFull(Init(ops), id, cap) && (Last(ops) == Send(id) ==> HasRoom(Run(Init(ops), cap), id, cap)))
  }

  /** Nothing is lost exactly when the subscriber's own slots were never full. */
  lemma {:induction false} LosslessIffNeverFull<K, E>(ops: seq<Op<K, E>>, id: nat, cap: nat)
    requires Legal(ops, cap)
    ensures |Accepted(ops, id, cap)| <= |Offered(ops, id, cap)|
    ensures NeverFull(ops, id, cap) <==> Accepted(ops, id, cap) == Offered(ops, id, cap)
  {
    if ops != [] {
      LosslessIffNeverFull(Init(ops), id, cap);
      if Accepted(ops, id, cap) == Offered(ops, id, cap) {
        assert Accepted(ops, id, cap)[..|Accepted(Init(ops), id, cap)|] == Accepted(Init(ops), id, cap);
      }
    }
  }

  // How many channels one broadcast reaches.

  lemma {:induction false} LegalPrefix<K, E>(ops: seq<Op<K, E>>, n: nat, cap: nat)
    requires Legal(ops, cap) && n <= |ops|
    ensures Legal(ops[..n], cap)
  {
    if n == |ops| {
      assert ops[..n] == ops;
    } else {
      LegalPrefix(Init(ops), n, cap);
      assert Init(ops)[..n] == ops[..n];
    }
  }

  /** The n-th operation begins a broadcast that has not ended. */
  ghost predicate Broadcasting<K, E>(ops: seq<Op<K, E>>, n: nat) {
    0 < n <= |ops| && ops[n - 1].Begin? && forall k :: n <= k < |ops| ==> !ops[k].End?
  }

  /** The sends since then that found a free slot, which is what a publisher counts. */
  function AcceptedSince<K(==), E>(ops: seq<Op<K, E>>, n: nat, cap: nat): nat
    requires Legal(ops, cap) && n <= |ops|
  {
    if n == |ops| then 0
    else
      var op := Last(ops);
      AcceptedSince(Init(ops), n, cap) + if op.Send? && HasRoom(Run(Init(ops), cap), op.id, cap) then 1 else 0
  }

  /** The channels that have been given more than before. */
  ghost function Gained<K, E>(before: Hub<K, E>, after: Hub<K, E>): set<nat> {
    set id | id in before.chans && DeliveredTo(before, id) != DeliveredTo(after, id)
  }

  lemma KeysStep<K, E>(h: Hub<K, E>, op: Op<K, E>, cap: nat)
    requires Safe(h, cap) && Enabled(h, op) && h.busy.Sending? && !op.End?
    ensures var next := Apply(h, op, cap);
            && next.busy.Sending? && next.chans.Keys == h.chans.Keys && next.busy.due <= h.busy.due
            && (op.Send? ==> op.id in h.busy.due && op.id !in next.busy.due)
  {}

  lemma GainedStep<K, E>(before: Hub<K, E>, h: Hub<K, E>, op: Op<K, E>, cap: nat)
    requires Safe(h, cap) && Enabled(h, op) && h.busy.Sending? && !op.End? && h.chans.Keys == before.chans.Keys
    requires Gained(before, h) !! h.busy.due
    ensures var next := Apply(h, op, cap);
            && next.busy.Sending? && next.chans.Keys == before.chans.Keys && Gained(before, next) !! next.busy.due
            && Gained(before, next) == Gained(before, h) + (if op.Send? && HasRoom(h, op.id, cap) then {op.id} else {})
            && (op.Send? ==> op.id !in Gained(before, h))
  {
    hide DeliveredTo, Apply, Enabled, Safe;
    var next := Apply(h, op, cap);
    KeysStep(h, op, cap);
    forall id | id in before.chans
      ensures id in Gained(before, next) <==>
              id in Gained(before, h) || (op == Send(id) && HasRoom(h, id, cap))
    {
      DeliveryStep(h, op, id, cap);
      assert DeliveredTo(h, id) + [] == DeliveredTo(h, id);
    }
  }

  /** With any reads in between, the sends of one broadcast that are accepted are as
      many as the channels that gain by it, and each gains the one event. */
  lemma {:induction false} AcceptedAreGained<K, E>(ops: seq<Op<K, E>>, n: nat, cap: nat)
    requires Legal(ops, cap) && Broadcasting(ops, n)
    ensures Legal(ops[..n], cap) && Run(ops, cap).busy.Sending?
    ensures Run(ops, cap).chans.Keys == Run(ops[..n], cap).chans.Keys
    ensures Gained(Run(ops[..n], cap), Run(ops, cap)) !! Run(ops, cap).busy.due
    ensures |Gained(Run(ops[..n], cap), Run(ops, cap))| == AcceptedSince(ops, n, cap)
  {
    LegalPrefix(ops, n, cap);
    if n == |ops| {
      assert ops[..n] == ops;
      assert Gained(Run(ops, cap), Run(ops, cap)) == {};
    } else {
      assert Init(ops)[..n] == ops[..n];
      AcceptedAreGained(Init(ops), n, cap);
      AlwaysSafe(Init(ops), cap);
      GainedStep(Run(ops[..n], cap), Run(Init(ops), cap), Last(ops), cap);
      hide Gained, Safe, Apply, Enabled;
    }
  }

  // Independence of subscribers.

  /** The operations that concern one subscriber: the broadcasts, the end of the
      stream, and its own. */
  predicate Concerns<K, E>(op: Op<K, E>, id: nat) {
    match op
    case Begin(_, _) => true
    case End => true
    case Drain => true
    case Send(i) => i == id
    case Join(i, _) => i == id
    case Leave(i) => i == id
    case Receive(i) => i == id
  }

  function Own<K, E>(ops: seq<Op<K, E>>, id: nat): seq<Op<K, E>> {
    if ops == [] then []
    else Own(Init(ops), id) + if Concerns(Last(ops), id) then [Last(ops)] else []
  }

  /** The hub as this subscriber alone would have it. */
  ghost predicate Alike<K, E>(all: Hub<K, E>, own: Hub<K, E>, id: nat) {
    && own.stopped == all.stopped
    && (id in own.chans <==> id in all.chans)
    && (id in all.chans ==> own.chans[id] == all.chans[id])
    && (id in own.subs <==> id in all.subs)
    && (id in all.subs ==> own.subs[id] == all.subs[id])
    && (forall i :: i in own.subs ==> i == id)
    && (own.busy.Idle? <==> all.busy.Idle?)
    && (all.busy.Sending? ==> own.busy.ev == all.busy.ev && own.busy.due == all.busy.due * {id})
  }

  lemma AlikeOwn<K, E>(all: Hub<K, E>, own: Hub<K, E>, op: Op<K, E>, id: nat, cap: nat)
    requires Alike(all, own, id) && Enabled(all, op) && Concerns(op, id) && Safe(all, cap) && Safe(own, cap)
    ensures Enabled(own, op)
    ensures Alike(Apply(all, op, cap), Apply(own, op, cap), id)
  {}

  lemma AlikeOther<K, E>(all: Hub<K, E>, own: Hub<K, E>, op: Op<K, E>, id: nat, cap: nat)
    requires Alike(all, own, id) && Enabled(all, op) && !Concerns(op, id)
    ensures Alike(Apply(all, op, cap), own, id)
  {}

  /** What one subscriber gets does not depend on any other: leave every other
      subscriber's joins, leaves, turns and reads out of an execution, and what is
      left is an execution in which its channel is the same. */
  lemma {:induction false} Independence<K, E>(ops: seq<Op<K, E>>, id: nat, cap: nat)
    requires Legal(ops, cap)
    ensures Legal(Own(ops, id), cap)
    ensures Alike(Run(ops, cap), Run(Own(ops, id), cap), id)
  {
    if ops != [] {
      var before := Own(Init(ops), id);
      Independence(Init(ops), id, cap);
      AlwaysSafe(Init(ops), cap);
      AlwaysSafe(before, cap);
      if Concerns(Last(ops), id) {
        assert Init(before + [Last(ops)]) == before;
        AlikeOwn(Run(Init(ops), cap), Run(before, cap), Last(ops), id, cap);
      } else {
        assert before + [] == before;
        AlikeOther(Run(Init(ops), cap), Run(before, cap), Last(ops), id, cap);
      }
    }
  }
}
