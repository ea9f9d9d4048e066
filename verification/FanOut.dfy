/** A continuous query's fan-out to its subscribers, and the registry of queries. */
module FanOut {
  import opened Broadcast
  import opened Decimal
  import opened Wrappers

  const CAPACITY := 32

  /** All subscribers of a query listen to the one stream. */
  datatype Stream = TheStream

  class ContQuery<E> {
    var subs: set<nat>
    var chans: map<nat, Chan<E>>
    var stopped: bool
    var next: nat

    ghost function View(): Hub<Stream, E>
      reads this
    {
      Hub(map id | id in subs :: TheStream, chans, stopped, Idle)
    }

    ghost predicate Valid()
      reads this
    {
      Safe(View(), CAPACITY) && forall id :: id in chans ==> id < next
    }

    constructor ()
      ensures Valid() && View() == Empty()
    {
      subs, chans, stopped, next := {}, map[], false, 0;
    }

    /** The pump's critical section for one event: every subscriber is offered it,
        and a full one is skipped. */
    method PumpOne(ev: E)
      requires Valid() && !stopped
      modifies this
      ensures Valid()
      ensures View() == AfterBroadcast(old(View()), TheStream, ev, CAPACITY)
    {
      ghost var h := View();
      ghost var before := chans;
      var todo := subs;
      ghost var all := todo;
      assert all == Listeners(h, TheStream);
      assert chans == Served(before, {}, ev, CAPACITY);
      assert {} == all - todo;
      assert forall id :: id in all ==> id in before;
      BroadcastIsSafe(h, TheStream, ev, CAPACITY);
      hide Served, Safe, Listeners;
      while todo != {}
        invariant todo <= all && subs == old(subs) && stopped == old(stopped) && next == old(next)
        invariant chans == Served(before, all - todo, ev, CAPACITY)
        decreases todo
      {
        var id :| id in todo;
        ServeOne(before, all - todo, id, ev, CAPACITY);
        chans := chans[id := Offer(chans[id], ev, CAPACITY)];
        assert all - (todo - {id}) == all - todo + {id};
        todo := todo - {id};
      }
      assert all - todo == all;
      ServedKeys(before, all, ev, CAPACITY);
    }

    /** The loop of Finish over the subscribers. */
    method CloseSubs()
      requires forall id :: id in subs ==> id in chans
      modifies this`subs, this`chans
      ensures subs == {} && chans == ClosedSome(old(chans), old(subs))
    {
      ghost var before, all := chans, subs;
      assert chans == ClosedSome(before, {}) && all - subs == {};
      hide ClosedSome;
      while subs != {}
        invariant subs <= all && chans == ClosedSome(before, all - subs)
        decreases subs
      {
        var id :| id in subs;
        CloseOne(before, all - subs, id);
        chans := chans[id := Close(chans[id])];
        assert all - (subs - {id}) == all - subs + {id};
        subs := subs - {id};
      }
      assert all - subs == all;
    }

    /** The pump's last critical section, once the event stream has ended. */
    method Finish()
      requires Valid() && !stopped
      modifies this
      ensures Valid() && stopped
      ensures View() == Apply(old(View()), Drain, CAPACITY)
    {
      ghost var h := View();
      SafeStep(h, Drain, CAPACITY);
      DrainClosesAll(h, chans, subs);
      hide Apply, Safe, ClosedSome;
      stopped := true;
      CloseSubs();
      assert View().subs == map[];
    }

    method Subscribe() returns (id: nat)
      requires Valid()
      modifies this
      ensures Valid() && id !in old(chans) && id in chans
      ensures View() == Apply(old(View()), Join(id, TheStream), CAPACITY)
    {
      id := next;
      ghost var h := View();
      SafeStep(h, Join(id, TheStream), CAPACITY);
      next := next + 1;
      chans := chans[id := Fresh()];
      if stopped {
        chans := chans[id := Close(chans[id])];
      } else {
        subs := subs + {id};
      }
      assert View() == Apply(h, Join(id, TheStream), CAPACITY);
    }

    method Unsubscribe(id: nat)
      requires Valid()
      modifies this
      ensures Valid()
      ensures View() == Apply(old(View()), Leave(id), CAPACITY)
    {
      ghost var h := View();
      SafeStep(h, Leave(id), CAPACITY);
      if id in subs {
        subs := subs - {id};
        chans := chans[id := Close(chans[id])];
      }
      assert View() == Apply(h, Leave(id), CAPACITY);
    }

    /** The status shown to clients: the end of the events overrides what the
        engine's handle, if there is one, reports. */
    method Status(handle: Option<string>) returns (s: string)
      ensures stopped ==> s == "stopped"
      ensures !stopped ==> s == match handle case Some(h) => h case None => "running"
    {
      if stopped {
        return "stopped";
      }
      match handle {
        case Some(h) => return h;
        case None => return "running";
      }
    }
  }

  lemma ServedKeys<E>(chans: map<nat, Chan<E>>, served: set<nat>, ev: E, cap: nat)
    ensures Served(chans, served, ev, cap).Keys == chans.Keys
  {}

  function ClosedSome<E>(chans: map<nat, Chan<E>>, closed: set<nat>): map<nat, Chan<E>> {
    map id | id in chans :: if id in closed then Close(chans[id]) else chans[id]
  }

  lemma CloseOne<E>(chans: map<nat, Chan<E>>, closed: set<nat>, id: nat)
    requires id in chans && id !in closed
    ensures id in ClosedSome(chans, closed) && ClosedSome(chans, closed)[id] == chans[id]
    ensures ClosedSome(chans, closed + {id}) == ClosedSome(chans, closed)[id := Close(chans[id])]
  {}

  lemma DrainClosesAll<E>(h: Hub<Stream, E>, chans: map<nat, Chan<E>>, all: set<nat>)
    requires Safe(h, CAPACITY) && h.busy.Idle? && !h.stopped && chans == h.chans && all == h.subs.Keys
    ensures Apply(h, Drain, CAPACITY) == Hub(map[], ClosedSome(chans, all), true, Idle)
    ensures ClosedSome(chans, {}) == chans
    ensures ClosedSome(chans, all).Keys == chans.Keys
    ensures forall id :: id in all ==> id in chans
  {
    assert CloseAll(h) == ClosedSome(chans, all);
  }

  lemma IdsDiffer(m: nat, n: nat)
    requires m != n
    ensures "q" + Itoa(m) != "q" + Itoa(n)
  {
    assert ("q" + Itoa(m))[1..] == Itoa(m) && ("q" + Itoa(n))[1..] == Itoa(n);
    if Itoa(m) == Itoa(n) {
      ItoaInjective(m, n);
    }
  }

  /** The registry of running queries: ids are numbered and never given twice. */
  class Registry<Q> {
    var queries: map<string, Q>
    var nextID: nat
    ghost var issued: seq<string>

    ghost predicate Valid()
      reads this
    {
      && |issued| == nextID
      && (forall k :: 0 <= k < nextID ==> issued[k] == "q" + Itoa(k + 1))
      && (forall id :: id in queries ==> id in issued)
    }

    constructor ()
      ensures Valid() && issued == [] && queries == map[]
    {
      queries, nextID, issued := map[], 0, [];
    }

    method Register(q: Q) returns (id: string)
      requires Valid()
      modifies this
      ensures Valid() && id !in old(issued) && issued == old(issued) + [id]
      ensures queries == old(queries)[id := q]
    {
      hide Itoa;
      nextID := nextID + 1;
      id := "q" + Itoa(nextID);
      forall k | 0 <= k < |issued| ensures issued[k] != id {
        IdsDiffer(k + 1, nextID);
      }
      queries := queries[id := q];
      issued := issued + [id];
    }

    method Get(id: string) returns (q: Option<Q>)
      ensures q == if id in queries then Some(queries[id]) else None
    {
      if id in queries {
        return Some(queries[id]);
      }
      return None;
    }

    method Remove(id: string)
      requires Valid()
      modifies this
      ensures Valid() && issued == old(issued)
      ensures queries == old(queries) - {id}
    {
      queries := queries - {id};
    }
  }
}
