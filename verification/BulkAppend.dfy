/** The bulk append: a batch of observations added to a collection's trips in one
    transaction. */
module BulkAppend {
  import opened Wrappers

  type Place(==)

  datatype Fix = Fix(t: int, place: Place)

  /** One observation; without a fix when the store cannot read its time or shape. */
  datatype Observation = Observation(id: string, fix: Option<Fix>)

  type Trip = seq<Fix>

  type Table = map<string, Trip>

  datatype Problem = Unavailable | Unreadable | OutOfOrder

  // What a batch is to do.

  ghost predicate Increasing(s: Trip) {
    forall i, j :: 0 <= i < j < |s| ==> s[i].t < s[j].t
  }

  /** Every feature has a trip with at least one fix, in strictly increasing time. */
  ghost predicate ValidTable(t: Table) {
    forall id :: id in t ==> t[id] != [] && Increasing(t[id])
  }

  function TripOf(t: Table, id: string): Trip {
    if id in t then t[id] else []
  }

  ghost predicate Readable(obs: seq<Observation>) {
    forall k :: 0 <= k < |obs| ==> obs[k].fix.Some?
  }

  function Ids(obs: seq<Observation>): set<string> {
    set k | 0 <= k < |obs| :: obs[k].id
  }

  /** A feature's own fixes, in batch order. */
  function Own(obs: seq<Observation>, id: string): Trip {
    if obs == [] then []
    else
      var last := obs[|obs| - 1];
      Own(obs[..|obs| - 1], id) + if last.id == id && last.fix.Some? then [last.fix.value] else []
  }

  /** Every observation can be read, and every feature's own ones continue its trip
      in strictly increasing time. */
  ghost predicate Appendable(t: Table, obs: seq<Observation>) {
    Readable(obs) && forall id :: id in Ids(obs) ==> Increasing(TripOf(t, id) + Own(obs, id))
  }

  /** The table u is t with every observation added to its feature's trip. */
  ghost predicate Appended(t: Table, obs: seq<Observation>, u: Table) {
    u.Keys == t.Keys + Ids(obs) && forall id :: id in u ==> u[id] == TripOf(t, id) + Own(obs, id)
  }

  function NewIds(t: Table, obs: seq<Observation>): set<string> {
    Ids(obs) - t.Keys
  }

  // The store.

  /** Where the store fails for reasons of its own. */
  datatype Outages = Outages(begin: bool, update: nat -> bool, insert: nat -> bool, commit: bool)

  ghost predicate Undisturbed(out: Outages, t: Table, obs: seq<Observation>) {
    !out.begin && !out.commit
    && forall k :: 0 <= k < |obs| ==> Answers(out, t, obs, k)
  }

  /** The statements for the k-th observation get through: its UPDATE, and for the
      first of a new feature its INSERT. */
  ghost predicate Answers(out: Outages, t: Table, obs: seq<Observation>, k: nat)
    requires k < |obs|
  {
    !out.update(k) && (obs[k].id !in t && obs[k].id !in Ids(obs[..k]) ==> !out.insert(k))
  }

  class Database {
    var table: Table

    constructor (t: Table)
      ensures table == t
    {
      table := t;
    }
  }

  /** A transaction works on its own copy until it commits. */
  class Transaction {
    const db: Database
    var work: Table

    constructor (db: Database)
      ensures this.db == db && work == db.table
    {
      this.db := db;
      work := db.table;
    }

    /** UPDATE … SET trip = appendInstant(trip, fix) WHERE id = id. */
    method Extend(id: string, fix: Option<Fix>, down: bool) returns (r: Result<nat, Problem>)
      requires ValidTable(work)
      modifies this`work
      ensures r.Success? ==> !down && fix.Some? && r.value == if id in old(work) then 1 else 0
      ensures r == Success(1) ==> Increasing(old(work)[id] + [fix.value])
      ensures r == Success(1) ==> work == old(work)[id := old(work)[id] + [fix.value]]
      ensures r != Success(1) ==> work == old(work)
      ensures r == Failure(Unavailable) <==> down
      ensures r == Failure(Unreadable) <==> !down && fix.None?
      ensures r == Failure(OutOfOrder) ==> fix.Some? && id in old(work) && !Increasing(old(work)[id] + [fix.value])
    {
      if down {
        return Failure(Unavailable);
      }
      if fix.None? {
        return Failure(Unreadable);
      }
      if id !in work {
        return Success(0);
      }
      var trip := work[id];
      var next := trip + [fix.value];
      if fix.value.t <= trip[|trip| - 1].t {
        assert !Increasing(next) by {
          assert next[|trip| - 1].t >= next[|trip|].t;
        }
        return Failure(OutOfOrder);
      }
      work := work[id := next];
      return Success(1);
    }

    /** INSERT INTO … (id, trip) VALUES (id, fix). */
    method Create(id: string, fix: Fix, down: bool) returns (r: Result<(), Problem>)
      requires id !in work
      modifies this`work
      ensures r == if down then Failure(Unavailable) else Success(())
      ensures work == if down then old(work) else old(work)[id := [fix]]
    {
      if down {
        return Failure(Unavailable);
      }
      work := work[id := [fix]];
      return Success(());
    }

    method Commit(down: bool) returns (r: Result<(), Problem>)
      modifies db
      ensures r == if down then Failure(Unavailable) else Success(())
      ensures db.table == if down then old(db.table) else work
    {
      if down {
        return Failure(Unavailable);
      }
      db.table := work;
      return Success(());
    }
  }

  /** Adds a batch in one transaction: all of it, or none. */
  method AppendBatch(db: Database, obs: seq<Observation>, out: Outages) returns (r: Result<(nat, nat), Problem>)
    requires ValidTable(db.table)
    modifies db
    ensures r.Success? <==> Appendable(old(db.table), obs) && Undisturbed(out, old(db.table), obs)
    ensures r.Success? ==> Appended(old(db.table), obs, db.table) && ValidTable(db.table)
    ensures r.Success? ==> r.value.0 == |NewIds(old(db.table), obs)| && r.value.0 + r.value.1 == |obs|
    ensures r.Failure? ==> db.table == old(db.table)
    ensures r.Failure? && r.error != Unavailable ==> !Appendable(old(db.table), obs)
    ensures r == Failure(OutOfOrder) ==> exists k :: 0 <= k < |obs| && FirstOutOfOrder(old(db.table), obs, k)
  {
    hide Appendable, Appended, Increasing, Own, Ids, NewIds, ValidTable, FirstOutOfOrder;
    if out.begin {
      return Failure(Unavailable);
    }
    var tx := new Transaction(db);
    ghost var t := db.table;
    var created, extended := 0, 0;
    NothingYet(t, obs);
    for k := 0 to |obs|
      invariant db.table == t && tx.db == db && fresh(tx)
      invariant Appendable(t, obs[..k]) && Appended(t, obs[..k], tx.work) && ValidTable(tx.work)
      invariant created == |NewIds(t, obs[..k])| && created + extended == k
      invariant forall j :: 0 <= j < k ==> Answers(out, t, obs, j)
    {
      var o := obs[k];
      Standing(t, obs, k, tx.work);
      if o.fix.None? {
        AppendableReads(t, obs, k);
      } else {
        Refused(t, obs, k, tx.work);
        TakeNext(t, obs, k, tx.work);
      }
      CountNext(t, obs, k, tx.work);
      assert obs[k] == o && (Undisturbed(out, t, obs) ==> Answers(out, t, obs, k));
      assert o.fix.None? ==> !Appendable(t, obs);
      var hit := tx.Extend(o.id, o.fix, out.update(k));
      if hit.Failure? {
        assert hit.error == Unavailable ==> !Undisturbed(out, t, obs);
        assert hit.error == OutOfOrder ==> FirstOutOfOrder(t, obs, k) && !Appendable(t, obs);
        return Failure(hit.error);
      }
      if hit.value > 0 {
        extended := extended + 1;
        continue;
      }
      var made := tx.Create(o.id, o.fix.value, out.insert(k));
      FirstFix(o.fix.value);
      if made.Failure? {
        return Failure(made.error);
      }
      created := created + 1;
    }
    assert obs[..|obs|] == obs;
    var done := tx.Commit(out.commit);
    if done.Failure? {
      return Failure(done.error);
    }
    return Success((created, extended));
  }

  /** The k-th observation is the first that does not come after all its feature has. */
  ghost predicate FirstOutOfOrder(t: Table, obs: seq<Observation>, k: nat)
    requires k < |obs|
  {
    Appendable(t, obs[..k]) && Readable(obs[..k + 1])
    && !Increasing(TripOf(t, obs[k].id) + Own(obs[..k + 1], obs[k].id))
  }

  // The lemmas the loop needs.

  lemma {:induction false} OwnPrefix(obs: seq<Observation>, k: nat, id: string)
    requires k <= |obs|
    ensures |Own(obs[..k], id)| <= |Own(obs, id)| && Own(obs, id)[..|Own(obs[..k], id)|] == Own(obs[..k], id)
    decreases |obs|
  {
    if k == |obs| {
      assert obs[..k] == obs;
    } else {
      OwnPrefix(obs[..|obs| - 1], k, id);
      assert obs[..|obs| - 1][..k] == obs[..k];
    }
  }

  lemma OwnNext(obs: seq<Observation>, k: nat, id: string)
    requires k < |obs|
    ensures Own(obs[..k + 1], id) ==
            Own(obs[..k], id) + if obs[k].id == id && obs[k].fix.Some? then [obs[k].fix.value] else []
  {
    assert obs[..k + 1][..k] == obs[..k];
  }

  lemma IdsNext(obs: seq<Observation>, k: nat)
    requires k < |obs|
    ensures Ids(obs[..k + 1]) == Ids(obs[..k]) + {obs[k].id}
  {
    var a, b := obs[..k], obs[..k + 1];
    forall id ensures id in Ids(b) <==> id in Ids(a) || id == obs[k].id {
      if id in Ids(b) && id != obs[k].id {
        var j :| 0 <= j < |b| && b[j].id == id;
        assert a[j].id == id;
      }
      if id in Ids(a) {
        var j :| 0 <= j < |a| && a[j].id == id;
        assert b[j].id == id;
      }
      assert b[k].id == obs[k].id;
    }
  }

  lemma IncreasingPrefix(s: Trip, n: nat)
    requires n <= |s| && Increasing(s)
    ensures Increasing(s[..n])
  {}

  /** A prefix of an appendable batch is appendable. */
  lemma AppendablePrefix(t: Table, obs: seq<Observation>, k: nat)
    requires k <= |obs| && Appendable(t, obs)
    ensures Appendable(t, obs[..k])
  {
    forall id | id in Ids(obs[..k]) ensures Increasing(TripOf(t, id) + Own(obs[..k], id)) {
      var j :| 0 <= j < k && obs[j].id == id;
      assert id in Ids(obs);
      OwnPrefix(obs, k, id);
      var s := TripOf(t, id) + Own(obs, id);
      var n := |TripOf(t, id)| + |Own(obs[..k], id)|;
      IncreasingPrefix(s, n);
      assert s[..n] == TripOf(t, id) + Own(obs[..k], id);
    }
  }

  lemma {:induction false} OwnOfStranger(obs: seq<Observation>, id: string)
    requires id !in Ids(obs)
    ensures Own(obs, id) == []
  {
    if obs != [] {
      var n := |obs| - 1;
      assert obs[..n + 1] == obs;
      IdsNext(obs, n);
      OwnOfStranger(obs[..n], id);
      assert obs[n].id in Ids(obs);
    }
  }

  lemma FirstFix(f: Fix)
    ensures Increasing([f]) && [] + [f] == [f]
  {}

  lemma NothingYet(t: Table, obs: seq<Observation>)
    ensures Appendable(t, obs[..0]) && Appended(t, obs[..0], t) && |NewIds(t, obs[..0])| == 0
  {
    assert Ids(obs[..0]) == {};
    assert NewIds(t, obs[..0]) == {};
    assert forall id :: Own(obs[..0], id) == [];
  }

  /** Where the k-th observation finds its feature. */
  lemma Standing(t: Table, obs: seq<Observation>, k: nat, w: Table)
    requires k < |obs| && Appended(t, obs[..k], w)
    ensures obs[k].id in w <==> obs[k].id in t || obs[k].id in Ids(obs[..k])
    ensures TripOf(w, obs[k].id) == TripOf(t, obs[k].id) + Own(obs[..k], obs[k].id)
  {
    if obs[k].id !in Ids(obs[..k]) {
      OwnOfStranger(obs[..k], obs[k].id);
    }
  }

  lemma AppendableReads(t: Table, obs: seq<Observation>, k: nat)
    requires k < |obs| && obs[k].fix.None?
    ensures !Appendable(t, obs)
  {}

  lemma ReadableNext(obs: seq<Observation>, k: nat)
    requires k < |obs| && Readable(obs[..k]) && obs[k].fix.Some?
    ensures Readable(obs[..k + 1])
  {
    assert forall j :: 0 <= j < k ==> obs[..k + 1][j] == obs[..k][j];
  }

  /** A fix that is not after all of its feature's trip cannot be taken. */
  lemma Refused(t: Table, obs: seq<Observation>, k: nat, w: Table)
    requires k < |obs| && Appendable(t, obs[..k]) && obs[k].fix.Some?
    requires TripOf(w, obs[k].id) == TripOf(t, obs[k].id) + Own(obs[..k], obs[k].id)
    ensures !Increasing(TripOf(w, obs[k].id) + [obs[k].fix.value]) ==>
              !Appendable(t, obs) && FirstOutOfOrder(t, obs, k)
  {
    var id := obs[k].id;
    ReadableNext(obs, k);
    OwnNext(obs, k, id);
    var next := TripOf(w, id) + [obs[k].fix.value];
    assert TripOf(t, id) + Own(obs[..k + 1], id) == next;
    IdsNext(obs, k);
    if Appendable(t, obs) {
      AppendablePrefix(t, obs, k + 1);
      assert Increasing(next);
    }
  }

  lemma OneMore(a: set<string>, b: set<string>, x: string, known: set<string>)
    requires b == a + {x}
    ensures |b - known| == |a - known| + if x in known || x in a then 0 else 1
  {
    if x in known || x in a {
      assert b - known == a - known;
    } else {
      assert b - known == (a - known) + {x};
    }
  }

  lemma CountNext(t: Table, obs: seq<Observation>, k: nat, w: Table)
    requires k < |obs|
    requires obs[k].id in w <==> obs[k].id in t || obs[k].id in Ids(obs[..k])
    ensures |NewIds(t, obs[..k + 1])| == |NewIds(t, obs[..k])| + if obs[k].id in w then 0 else 1
  {
    IdsNext(obs, k);
    OneMore(Ids(obs[..k]), Ids(obs[..k + 1]), obs[k].id, t.Keys);
  }

  /** Taking it is one more observation of the batch done. */
  lemma TakeNext(t: Table, obs: seq<Observation>, k: nat, w: Table)
    requires k < |obs| && Appendable(t, obs[..k]) && Appended(t, obs[..k], w) && obs[k].fix.Some?
    requires TripOf(w, obs[k].id) == TripOf(t, obs[k].id) + Own(obs[..k], obs[k].id)
    ensures var next := TripOf(w, obs[k].id) + [obs[k].fix.value];
            Increasing(next) ==>
              Appendable(t, obs[..k + 1]) && Appended(t, obs[..k + 1], w[obs[k].id := next])
              && (ValidTable(w) ==> ValidTable(w[obs[k].id := next]))
  {
    var o := obs[k];
    var next := TripOf(w, o.id) + [o.fix.value];
    ReadableNext(obs, k);
    IdsNext(obs, k);
    forall id
      ensures TripOf(t, id) + Own(obs[..k + 1], id)
              == if id == o.id then next else TripOf(t, id) + Own(obs[..k], id)
    {
      OwnNext(obs, k, id);
    }
    TakeTable(t, obs[..k], obs[..k + 1], o.id, next, w);
  }

  lemma TakeTable(t: Table, a: seq<Observation>, b: seq<Observation>, id: string, next: Trip, w: Table)
    requires Appendable(t, a) && Appended(t, a, w) && Readable(b) && Ids(b) == Ids(a) + {id}
    requires forall i :: TripOf(t, i) + Own(b, i) == if i == id then next else TripOf(t, i) + Own(a, i)
    requires next != []
    ensures Increasing(next) ==> Appendable(t, b) && Appended(t, b, w[id := next])
                                 && (ValidTable(w) ==> ValidTable(w[id := next]))
  {
    hide Own, Ids, TripOf, Increasing;
    assert w[id := next].Keys == t.Keys + Ids(b);
  }

  // What a batch means for the next one.

  /** A batch settles every feature's trip. */
  lemma OneResult(t: Table, obs: seq<Observation>, u: Table, v: Table)
    requires Appended(t, obs, u) && Appended(t, obs, v)
    ensures u == v
  {
    assert forall id :: id in u ==> u[id] == v[id];
  }

  lemma {:induction false} OwnOfBoth(a: seq<Observation>, b: seq<Observation>, id: string)
    ensures Own(a + b, id) == Own(a, id) + Own(b, id)
    decreases |b|
  {
    if b == [] {
      assert a + b == a;
    } else {
      var n := |b| - 1;
      assert (a + b)[..|a + b| - 1] == a + b[..n];
      OwnOfBoth(a, b[..n], id);
    }
  }

  lemma IdsOfBoth(a: seq<Observation>, b: seq<Observation>)
    ensures Ids(a + b) == Ids(a) + Ids(b)
  {
    forall id ensures id in Ids(a + b) <==> id in Ids(a) || id in Ids(b) {
      if id in Ids(a) {
        var k :| 0 <= k < |a| && a[k].id == id;
        assert (a + b)[k].id == id;
      }
      if id in Ids(b) {
        var k :| 0 <= k < |b| && b[k].id == id;
        assert (a + b)[|a| + k].id == id;
      }
    }
  }

  lemma ReadableBoth(a: seq<Observation>, b: seq<Observation>)
    ensures Readable(a + b) <==> Readable(a) && Readable(b)
  {
    assert forall k :: 0 <= k < |a| ==> (a + b)[k] == a[k];
    assert forall k :: 0 <= k < |b| ==> (a + b)[|a| + k] == b[k];
  }

  /** The trip the second batch finds. */
  lemma BetweenBatches(t: Table, a: seq<Observation>, b: seq<Observation>, u: Table, id: string)
    requires Appended(t, a, u)
    ensures TripOf(t, id) + Own(a + b, id) == TripOf(u, id) + Own(b, id)
    ensures id !in Ids(a) ==> TripOf(u, id) == TripOf(t, id)
  {
    hide Own, Ids;
    OwnOfBoth(a, b, id);
    if id !in Ids(a) {
      OwnOfStranger(a, id);
    }
    assert TripOf(u, id) == TripOf(t, id) + Own(a, id);
  }

  lemma AppendedTwice(t: Table, a: seq<Observation>, b: seq<Observation>, u: Table, v: Table)
    requires Appended(t, a, u)
    ensures Appended(t, a + b, v) <==> Appended(u, b, v)
  {
    IdsOfBoth(a, b);
    forall id ensures TripOf(t, id) + Own(a + b, id) == TripOf(u, id) + Own(b, id) {
      BetweenBatches(t, a, b, u, id);
    }
    hide Own, Ids, TripOf;
    assert t.Keys + Ids(a + b) == u.Keys + Ids(b);
  }

  lemma AppendableTwice(t: Table, a: seq<Observation>, b: seq<Observation>, u: Table)
    requires Appendable(t, a) && Appended(t, a, u)
    ensures Appendable(t, a + b) <==> Appendable(u, b)
  {
    hide Own, Ids, TripOf, Increasing, Readable;
    IdsOfBoth(a, b);
    ReadableBoth(a, b);
    forall id
      ensures TripOf(t, id) + Own(a + b, id) == TripOf(u, id) + Own(b, id)
      ensures id in Ids(a) && id !in Ids(b) ==> Increasing(TripOf(t, id) + Own(a + b, id))
    {
      BetweenBatches(t, a, b, u, id);
      if id in Ids(a) && id !in Ids(b) {
        OwnOfBoth(a, b, id);
        OwnOfStranger(b, id);
        assert Own(a, id) + [] == Own(a, id);
      }
    }
  }

  lemma CountTwice(t: Table, a: seq<Observation>, b: seq<Observation>, u: Table)
    requires u.Keys == t.Keys + Ids(a)
    ensures |NewIds(t, a + b)| == |NewIds(t, a)| + |NewIds(u, b)|
  {
    hide Ids;
    IdsOfBoth(a, b);
    Split(Ids(a), Ids(b), t.Keys);
  }

  lemma Split(a: set<string>, b: set<string>, known: set<string>)
    ensures |(a + b) - known| == |a - known| + |b - (known + a)|
  {
    assert (a + b) - known == (a - known) + (b - (known + a));
  }

  /** A batch in two parts is taken, and adds, what the whole would. */
  lemma TwoBatches(t: Table, a: seq<Observation>, b: seq<Observation>, u: Table, v: Table)
    requires Appendable(t, a) && Appended(t, a, u)
    ensures Appendable(t, a + b) <==> Appendable(u, b)
    ensures Appended(t, a + b, v) <==> Appended(u, b, v)
    ensures |NewIds(t, a + b)| == |NewIds(t, a)| + |NewIds(u, b)|
  {
    hide Own, Ids, TripOf, Increasing, Readable, NewIds, Appendable;
    AppendableTwice(t, a, b, u);
    AppendedTwice(t, a, b, u, v);
    CountTwice(t, a, b, u);
  }

  lemma {:induction false} OwnInhabited(obs: seq<Observation>, id: string)
    requires Readable(obs)
    ensures id in Ids(obs) <==> Own(obs, id) != []
  {
    if obs != [] {
      var n := |obs| - 1;
      OwnInhabited(obs[..n], id);
      assert obs[..n + 1] == obs;
      IdsNext(obs, n);
    }
  }

  /** Only the order among a feature's own observations matters. */
  lemma OrderBetweenFeatures(t: Table, a: seq<Observation>, b: seq<Observation>, u: Table)
    requires Readable(a) && Readable(b) && forall id :: Own(a, id) == Own(b, id)
    ensures Appendable(t, a) <==> Appendable(t, b)
    ensures Appended(t, a, u) <==> Appended(t, b, u)
    ensures Appended(t, a, u) ==> forall v :: Appended(t, b, v) ==> v == u
    ensures NewIds(t, a) == NewIds(t, b)
  {
    forall id ensures id in Ids(a) <==> id in Ids(b) {
      OwnInhabited(a, id);
      OwnInhabited(b, id);
    }
    assert Ids(a) == Ids(b);
    if Appended(t, a, u) {
      forall v | Appended(t, b, v) ensures v == u {
        OneResult(t, b, u, v);
      }
    }
  }
}
