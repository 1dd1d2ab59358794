/** `bin/src/store.rs`: the identifiers that may be used next, the queries in flight, and the two
    counters shared without a lock. */
module Pool {
  import opened Basics

  datatype QueryInfo = QueryInfo(sent: nat, len: nat)

  /** The contents of a `Store`. */
  datatype Pool = Pool(ids: seq<Id>, inFlight: map<Id, QueryInfo>)

  /** The identifiers whose query is at least `timeout` old. */
  function Expired(p: Pool, now: nat, timeout: nat): set<Id> {
    set id | id in p.inFlight && now - p.inFlight[id].sent >= timeout
  }

  /** Expired queries go back to the end of the queue, in the order the map yielded them. */
  function ClearExpired(p: Pool, order: seq<Id>): Pool {
    Pool(p.ids + order, p.inFlight - (set id | id in order))
  }

  /** The sender's batch: up to `num` identifiers leave the queue; those in flight are discarded. */
  function FreeOnly(popped: seq<Id>, busy: set<Id>): seq<Id> {
    if popped == [] then []
    else
      var last := popped[|popped| - 1];
      FreeOnly(popped[..|popped| - 1], busy) + if last in busy then [] else [last]
  }

  function Popped(p: Pool, num: nat): seq<Id> {
    p.ids[..Min(num, |p.ids|)]
  }

  function AfterPop(p: Pool, num: nat): Pool {
    p.(ids := p.ids[Min(num, |p.ids|)..])
  }

  function Batch(p: Pool, num: nat): seq<Id> {
    FreeOnly(Popped(p, num), p.inFlight.Keys)
  }

  function Launch(p: Pool, id: Id, info: QueryInfo): Pool {
    p.(inFlight := p.inFlight[id := info])
  }

  /** A response frees its identifier whether or not a query was waiting for it. */
  function Return(p: Pool, id: Id): Pool {
    Pool(p.ids + [id], p.inFlight - {id})
  }

  /** `(0..u16::max_value())` leaves out 65535. */
  const POOL_SIZE: nat := 0xFFFF

  ghost predicate IsShuffle(order: seq<Id>) {
    && NoDuplicates(order)
    && (forall id: Id :: id in order <==> id < POOL_SIZE)
  }

  /** `q` is `p` after exactly these queries left flight and went back to the queue, each once. */
  ghost predicate GaveBack(p: Pool, q: Pool, back: seq<Id>) {
    && q.ids == p.ids + back
    && q.inFlight == p.inFlight - (set id | id in back)
    && NoDuplicates(back)
    && forall id :: id in back ==> id in p.inFlight
  }

  lemma GaveBackNothing(p: Pool)
    ensures GaveBack(p, p, [])
  {
  }

  lemma GaveBackMore(p: Pool, q: Pool, r: Pool, back: seq<Id>, more: seq<Id>)
    requires GaveBack(p, q, back) && GaveBack(q, r, more)
    ensures GaveBack(p, r, back + more)
    ensures forall id :: id in more ==> id !in back && q.inFlight[id] == p.inFlight[id]
  {
    var first, second := set id | id in back, set id | id in more;
    assert p.ids + back + more == p.ids + (back + more);
    assert (set id | id in back + more) == first + second;
    assert p.inFlight - first - second == p.inFlight - (first + second);
    forall id | id in more
      ensures id !in back && id in p.inFlight
    {
      assert id in q.inFlight;
    }
    NoDuplicatesAppend(back, more);
  }

  lemma GaveBackExpired(p: Pool, now: nat, timeout: nat, order: seq<Id>)
    requires Lists(order, Expired(p, now, timeout))
    ensures GaveBack(p, ClearExpired(p, order), order)
  {
  }

  lemma GaveBackAll(p: Pool, q: Pool, back: seq<Id>)
    requires GaveBack(p, q, back) && q.inFlight == map[]
    ensures Lists(back, p.inFlight.Keys)
  {
    forall id | id in p.inFlight
      ensures id in back
    {
      assert id !in q.inFlight;
    }
  }

  /** Increments other tasks make to the two atomics between two accesses. */
  datatype Gap = Gap(sent: nat, timedOut: nat)

  class AtomicStore {
    var sent: nat
    var timedOut: nat

    constructor ()
      ensures sent == 0 && timedOut == 0
    {
      sent, timedOut := 0, 0;
    }

    /** The two stores of zero, with what other tasks add in between. */
    method Reset(between: Gap)
      modifies this
      ensures sent == between.sent && timedOut == 0
    {
      sent := 0;
      Others(between);
      timedOut := 0;
    }

    method Others(gap: Gap)
      modifies this
      ensures sent == old(sent) + gap.sent && timedOut == old(timedOut) + gap.timedOut
    {
      sent := sent + gap.sent;
      timedOut := timedOut + gap.timedOut;
    }
  }

  class Store {
    var ids: seq<Id>
    var inFlight: map<Id, QueryInfo>

    ghost function Value(): Pool
      reads this
    {
      Pool(ids, inFlight)
    }

    /** The shuffle may produce any order. */
    constructor (shuffled: seq<Id>)
      requires IsShuffle(shuffled)
      ensures Value() == Pool(shuffled, map[])
    {
      ids := shuffled;
      inFlight := map[];
    }

    method ClearTimeouts(now: nat, timeout: nat, atomicStore: AtomicStore) returns (order: seq<Id>)
      modifies this, atomicStore
      ensures Lists(order, Expired(old(Value()), now, timeout))
      ensures Value() == ClearExpired(old(Value()), order)
      ensures atomicStore.timedOut == old(atomicStore.timedOut) + |order|
      ensures atomicStore.sent == old(atomicStore.sent)
    {
      order := [];
      var todo := inFlight.Keys;
      while todo != {}
        invariant todo <= old(inFlight.Keys)
        invariant ids == old(ids) && unchanged(atomicStore)
        invariant Lists(order, Expired(old(Value()), now, timeout) - todo)
        invariant inFlight == old(inFlight) - (set id | id in order)
        decreases todo
      {
        var id :| id in todo;
        assert id !in order;
        if now - inFlight[id].sent >= timeout {
          order := order + [id];
          inFlight := inFlight - {id};
        }
        todo := todo - {id};
      }
      atomicStore.timedOut := atomicStore.timedOut + |order|;
      ids := ids + order;
    }
  }
}
