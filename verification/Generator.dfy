/** The tasks of one generator as objects over the shared store, each stretch between two awaits a method
    proved against the function the state machine uses for it. */
module Generator {
  import opened Basics
  import opened Frames
  import opened StatsModel
  import opened Pool
  import opened Stats
  import Protocol

  /** `Sender::run`, sending over TCP. */
  class Sender {
    const store: Store
    const atomicStore: AtomicStore
    const socket: TcpWriter
    var pending: seq<Id>
    var uncounted: bool

    constructor (store: Store, atomicStore: AtomicStore, socket: TcpWriter)
      ensures this.store == store && this.atomicStore == atomicStore && this.socket == socket
      ensures pending == [] && !uncounted
    {
      this.store, this.atomicStore, this.socket := store, atomicStore, socket;
      pending, uncounted := [], false;
    }

    /** Pops up to `num` identifiers, keeping those not in flight. */
    method CollectBatch(num: nat)
      modifies this`pending, store`ids
      ensures store.Value() == AfterPop(old(store.Value()), num)
      ensures pending == Batch(old(store.Value()), num)
    {
      pending := [];
      ghost var ids := store.ids;
      for k := 0 to num
        invariant store.ids == ids[Min(k, |ids|)..]
        invariant pending == FreeOnly(ids[..Min(k, |ids|)], store.inFlight.Keys)
      {
        if store.ids != [] {
          var id := store.ids[0];
          assert ids[..k + 1][..k] == ids[..k];
          store.ids := store.ids[1..];
          if id !in store.inFlight {
            pending := pending + [id];
          } else {
            assert pending + [] == pending;
          }
        }
      }
    }

    /** Records the next query as in flight and writes it out. */
    method SendNext(msg: seq<byte>, now: nat)
      requires pending != [] && !uncounted
      modifies this, store`inFlight, socket
      ensures store.Value() == Launch(old(store.Value()), old(pending)[0], QueryInfo(now, |msg|))
      ensures store.inFlight == old(store.inFlight)[old(pending)[0] := QueryInfo(now, |msg|)]
      ensures pending == old(pending)[1..] && uncounted
      ensures socket.written == old(socket.written) + Frame(msg)
    {
      store.inFlight := store.inFlight[pending[0] := QueryInfo(now, |msg|)];
      socket.Send(msg);
      pending, uncounted := pending[1..], true;
    }

    method CountSent()
      requires uncounted
      modifies this`uncounted, atomicStore`sent
      ensures atomicStore.sent == old(atomicStore.sent) + 1 && !uncounted
    {
      atomicStore.sent := atomicStore.sent + 1;
      uncounted := false;
    }
  }

  /** `time::interval(Duration::from_millis(10))` in `wait_in_flight`. */
  const DRAIN_TICK: nat := 10_000_000

  /** What the clock reads around one turn of the final wait: at the cleanup task's ticks since the turn
      before, at the turn's own clearing, and at its check of the time waited. */
  datatype Turn = Turn(cleanups: seq<nat>, clearAt: nat, checkAt: nat)

  /** Clocks do not run backwards and ticks, which count from when the interval was made at `base`, do not
      come early. */
  ghost predicate InOrder(base: nat, start: nat, turns: nat -> Turn) {
    && base <= start <= turns(0).clearAt
    && (forall k: nat :: base + k * DRAIN_TICK <= turns(k).clearAt <= turns(k).checkAt)
    && (forall k: nat :: turns(k).clearAt <= turns(k + 1).clearAt)
    && (forall k: nat, i :: 0 <= i < |turns(k).cleanups| ==> turns(k).cleanups[i] <= turns(k).clearAt)
  }

  /** What is in flight of `p` once everything expired at `now` is gone. */
  function Younger(p: Pool, now: nat, timeout: nat): map<Id, QueryInfo> {
    p.inFlight - Expired(p, now, timeout)
  }

  /** Whether a turn ends the wait that found `p` in the store: nothing is left, or the timeout is over. */
  ghost predicate EndsWait(p: Pool, turn: Turn, start: nat, timeout: nat) {
    Younger(p, turn.clearAt, timeout) == map[] || turn.checkAt - start > timeout
  }

  /** `Generator::run` and its helpers. */
  class Generator {
    const store: Store
    const stats: StatsTracker
    const timeout: nat
    var lastLog: nat
    var duration: nat

    constructor (store: Store, stats: StatsTracker, timeout: nat)
      ensures this.store == store && this.stats == stats && this.timeout == timeout
      ensures lastLog == 0 && duration == 0
    {
      this.store, this.stats, this.timeout := store, stats, timeout;
      lastLog, duration := 0, 0;
    }

    /** One item of the reader: a frame, or an error that is only counted. */
    method OnItem(frame: Option<seq<byte>>, now: nat)
      requires frame.Some? ==> |frame.value| >= 2
      requires frame.Some? && MsgId(frame.value) in store.inFlight ==> |frame.value| >= 4
      modifies store, stats
      ensures frame.None? ==>
                store.Value() == old(store.Value()) && stats.Value() == old(stats.Value()).(recv := old(stats.recv) + 1)
      ensures frame.Some? ==>
                && store.Value() == Return(old(store.Value()), MsgId(frame.value))
                && stats.Value() == Protocol.OnFrame(old(stats.Value()), old(store.Value()), now, frame.value)
      ensures forall id: Id, rest: seq<byte> :: frame == Some(Bare(id) + rest) ==>
                && store.ids == old(store.ids) + [id] && store.inFlight == old(store.inFlight) - {id}
                && stats.recv == old(stats.recv) + 1
                && stats.okRecv == old(stats.okRecv) + if id in old(store.inFlight) then 1 else 0
    {
      forall id: Id, rest: seq<byte> | frame == Some(Bare(id) + rest)
        ensures MsgId(frame.value) == id
      {
        IdComesFirst(frame.value, id, rest);
      }
      if frame.Some? {
        var id := MsgId(frame.value);
        store.ids := store.ids + [id];
        if id in store.inFlight {
          var info := store.inFlight[id];
          store.inFlight := store.inFlight - {id};
          stats.Update(now, info.sent, info.len, frame.value);
        }
        assert store.inFlight == old(store.inFlight) - {id};
      }
      stats.CountFrame();
    }

    /** A report, each second and once more at the end: what it says, and what it leaves behind. */
    method MakeReport(now: nat, last: bool, gap1: Gap, gap2: Gap, gap3: Gap) returns (interval: Interval)
      modifies this, stats, stats.atomicStore
      ensures interval == Report(old(stats.Value()), old(stats.atomicStore.sent) + gap1.sent,
                                 old(stats.atomicStore.timedOut),
                                 Protocol.Since(now, old(lastLog)),
                                 old(duration) + Protocol.Since(now, old(lastLog)), |store.inFlight|)
      ensures stats.Value() == AfterReport(old(stats.Value()))
      ensures stats.atomicStore.sent == gap3.sent && stats.atomicStore.timedOut == 0
      ensures lastLog == if last then old(lastLog) else now
      ensures duration == old(duration) + Protocol.Since(now, old(lastLog))
    {
      var elapsed := if now >= lastLog then now - lastLog else 0;
      duration := duration + elapsed;
      if !last {
        lastLog := now;
      }
      interval := stats.Snapshot(elapsed, duration, |store.inFlight|, gap1, gap2, gap3);
    }

    /** One tick of the cleanup task. */
    method Cleanup(now: nat) returns (order: seq<Id>)
      modifies store, stats.atomicStore
      ensures Lists(order, Expired(old(store.Value()), now, timeout))
      ensures store.Value() == ClearExpired(old(store.Value()), order)
      ensures stats.atomicStore.timedOut == old(stats.atomicStore.timedOut) + |order|
    {
      order := store.ClearTimeouts(now, timeout, stats.atomicStore);
    }

    /** The final wait, from `start`: it ends at the first turn that empties the store or finds the timeout
        over, within (timeout + start - base) / 10ms + 2 turns; whatever the interleaving with the cleanup task,
        each query leaving flight went back to the queue once and was counted once; what remains is exactly what was
        younger than the timeout at the last clearing. */
    method WaitInFlight(base: nat, start: nat, turns: nat -> Turn) returns (used: nat, back: seq<Id>)
      requires InOrder(base, start, turns)
      modifies store, stats.atomicStore
      ensures 1 <= used <= (timeout + (start - base)) / DRAIN_TICK + 2
      ensures GaveBack(old(store.Value()), store.Value(), back)
      ensures stats.atomicStore.timedOut == old(stats.atomicStore.timedOut) + |back|
      ensures store.inFlight == Younger(old(store.Value()), turns(used - 1).clearAt, timeout)
      ensures forall k: nat :: k < used ==>
                (k == used - 1 <==> EndsWait(old(store.Value()), turns(k), start, timeout))
    {
      ghost var most := (timeout + (start - base)) / DRAIN_TICK + 2;
      used, back := 0, [];
      var waiting := true;
      while waiting
        invariant used <= most
        invariant waiting ==> used <= most - 1
        invariant GaveBack(old(store.Value()), store.Value(), back)
        invariant stats.atomicStore.timedOut == old(stats.atomicStore.timedOut) + |back|
        invariant used > 0 ==>
                    forall id :: id in back ==> turns(used - 1).clearAt - old(store.inFlight)[id].sent >= timeout
        invariant used == 0 ==> waiting && back == []
        invariant used > 0 ==> store.inFlight == Younger(old(store.Value()), turns(used - 1).clearAt, timeout)
        invariant forall k: nat :: k < used ==>
                    (!waiting && k == used - 1 <==> EndsWait(old(store.Value()), turns(k), start, timeout))
        decreases most - used
      {
        var turn := turns(used);
        assert used > 0 ==> turns(used - 1).clearAt <= turns(used - 1 + 1).clearAt;
        for i := 0 to |turn.cleanups|
          invariant GaveBack(old(store.Value()), store.Value(), back)
          invariant stats.atomicStore.timedOut == old(stats.atomicStore.timedOut) + |back|
          invariant forall id :: id in back ==> turn.clearAt - old(store.inFlight)[id].sent >= timeout
        {
          var swept := ClearAt(turn.cleanups[i], turn.clearAt, old(store.Value()), back);
          back := back + swept;
        }
        var swept := ClearAt(turn.clearAt, turn.clearAt, old(store.Value()), back);
        back := back + swept;
        waiting := store.inFlight != map[] && turn.checkAt - start <= timeout;
        assert base + used * DRAIN_TICK <= turn.checkAt;
        used := used + 1;
      }
    }

    /** One clearing within the wait, at `now`, before an instant `limit`. */
    method ClearAt(now: nat, limit: nat, ghost initial: Pool, ghost back: seq<Id>) returns (swept: seq<Id>)
      requires now <= limit
      requires GaveBack(initial, store.Value(), back)
      requires forall id :: id in back ==> limit - initial.inFlight[id].sent >= timeout
      modifies store, stats.atomicStore
      ensures GaveBack(initial, store.Value(), back + swept)
      ensures forall id :: id in back + swept ==> limit - initial.inFlight[id].sent >= timeout
      ensures now == limit ==> store.inFlight == Younger(initial, now, timeout)
      ensures stats.atomicStore.timedOut == old(stats.atomicStore.timedOut) + |swept|
    {
      swept := store.ClearTimeouts(now, timeout, stats.atomicStore);
      SweepMore(initial, old(store.Value()), back, now, limit, timeout, swept);
    }
  }

  lemma SweepMore(p: Pool, q: Pool, back: seq<Id>, now: nat, limit: nat, timeout: nat, more: seq<Id>)
    requires now <= limit
    requires GaveBack(p, q, back)
    requires Lists(more, Expired(q, now, timeout))
    requires forall id :: id in back ==> limit - p.inFlight[id].sent >= timeout
    ensures GaveBack(p, ClearExpired(q, more), back + more)
    ensures forall id :: id in back + more ==> id in p.inFlight && limit - p.inFlight[id].sent >= timeout
    ensures now == limit ==> ClearExpired(q, more).inFlight == Younger(p, now, timeout)
  {
    GaveBackExpired(q, now, timeout, more);
    GaveBackMore(p, q, ClearExpired(q, more), back, more);
    if now == limit {
      var r := ClearExpired(q, more);
      forall id: Id
        ensures id in r.inFlight <==> id in Younger(p, now, timeout)
      {
        if id in p.inFlight && now - p.inFlight[id].sent >= timeout && id !in back {
          assert id in Expired(q, now, timeout);
        }
      }
    }
  }

  /** When the clearing and the check of the last turn read the same instant, the wait leaves nothing in
      flight that was sent before it began. */
  lemma OneInstantEmpties(p: Pool, start: nat, at: nat, timeout: nat)
    requires forall id :: id in p.inFlight ==> p.inFlight[id].sent <= start
    requires at - start > timeout
    ensures Younger(p, at, timeout) == map[]
  {
    assert forall id :: id in p.inFlight ==> id in Expired(p, at, timeout);
  }

  /** The source reads the clock twice, though: a query sent as the wait begins survives it exactly when
      the last clearing reads less than a timeout and the check right after it reads more. */
  lemma TwoReadingsLeave(id: Id, start: nat, turn: Turn, timeout: nat)
    requires start <= turn.clearAt <= turn.checkAt
    ensures var p := Pool([], map[id := QueryInfo(start, 0)]);
            Younger(p, turn.clearAt, timeout) != map[] && turn.checkAt - start > timeout
            <==> turn.clearAt - start < timeout < turn.checkAt - start
  {
    var p := Pool([], map[id := QueryInfo(start, 0)]);
    assert id in Younger(p, turn.clearAt, timeout) <==> turn.clearAt - start < timeout;
    assert forall i :: i in Younger(p, turn.clearAt, timeout) ==> i == id;
  }
}
