/** Who owns an identifier: conservation of copies under any responses, exclusive ownership and the
    order of reuse under well-behaved ones. */
module Ledger {
  import opened Basics
  import opened Frames
  import opened Pool
  import opened Protocol

  /** The copies of an identifier: in the queue, in the sender's batch, and in flight. */
  ghost function Copies(s: State, id: Id): nat {
    multiset(s.pool.ids)[id] + multiset(s.pending)[id] + if id in s.pool.inFlight then 1 else 0
  }

  lemma {:induction false} FreeOnlyCounts(popped: seq<Id>, busy: set<Id>, id: Id)
    ensures multiset(FreeOnly(popped, busy))[id] == if id in busy then 0 else multiset(popped)[id]
  {
    if popped != [] {
      var init, last := popped[..|popped| - 1], popped[|popped| - 1];
      FreeOnlyCounts(init, busy, id);
      assert popped == init + [last];
      assert multiset(popped) == multiset(init) + multiset{last};
      if last in busy {
        assert FreeOnly(popped, busy) == FreeOnly(init, busy);
      }
    }
  }

  /** The batch keeps the order of the queue and tests each identifier by itself. */
  lemma {:induction false} FreeOnlySplits(a: seq<Id>, b: seq<Id>, busy: set<Id>)
    ensures FreeOnly(a + b, busy) == FreeOnly(a, busy) + FreeOnly(b, busy)
    ensures forall id :: FreeOnly([id], busy) == if id in busy then [] else [id]
  {
    forall id: Id
      ensures FreeOnly([id], busy) == if id in busy then [] else [id]
    {
      assert [id][..0] == [] && FreeOnly([], busy) == [];
    }
    if b == [] {
      assert a + b == a;
    } else {
      FreeOnlySplits(a, b[..|b| - 1], busy);
      assert (a + b)[..|a + b| - 1] == a + b[..|b| - 1];
    }
  }

  lemma CollectCopies(p: Pool, id: Id)
    ensures AfterPop(p, BATCH).inFlight == p.inFlight
    ensures multiset(AfterPop(p, BATCH).ids)[id] + multiset(Popped(p, BATCH))[id] == multiset(p.ids)[id]
    ensures multiset(Batch(p, BATCH))[id] == if id in p.inFlight then 0 else multiset(Popped(p, BATCH))[id]
  {
    assert p.ids == Popped(p, BATCH) + AfterPop(p, BATCH).ids;
    FreeOnlyCounts(Popped(p, BATCH), p.inFlight.Keys, id);
  }

  lemma ClearCopies(p: Pool, now: nat, timeout: nat, order: seq<Id>, id: Id)
    requires Lists(order, Expired(p, now, timeout))
    ensures var q := ClearExpired(p, order);
            multiset(q.ids)[id] + (if id in q.inFlight then 1 else 0)
            == multiset(p.ids)[id] + (if id in p.inFlight then 1 else 0)
  {
    ListsOnce(order, Expired(p, now, timeout));
  }

  ghost predicate Conserves(s: State, a: Action, id: Id) {
    && Copies(Step(s, a), id) + At(s, a, Dropped(id)) + At(s, a, Overwritten(id))
       == Copies(s, id) + At(s, a, Stray(id))
    && (Copies(s, id) >= 1 ==> Copies(Step(s, a), id) >= 1)
  }

  lemma CollectStep(s: State, id: Id)
    ensures Conserves(s, Collect, id)
  {
    hide AfterPop, Batch, Popped;
    CollectCopies(s.pool, id);
  }

  lemma InsertStep(s: State, len: nat, id: Id)
    ensures Conserves(s, Insert(len), id)
  {
    if s.pending != [] {
      FirstCopy(s.pending, id);
    }
  }

  lemma RecvStep(s: State, msg: seq<byte>, id: Id)
    ensures Conserves(s, Recv(msg), id)
  {
    hide OnFrame, Return;
    if Enabled(s, Recv(msg)) {
      ReturnCopies(s.pool, MsgId(msg), id);
    }
  }

  /** One action: copies are made only by stray frames and destroyed only by a discard or an overwrite,
      and neither destroys the last one. */
  lemma CopiesStep(s: State, a: Action, id: Id)
    ensures Conserves(s, a, id)
  {
    hide Conserves;
    match a
    case Collect => CollectStep(s, id);
    case Insert(len) => InsertStep(s, len, id);
    case Recv(msg) => RecvStep(s, msg, id);
    case DrainClear(order) => ClearStep(s, a, order, id);
    case CleanupTick(order) => ClearStep(s, a, order, id);
    case _ => OtherStep(s, a, id);
  }

  lemma OtherStep(s: State, a: Action, id: Id)
    requires !a.Collect? && !a.Insert? && !a.Recv? && !a.DrainClear? && !a.CleanupTick?
    ensures Conserves(s, a, id)
  {
    hide NextSnap;
    SnapKeeps(s);
  }

  lemma ClearStep(s: State, a: Action, order: seq<Id>, id: Id)
    requires a == DrainClear(order) || a == CleanupTick(order)
    ensures Conserves(s, a, id)
  {
    hide ClearExpired, Lists, Expired;
    if Enabled(s, a) {
      ClearCopies(s.pool, s.now, s.timeout, order, id);
    }
  }

  lemma FirstCopy(pending: seq<Id>, id: Id)
    requires pending != []
    ensures multiset(pending)[id] == multiset(pending[1..])[id] + if pending[0] == id then 1 else 0
  {
    assert pending == [pending[0]] + pending[1..];
  }

  lemma ReturnCopies(p: Pool, back: Id, id: Id)
    ensures multiset(Return(p, back).ids)[id] == multiset(p.ids)[id] + if back == id then 1 else 0
    ensures id in Return(p, back).inFlight <==> id in p.inFlight && id != back
  {
  }

  /** No identifier is ever lost, whatever responses arrive: the exact ledger of its copies. */
  lemma {:induction false} NoLeak(s: State, acts: seq<Action>, id: Id)
    ensures Copies(After(s, acts), id) + Tally(s, acts, Dropped(id)) + Tally(s, acts, Overwritten(id))
         == Copies(s, id) + Tally(s, acts, Stray(id))
    ensures Copies(s, id) >= 1 ==> Copies(After(s, acts), id) >= 1
  {
    if acts != [] {
      hide Copies, At, Step;
      var init, last := acts[..|acts| - 1], acts[|acts| - 1];
      NoLeak(s, init, id);
      CopiesStep(After(s, init), last, id);
    }
  }

  /** From the start: each of the shuffled identifiers has exactly one copy more than strays made and
      fewer than discards and overwrites destroyed, and always at least one; so an identifier is discarded
      or overwritten no more often than stray frames came for it. */
  lemma NoLeakFromStart(order: seq<Id>, timeout: nat, acts: seq<Action>, id: Id)
    requires IsShuffle(order)
    ensures var s := Init(order, timeout);
            && Copies(After(s, acts), id)
               == (if id < POOL_SIZE then 1 else 0) + Tally(s, acts, Stray(id))
                  - Tally(s, acts, Dropped(id)) - Tally(s, acts, Overwritten(id))
            && (id < POOL_SIZE ==> Copies(After(s, acts), id) >= 1)
            && Tally(s, acts, Dropped(id)) + Tally(s, acts, Overwritten(id)) <= Tally(s, acts, Stray(id))
  {
    InitCopies(order, timeout, id);
    NoLeak(Init(order, timeout), acts, id);
  }

  lemma InitCopies(order: seq<Id>, timeout: nat, id: Id)
    requires NoDuplicates(order)
    ensures Copies(Init(order, timeout), id) == if id in order then 1 else 0
  {
    ListsOnce(order, set i | i in order);
  }

  // ---------------------------------------------------------------- exclusive ownership

  /** Every identifier has at most one place: queue, batch or flight. */
  ghost predicate Exclusive(s: State) {
    forall id: Id :: Copies(s, id) <= 1
  }

  lemma InitExclusive(order: seq<Id>, timeout: nat)
    requires NoDuplicates(order)
    ensures Exclusive(Init(order, timeout))
  {
    forall id: Id
      ensures Copies(Init(order, timeout), id) <= 1
    {
      InitCopies(order, timeout, id);
    }
  }

  /** While responses only arrive for queries in flight, ownership stays exclusive, and nothing is ever
      discarded or overwritten. */
  lemma ExclusiveStays(s: State, acts: seq<Action>)
    requires Exclusive(s) && WellBehaved(s, acts)
    ensures Exclusive(After(s, acts))
    ensures forall id: Id :: Copies(After(s, acts), id) == Copies(s, id)
    ensures forall id: Id :: Tally(s, acts, Dropped(id)) == 0 && Tally(s, acts, Overwritten(id)) == 0
  {
    hide Copies, Tally;
    forall id: Id
      ensures Copies(After(s, acts), id) == Copies(s, id)
      ensures Tally(s, acts, Dropped(id)) == 0 && Tally(s, acts, Overwritten(id)) == 0
    {
      assert Tally(s, acts, Stray(id)) == 0;
      NoLeak(s, acts, id);
    }
  }

  lemma {:induction false} OverwritesOfEach(s: State, acts: seq<Action>)
    requires forall id: Id :: Tally(s, acts, Overwritten(id)) == 0
    ensures Tally(s, acts, Overwrites) == 0
  {
    if acts != [] {
      hide Step;
      var init, last := acts[..|acts| - 1], acts[|acts| - 1];
      var t := After(s, init);
      forall id: Id
        ensures Tally(s, init, Overwritten(id)) == 0 && At(t, last, Overwritten(id)) == 0
      {
        assert Tally(s, acts, Overwritten(id)) == 0;
      }
      OverwritesOfEach(s, init);
      if last.Insert? && Enabled(t, last) {
        assert At(t, last, Overwritten(t.pending[0])) == 0;
      }
    }
  }

  /** A well-behaved run overwrites no query. */
  lemma NoOverwrites(order: seq<Id>, timeout: nat, acts: seq<Action>)
    requires NoDuplicates(order)
    requires WellBehaved(Init(order, timeout), acts)
    ensures Tally(Init(order, timeout), acts, Overwrites) == 0
  {
    InitExclusive(order, timeout);
    ExclusiveStays(Init(order, timeout), acts);
    OverwritesOfEach(Init(order, timeout), acts);
  }

  /** The identifiers waiting to be sent, next one first. */
  function Queue(s: State): seq<Id> {
    s.pending + s.pool.ids
  }

  lemma QueueExclusive(s: State)
    requires Exclusive(s)
    ensures NoDuplicates(Queue(s))
    ensures forall id :: id in Queue(s) ==> id !in s.pool.inFlight
  {
    forall id | id in Queue(s)
      ensures multiset(Queue(s))[id] <= 1 && id !in s.pool.inFlight
    {
      assert Copies(s, id) <= 1;
    }
    NoDuplicatesFromCounts(Queue(s));
  }

  /** Queue, batch and flight partition the pool in every state a well-behaved run reaches. */
  lemma Partition(order: seq<Id>, timeout: nat, acts: seq<Action>)
    requires NoDuplicates(order)
    requires WellBehaved(Init(order, timeout), acts)
    ensures var s := After(Init(order, timeout), acts);
            && NoDuplicates(Queue(s))
            && (forall id :: id in Queue(s) ==> id !in s.pool.inFlight)
            && (forall id: Id :: id in order <==> id in Queue(s) || id in s.pool.inFlight)
            && |Queue(s)| + |s.pool.inFlight| == |order|
  {
    var s0 := Init(order, timeout);
    var s := After(s0, acts);
    forall id: Id
      ensures Copies(s0, id) == if id in order then 1 else 0
    {
      InitCopies(order, timeout, id);
    }
    ExclusiveStays(s0, acts);
    QueueExclusive(s);
    forall id: Id
      ensures id in order <==> id in Queue(s) || id in s.pool.inFlight
    {
      assert Copies(s, id) == Copies(s0, id);
    }
    PartitionSize(s, order);
  }

  lemma PartitionSize(s: State, order: seq<Id>)
    requires NoDuplicates(order) && NoDuplicates(Queue(s))
    requires forall id :: id in Queue(s) ==> id !in s.pool.inFlight
    requires forall id: Id :: id in order <==> id in Queue(s) || id in s.pool.inFlight
    ensures |Queue(s)| + |s.pool.inFlight| == |order|
  {
    var queued, all := set id | id in Queue(s), set id | id in order;
    ListsOnce(Queue(s), queued);
    ListsOnce(order, all);
    assert all == queued + s.pool.inFlight.Keys;
    assert queued !! s.pool.inFlight.Keys;
  }

  /** Ownership is exclusive throughout a run exactly when no stray frame arrives in it. */
  lemma ExclusiveIffWellBehaved(order: seq<Id>, timeout: nat, acts: seq<Action>)
    requires NoDuplicates(order)
    ensures (forall k, id: Id :: 0 <= k <= |acts| ==>
               Copies(After(Init(order, timeout), acts[..k]), id) == if id in order then 1 else 0)
       <==> WellBehaved(Init(order, timeout), acts)
  {
    var s := Init(order, timeout);
    if WellBehaved(s, acts) {
      forall k, id: Id | 0 <= k <= |acts|
        ensures Copies(After(s, acts[..k]), id) == if id in order then 1 else 0
      {
        assert acts == acts[..k] + acts[k..];
        WellBehavedParts(s, acts[..k], acts[k..]);
        InitExclusive(order, timeout);
        ExclusiveStays(s, acts[..k]);
        InitCopies(order, timeout, id);
      }
    }
    if forall k, id: Id :: 0 <= k <= |acts| ==> Copies(After(s, acts[..k]), id) == if id in order then 1 else 0 {
      forall id: Id
        ensures Tally(s, acts, Stray(id)) == 0
      {
        SteadyMeansNoStrays(s, acts, id, if id in order then 1 else 0);
      }
    }
  }

  lemma {:induction false} SteadyMeansNoStrays(s: State, acts: seq<Action>, id: Id, copies: nat)
    requires forall k :: 0 <= k <= |acts| ==> Copies(After(s, acts[..k]), id) == copies
    ensures Tally(s, acts, Stray(id)) == 0
  {
    if acts != [] {
      var n := |acts| - 1;
      var init, last := acts[..n], acts[n];
      forall k | 0 <= k <= n
        ensures Copies(After(s, init[..k]), id) == copies
      {
        assert init[..k] == acts[..k];
      }
      SteadyMeansNoStrays(s, init, id, copies);
      var t := After(s, init);
      assert acts[..n + 1] == acts;
      assert Copies(t, id) == copies && Copies(Step(t, last), id) == copies;
      CopiesStep(t, last, id);
    }
  }

  // ---------------------------------------------------------------- order of reuse

  /** The identifiers of the queries a run sends, in order. */
  ghost function Sent(s: State, acts: seq<Action>): seq<Id> {
    if acts == [] then []
    else
      var init, last := acts[..|acts| - 1], acts[|acts| - 1];
      var t := After(s, init);
      Sent(s, init) + if last.Insert? && Enabled(t, last) then [t.pending[0]] else []
  }

  /** The identifiers a run gives back, by response or time-out, in order. */
  ghost function Returned(s: State, acts: seq<Action>): seq<Id> {
    if acts == [] then []
    else
      var init, last := acts[..|acts| - 1], acts[|acts| - 1];
      var t := After(s, init);
      Returned(s, init)
      + if !Enabled(t, last) then [] else if last.Recv? then [MsgId(last.msg)] else ClearedBy(last)
  }

  lemma {:induction false} FreeOnlyAll(popped: seq<Id>, busy: set<Id>)
    requires forall id :: id in popped ==> id !in busy
    ensures FreeOnly(popped, busy) == popped
  {
    if popped != [] {
      FreeOnlyAll(popped[..|popped| - 1], busy);
    }
  }

  /** One action moves the queue only at its ends. */
  lemma QueueStep(s: State, a: Action)
    requires Exclusive(s)
    ensures var t := Step(s, a);
            var out := if a.Insert? && Enabled(s, a) then [s.pending[0]] else [];
            var back := if !Enabled(s, a) then [] else if a.Recv? then [MsgId(a.msg)] else ClearedBy(a);
            out + Queue(t) == Queue(s) + back
  {
    hide OnFrame, NextSnap, Lists, Expired, Exclusive;
    if Enabled(s, a) {
      match a
      case SnapStep => SnapKeeps(s);
      case Collect =>
        QueueExclusive(s);
        assert s.pool.ids == Popped(s.pool, BATCH) + AfterPop(s.pool, BATCH).ids;
        assert forall id :: id in Popped(s.pool, BATCH) ==> id in Queue(s);
        FreeOnlyAll(Popped(s.pool, BATCH), s.pool.inFlight.Keys);
      case Insert(_) => assert s.pending == [s.pending[0]] + s.pending[1..];
      case _ =>
    }
  }

  /** First in, first out: what a well-behaved run sends, followed by what still waits, is what waited
      at the start followed by what was given back. */
  lemma {:induction false} Fifo(s: State, acts: seq<Action>)
    requires Exclusive(s) && WellBehaved(s, acts)
    ensures Sent(s, acts) + Queue(After(s, acts)) == Queue(s) + Returned(s, acts)
  {
    if acts != [] {
      hide Queue, Step, Exclusive, Enabled, Tally, WellBehaved;
      var init, last := acts[..|acts| - 1], acts[|acts| - 1];
      assert acts == init + [last];
      WellBehavedParts(s, init, [last]);
      Fifo(s, init);
      ExclusiveStays(s, init);
      var t := After(s, init);
      QueueStep(t, last);
      var out := if last.Insert? && Enabled(t, last) then [t.pending[0]] else [];
      var back := if !Enabled(t, last) then [] else if last.Recv? then [MsgId(last.msg)] else ClearedBy(last);
      Splice(Sent(s, init), Queue(t), Queue(s), Returned(s, init), out, Queue(Step(t, last)), back);
    }
  }

  lemma Splice(sent: seq<Id>, queue: seq<Id>, start: seq<Id>, returned: seq<Id>,
               out: seq<Id>, queue': seq<Id>, back: seq<Id>)
    requires sent + queue == start + returned
    requires out + queue' == queue + back
    ensures (sent + out) + queue' == start + (returned + back)
  {
    assert (sent + out) + queue' == sent + (out + queue') == (sent + queue) + back;
  }

  /** What a queue position means: a well-behaved run sends the identifier at position p after exactly
      the p others before it. */
  lemma PositionIsDistance(s: State, acts: seq<Action>, p: nat)
    requires Exclusive(s) && WellBehaved(s, acts)
    requires p < |Queue(s)|
    ensures var sent, id := Sent(s, acts), Queue(s)[p];
            && (|sent| <= p ==> id !in sent && NoDuplicates(sent))
            && (|sent| > p ==> sent[..p] == Queue(s)[..p] && sent[p] == id
                               && id !in sent[..p] && NoDuplicates(sent[..p]))
  {
    hide Exclusive, WellBehaved, Sent, Returned, Queue;
    Fifo(s, acts);
    QueueExclusive(s);
    var sent, queue := Sent(s, acts), Queue(s);
    var all := queue + Returned(s, acts);
    assert all[..|sent|] == sent;
    if |sent| > p {
      assert sent[..p] == all[..p] == queue[..p];
      assert sent[p] == all[p];
    } else {
      assert sent == queue[..|sent|];
    }
  }

  /** Exact reuse distance: if a response is processed while k queries, its own among them, are in
      flight, its identifier is sent again after exactly N - k queries, all for distinct other ones. */
  lemma ReuseDistance(order: seq<Id>, timeout: nat, before: seq<Action>, msg: seq<byte>, later: seq<Action>)
    requires NoDuplicates(order)
    requires WellBehaved(Init(order, timeout), before + ([Recv(msg)] + later))
    requires Enabled(After(Init(order, timeout), before), Recv(msg))
    ensures var s := After(Init(order, timeout), before);
            var wait := |order| - |s.pool.inFlight|;
            var sent := Sent(Step(s, Recv(msg)), later);
            && wait >= 0
            && (|sent| <= wait ==> MsgId(msg) !in sent && NoDuplicates(sent))
            && (|sent| > wait ==> sent[wait] == MsgId(msg) && MsgId(msg) !in sent[..wait] && NoDuplicates(sent[..wait]))
  {
    hide Exclusive, WellBehaved, Sent, After, Step, Enabled, Queue, MsgId;
    var s0 := Init(order, timeout);
    var s := After(s0, before);
    var t := Step(s, Recv(msg));
    InitExclusive(order, timeout);
    WellBehavedParts(s0, before, [Recv(msg)] + later);
    WellBehavedParts(s, [Recv(msg)], later);
    JustOne(s, Recv(msg));
    ExclusiveStays(s0, before);
    ExclusiveStays(s, [Recv(msg)]);
    Partition(order, timeout, before);
    ReturnedLast(s, msg);
    PositionIsDistance(t, later, |Queue(s)|);
  }

  lemma JustOne(s: State, a: Action)
    ensures After(s, [a]) == Step(s, a)
  {
    AfterOne(s, [], a);
    assert [] + [a] == [a];
  }

  lemma ReturnedLast(s: State, msg: seq<byte>)
    requires Enabled(s, Recv(msg))
    ensures var u := Step(s, Recv(msg));
            && Queue(u) == Queue(s) + [MsgId(msg)]
            && |Queue(u)| == |Queue(s)| + 1 && Queue(u)[|Queue(s)|] == MsgId(msg)
  {
    hide OnFrame;
  }

  /** At the start: the whole shuffled pool is used, in its order, before any identifier is used twice. */
  lemma WholePoolFirst(order: seq<Id>, timeout: nat, acts: seq<Action>)
    requires NoDuplicates(order)
    requires WellBehaved(Init(order, timeout), acts)
    ensures var sent := Sent(Init(order, timeout), acts);
            sent[..Min(|sent|, |order|)] == order[..Min(|sent|, |order|)]
  {
    var s := Init(order, timeout);
    hide Exclusive, WellBehaved, Sent, Returned, After;
    InitExclusive(order, timeout);
    Fifo(s, acts);
    var sent := Sent(s, acts);
    var n := Min(|sent|, |order|);
    assert Queue(s) == order;
    assert sent[..n] == (sent + Queue(After(s, acts)))[..n] == (order + Returned(s, acts))[..n];
  }

  // ---------------------------------------------------------------- sharing

  /** A run of which only the first action reads a frame has sent the first k of `ids` and holds the next
      ones, up to m, in its batch. */
  ghost predicate Sending(s: State, acts: seq<Action>, ids: seq<Id>, k: nat, m: nat) {
    && k <= m <= |ids|
    && acts != [] && (forall a :: a in acts[1..] ==> a.Collect? || a.Insert? || a.Count?)
    && Sent(s, acts) == ids[..k]
    && Holding(After(s, acts), ids, k, m)
  }

  ghost predicate Holding(s: State, ids: seq<Id>, k: nat, m: nat)
    requires k <= m <= |ids|
  {
    && s.running && !s.uncounted && s.phase.Serving?
    && s.pending == ids[k..m] && s.pool.ids == ids[m..]
    && forall id: Id :: id in s.pool.inFlight <==> id in ids[..k]
  }

  lemma SendOne(s: State, ids: seq<Id>, k: nat, m: nat)
    requires k < m <= |ids| && Holding(s, ids, k, m)
    ensures Enabled(s, Insert(0)) && s.pending[0] == ids[k]
    ensures Holding(Step(Step(s, Insert(0)), Count), ids, k + 1, m)
  {
    assert ids[..k + 1] == ids[..k] + [ids[k]];
  }

  lemma CollectNext(s: State, ids: seq<Id>, k: nat)
    requires k <= |ids| && Holding(s, ids, k, k)
    requires forall i, j :: 0 <= i < k <= j < |ids| ==> ids[i] != ids[j]
    ensures Holding(Step(s, Collect), ids, k, Min(k + BATCH, |ids|))
  {
    var popped := Popped(s.pool, BATCH);
    assert popped == ids[k..Min(k + BATCH, |ids|)];
    FreeOnlyAll(popped, s.pool.inFlight.Keys);
  }

  /** Without responses, queries go out in queue order, batch after batch. */
  lemma {:induction false} SendFirst(s: State, acts: seq<Action>, ids: seq<Id>, k: nat, m: nat, n: nat)
    returns (all: seq<Action>, end: nat)
    requires Sending(s, acts, ids, k, m) && k <= n <= |ids|
    requires m % BATCH == 0 || m == |ids|
    requires forall i, j :: 0 <= i < n - 1 && i < j < |ids| ==> ids[i] != ids[j]
    ensures n <= end <= |ids| && (end % BATCH == 0 || end == |ids|)
    ensures all != [] && all[0] == acts[0] && Sending(s, all, ids, n, end)
    decreases n - k, |ids| - m
  {
    hide Step, Enabled, Holding, After, Sent;
    if k == n {
      all, end := acts, m;
    } else if k < m {
      var t := After(s, acts);
      SendOne(t, ids, k, m);
      NextSent(s, acts, Insert(0));
      NextSent(s, acts + [Insert(0)], Count);
      assert ids[..k + 1] == ids[..k] + [ids[k]];
      all, end := SendFirst(s, acts + [Insert(0)] + [Count], ids, k + 1, m, n);
    } else {
      CollectNext(After(s, acts), ids, k);
      NextSent(s, acts, Collect);
      all, end := SendFirst(s, acts + [Collect], ids, k, Min(k + BATCH, |ids|), n);
    }
  }

  lemma NextSent(s: State, acts: seq<Action>, a: Action)
    ensures After(s, acts + [a]) == Step(After(s, acts), a)
    ensures Sent(s, acts + [a])
         == Sent(s, acts) + if a.Insert? && Enabled(After(s, acts), a) then [After(s, acts).pending[0]] else []
    ensures !a.Insert? ==> Sent(s, acts + [a]) == Sent(s, acts)
    ensures acts != [] ==> (acts + [a])[1..] == acts[1..] + [a]
  {
    assert (acts + [a])[..|acts|] == acts;
  }

  lemma {:induction false} NoFramesNoStrays(s: State, acts: seq<Action>, id: Id)
    requires forall a :: a in acts ==> !a.Recv?
    ensures Tally(s, acts, Stray(id)) == 0
  {
    if acts != [] {
      NoFramesNoStrays(s, acts[..|acts| - 1], id);
    }
  }

  lemma {:induction false} DenseSize(all: set<Id>, n: nat)
    requires n <= 0x1_0000 && forall id: Id :: id in all <==> id < n
    ensures |all| == n
  {
    if n == 0 {
      assert all == {};
    } else {
      DenseSize(all - {n - 1}, n - 1);
      assert all == (all - {n - 1}) + {n - 1};
    }
  }

  lemma ShuffleSize(order: seq<Id>)
    requires IsShuffle(order)
    ensures |order| == POOL_SIZE
  {
    var all := set id | id in order;
    DenseSize(all, POOL_SIZE);
    ListsOnce(order, all);
  }

  lemma StrayFirst(order: seq<Id>, timeout: nat, id: Id)
    ensures var s, a := Init(order, timeout), Recv(Bare(id));
            && Sending(s, [a], order + [id], 0, 0)
            && Tally(s, [a], Stray(id)) == 1
  {
    var s, a := Init(order, timeout), Recv(Bare(id));
    assert MsgId(Bare(id)) == id;
    assert [a][..0] == [] && [] + [a] == [a];
    NextSent(s, [], a);
  }

  /** Without that assumption two queries go out under one identifier: from every shuffle, one stray frame
      for its last identifier puts a second copy into the sender's last batch, and after the whole pool the
      sender uses that identifier again, overwriting the query it stands for. */
  lemma StrayFrameShares(order: seq<Id>, timeout: nat) returns (acts: seq<Action>)
    requires IsShuffle(order)
    ensures |order| == POOL_SIZE
    ensures var s, id := Init(order, timeout), order[POOL_SIZE - 1];
            && acts != [] && acts[0] == Recv(Bare(id))
            && (forall a :: a in acts[1..] ==> a.Collect? || a.Insert? || a.Count?)
            && Tally(s, acts, Stray(id)) == 1
            && Sent(s, acts) == order + [id]
            && Tally(s, acts, Overwritten(id)) == 1
  {
    hide Step, Enabled, Holding, After, Sent, Tally, At, Init, Copies, MsgId;
    ShuffleSize(order);
    var s, id := Init(order, timeout), order[POOL_SIZE - 1];
    var ids := order + [id];
    StrayFirst(order, timeout, id);
    var whole, end := SendFirst(s, [Recv(Bare(id))], ids, 0, 0, POOL_SIZE);
    var t := After(s, whole);
    acts := whole + [Insert(0)];
    LastOverwrites(t, ids, POOL_SIZE);
    NextSent(s, whole, Insert(0));
    TallyLast(s, whole, Insert(0), Overwritten(id));
    assert acts == [acts[0]] + acts[1..];
    TallyAppend(s, [acts[0]], acts[1..], Stray(id));
    NoFramesNoStrays(After(s, [acts[0]]), acts[1..], id);
    NoLeakFromStart(order, timeout, acts, id);
  }

  lemma LastOverwrites(s: State, ids: seq<Id>, k: nat)
    requires |ids| == k + 1 && Holding(s, ids, k, k + 1) && ids[k] in ids[..k]
    ensures Enabled(s, Insert(0)) && s.pending[0] == ids[k] && At(s, Insert(0), Overwritten(ids[k])) == 1
  {
  }

  lemma TallyLast(s: State, acts: seq<Action>, a: Action, e: Event)
    ensures Tally(s, acts + [a], e) == Tally(s, acts, e) + At(After(s, acts), a, e)
  {
    assert (acts + [a])[..|acts|] == acts;
  }
}
