/** Time: how old a query in flight can get while the cleanup task keeps its deadlines, and how the
    final wait empties the store. */
module Timing {
  import opened Basics
  import opened StatsModel
  import opened Pool
  import opened Protocol
  import opened Books
  import Ledger

  // ---------------------------------------------------------------- age

  /** Whatever is in flight was sent less than two timeouts before the next cleanup deadline. */
  ghost predicate Young(s: State) {
    && s.timeout > 0
    && s.due <= s.now + s.timeout
    && forall id :: id in s.pool.inFlight ==>
         s.pool.inFlight[id].sent <= s.now && s.due < s.pool.inFlight[id].sent + 2 * s.timeout
  }

  lemma ClearLeaves(p: Pool, now: nat, timeout: nat, order: seq<Id>, id: Id)
    requires Lists(order, Expired(p, now, timeout))
    ensures id in ClearExpired(p, order).inFlight <==> id in p.inFlight && now - p.inFlight[id].sent < timeout
    ensures id in ClearExpired(p, order).inFlight ==> ClearExpired(p, order).inFlight[id] == p.inFlight[id]
  {
  }

  lemma YoungClear(s: State, order: seq<Id>)
    requires Young(s) && Lists(order, Expired(s.pool, s.now, s.timeout))
    ensures Young(Clear(s, order))
    ensures s.now >= s.due ==> Young(Clear(s, order).(due := s.due + s.timeout))
  {
    hide ClearExpired, Expired, Lists;
    forall id | id in ClearExpired(s.pool, order).inFlight
      ensures id in s.pool.inFlight && ClearExpired(s.pool, order).inFlight[id] == s.pool.inFlight[id]
      ensures s.now - s.pool.inFlight[id].sent < s.timeout
    {
      ClearLeaves(s.pool, s.now, s.timeout, order, id);
    }
  }

  lemma YoungStep(s: State, a: Action)
    requires Young(s)
    ensures Young(Step(s, a))
  {
    hide NextSnap, OnFrame, ClearExpired, Batch, Lists, Expired;
    if Enabled(s, a) {
      match a
      case DrainClear(order) => YoungClear(s, order);
      case CleanupTick(order) => YoungClear(s, order);
      case SnapStep => SnapKeeps(s);
      case _ =>
    }
  }

  lemma TimeoutStays(s: State, a: Action)
    ensures Step(s, a).timeout == s.timeout
  {
    hide NextSnap, OnFrame, ClearExpired, Batch, AfterPop, Launch, Return, Lists, Expired;
    SnapKeeps(s);
  }

  lemma {:induction false} AlwaysYoung(order: seq<Id>, timeout: nat, acts: seq<Action>)
    requires timeout > 0
    ensures Young(After(Init(order, timeout), acts)) && After(Init(order, timeout), acts).timeout == timeout
  {
    if acts != [] {
      hide Young, Step;
      var init, last := acts[..|acts| - 1], acts[|acts| - 1];
      AlwaysYoung(order, timeout, init);
      YoungStep(After(Init(order, timeout), init), last);
      TimeoutStays(After(Init(order, timeout), init), last);
    } else {
      assert Young(Init(order, timeout));
    }
  }

  /** Cleanup ticks come no later than `slack` after their deadlines, so far. */
  ghost predicate OnTime(s: State, acts: seq<Action>, slack: nat) {
    && After(s, acts).now <= After(s, acts).due + slack
    && (acts == [] || OnTime(s, acts[..|acts| - 1], slack))
  }

  /** Nothing stays in flight for two timeouts and the cleanup's lateness. */
  lemma AgeBound(order: seq<Id>, timeout: nat, acts: seq<Action>, slack: nat)
    requires timeout > 0 && OnTime(Init(order, timeout), acts, slack)
    ensures var s := After(Init(order, timeout), acts);
            forall id :: id in s.pool.inFlight ==>
              0 <= s.now - s.pool.inFlight[id].sent < 2 * timeout + slack
  {
    AlwaysYoung(order, timeout, acts);
  }

  /** So no latency recorded reaches that bound either. */
  lemma {:induction false} LatencyBound(order: seq<Id>, timeout: nat, acts: seq<Action>, slack: nat)
    requires timeout > 0 && OnTime(Init(order, timeout), acts, slack)
    ensures LatenciesWithin(Init(order, timeout), acts, 0, 2 * timeout + slack)
  {
    if acts != [] {
      LatencyBound(order, timeout, acts[..|acts| - 1], slack);
      AgeBound(order, timeout, acts[..|acts| - 1], slack);
    }
  }

  /** Nor does the maximum of any interval sent out, or the one still being collected. */
  lemma ReportedLatencyBound(order: seq<Id>, timeout: nat, acts: seq<Action>, slack: nat)
    requires timeout > 0 && OnTime(Init(order, timeout), acts, slack)
    ensures var s := After(Init(order, timeout), acts);
            && s.tracker.maxLatency < 2 * timeout + slack
            && forall iv :: iv in s.emitted ==> iv.maxLatency < 2 * timeout + slack
  {
    hide After, OnTime, LatenciesWithin;
    LatencyBound(order, timeout, acts, slack);
    ExtremesAlwaysInRange(order, timeout, acts, 0, 2 * timeout + slack);
  }

  /** The bound is tight, for every pool: its first query, sent just after a deadline, is one tick short of
      two timeouts when the second deadline after it comes. */
  lemma AgeBoundAttained(order: seq<Id>, timeout: nat)
    requires timeout > 0 && order != []
    ensures var s := Init(order, timeout);
            var acts := [Collect, Advance(1), Insert(0), Advance(timeout - 1), CleanupTick([]), Advance(timeout)];
            var t := After(s, acts);
            && OnTime(s, acts, 0)
            && order[0] in t.pool.inFlight && t.now - t.pool.inFlight[order[0]].sent == 2 * timeout - 1
  {
    hide Step, Init, Enabled, After, OnTime;
    var s := Init(order, timeout);
    var a1, a2, a3 := Collect, Advance(1), Insert(0);
    var a4, a5, a6 := Advance(timeout - 1), CleanupTick([]), Advance(timeout);
    SentAfterDeadline(order, timeout);
    TwoDeadlines(order[0], timeout, Step(Step(Step(s, a1), a2), a3));
    OnTimeOne(s, [], a1, 0);
    OnTimeOne(s, [a1], a2, 0);
    OnTimeOne(s, [a1, a2], a3, 0);
    OnTimeOne(s, [a1, a2, a3], a4, 0);
    OnTimeOne(s, [a1, a2, a3, a4], a5, 0);
    OnTimeOne(s, [a1, a2, a3, a4, a5], a6, 0);
    assert [] + [a1] == [a1] && [a1] + [a2] == [a1, a2] && [a1, a2] + [a3] == [a1, a2, a3];
    assert [a1, a2, a3] + [a4] == [a1, a2, a3, a4] && [a1, a2, a3, a4] + [a5] == [a1, a2, a3, a4, a5];
    assert [a1, a2, a3, a4, a5] + [a6] == [a1, a2, a3, a4, a5, a6];
  }

  lemma SentAfterDeadline(order: seq<Id>, timeout: nat)
    requires timeout > 0 && order != []
    ensures var s := Init(order, timeout);
            var s1 := Step(s, Collect);
            var s2 := Step(s1, Advance(1));
            var s3 := Step(s2, Insert(0));
            && s.now == s1.now == 0 && s.due == s1.due == timeout
            && s2.now == 1 <= s2.due == timeout
            && s3.pool.inFlight == map[order[0] := QueryInfo(1, 0)]
            && s3.now == 1 && s3.due == timeout && s3.timeout == timeout && !s3.phase.Checking?
  {
    Ledger.FreeOnlyAll(Popped(Pool(order, map[]), BATCH), {});
    assert Pool(order, map[]).inFlight.Keys == {};
    assert Step(Init(order, timeout), Collect).pending == order[..Min(BATCH, |order|)];
  }

  lemma TwoDeadlines(id: Id, timeout: nat, s: State)
    requires timeout > 0 && s.timeout == timeout == s.due && s.now == 1 && !s.phase.Checking?
    requires s.pool.inFlight == map[id := QueryInfo(1, 0)]
    ensures var s4 := Step(s, Advance(timeout - 1));
            var s5 := Step(s4, CleanupTick([]));
            var s6 := Step(s5, Advance(timeout));
            && s4.now == timeout == s4.due
            && s5.now == timeout && s5.due == 2 * timeout
            && s6.now == 2 * timeout == s6.due && s6.pool.inFlight == s.pool.inFlight
  {
    var s4 := Step(s, Advance(timeout - 1));
    assert Expired(s4.pool, s4.now, timeout) == {};
    assert Enabled(s4, CleanupTick([]));
    assert ClearExpired(s4.pool, []).inFlight == s4.pool.inFlight;
  }

  lemma OnTimeOne(s: State, acts: seq<Action>, a: Action, slack: nat)
    ensures After(s, acts + [a]) == Step(After(s, acts), a)
    ensures OnTime(s, acts + [a], slack)
       <==> OnTime(s, acts, slack) && Step(After(s, acts), a).now <= Step(After(s, acts), a).due + slack
    ensures After(s, []) == s && (OnTime(s, [], slack) <==> s.now <= s.due + slack)
  {
    AfterOne(s, acts, a);
    assert (acts + [a])[..|acts|] == acts;
  }

  // ---------------------------------------------------------------- the final wait

  /** The instant of the last clearing of the final wait, once a turn has cleared the store. */
  function ClearedAt(phase: Phase): nat
    requires phase.Checking? || phase.Closing? || phase.Finished?
  {
    if phase.Checking? then phase.clearAt else phase.wait.clearAt
  }

  /** Whatever is in flight once a turn has cleared the store was sent less than a timeout before that
      clearing, or later. */
  ghost predicate LeftYoung(s: State) {
    s.phase.Checking? || s.phase.Closing? || s.phase.Finished? ==>
      && ClearedAt(s.phase) <= s.now
      && forall id :: id in s.pool.inFlight ==> ClearedAt(s.phase) < s.pool.inFlight[id].sent + s.timeout
  }

  lemma LeftYoungClear(s: State, order: seq<Id>)
    requires Lists(order, Expired(s.pool, s.now, s.timeout))
    requires s.phase.Draining? || LeftYoung(s)
    ensures s.phase.Draining? ==> LeftYoung(Clear(s, order).(phase := Checking(s.phase.since, s.now)))
    ensures LeftYoung(s) ==> LeftYoung(Clear(s, order).(due := s.due + s.timeout))
  {
    hide ClearExpired, Expired, Lists;
    forall id | id in ClearExpired(s.pool, order).inFlight
      ensures id in s.pool.inFlight && ClearExpired(s.pool, order).inFlight[id] == s.pool.inFlight[id]
      ensures s.now < s.pool.inFlight[id].sent + s.timeout
    {
      ClearLeaves(s.pool, s.now, s.timeout, order, id);
    }
  }

  lemma LeftYoungStep(s: State, a: Action)
    requires s.timeout > 0 && LeftYoung(s)
    ensures LeftYoung(Step(s, a))
  {
    hide OnFrame, ClearExpired, Batch, Lists, Expired;
    if Enabled(s, a) {
      match a
      case DrainClear(order) => LeftYoungClear(s, order);
      case CleanupTick(order) => LeftYoungClear(s, order);
      case _ =>
    }
  }

  /** However long the sender outlives its abortion and whatever falls between the clearing and the check
      of a turn: what the final wait leaves in flight is younger than a timeout at its last clearing. */
  lemma {:induction false} AlwaysLeftYoung(order: seq<Id>, timeout: nat, acts: seq<Action>)
    requires timeout > 0
    ensures LeftYoung(After(Init(order, timeout), acts)) && After(Init(order, timeout), acts).timeout == timeout
  {
    if acts != [] {
      hide LeftYoung, Step;
      var init, last := acts[..|acts| - 1], acts[|acts| - 1];
      AlwaysLeftYoung(order, timeout, init);
      LeftYoungStep(After(Init(order, timeout), init), last);
      TimeoutStays(After(Init(order, timeout), init), last);
    } else {
      assert LeftYoung(Init(order, timeout));
    }
  }

  /** The wait has emptied the store, given that nothing was sent after `stopAt`: either its last clearing
      came a timeout after that, or the check found the timeout not over. */
  predicate Emptied(w: Wait, stopAt: nat, timeout: nat) {
    w.clearAt >= stopAt + timeout || Since(w.checkAt, w.since) <= timeout
  }

  /** The sender is gone, and nothing was sent after `stopAt`. */
  ghost predicate Gone(s: State, stopAt: nat) {
    && !s.running
    && (forall id :: id in s.pool.inFlight ==> s.pool.inFlight[id].sent <= stopAt)
    && LeftYoung(s)
    && match s.phase
       case Serving => true
       case Draining(_) => s.snap.Idle?
       case Checking(_, _) => s.snap.Idle?
       case Closing(wait) =>
         && (Emptied(wait, stopAt, s.timeout) ==> s.pool.inFlight == map[])
         && (s.snap.ClearedSent? ==> s.sent == 0)
       case Finished(wait) => Emptied(wait, stopAt, s.timeout) ==> Settled(s)
  }

  /** A generator that has returned with nothing left to report. */
  ghost predicate Settled(s: State) {
    && s.phase.Finished? && s.snap.Idle?
    && s.pool.inFlight == map[]
    && s.sent == 0 && s.timedOut == 0
    && s.tracker == FRESH.(intervals := s.tracker.intervals)
  }

  lemma NothingToClear(s: State, order: seq<Id>)
    requires s.pool.inFlight == map[] && Lists(order, Expired(s.pool, s.now, s.timeout))
    ensures order == [] && Clear(s, order) == s
  {
    assert Expired(s.pool, s.now, s.timeout) == {};
    ListsOnce(order, {});
    assert s.pool.ids + [] == s.pool.ids;
    assert ClearExpired(s.pool, order).inFlight == map[];
  }

  /** Nothing is both older than a timeout at the last clearing and still there after it. */
  lemma ClearingEmpties(m: map<Id, QueryInfo>, clearAt: nat, stopAt: nat, timeout: nat)
    requires forall id :: id in m ==> m[id].sent <= stopAt && clearAt < m[id].sent + timeout
    ensures clearAt >= stopAt + timeout ==> m == map[]
  {
  }

  lemma ClearShrinks(s: State, order: seq<Id>, stopAt: nat)
    requires forall id :: id in s.pool.inFlight ==> s.pool.inFlight[id].sent <= stopAt
    ensures forall id :: id in Clear(s, order).pool.inFlight ==> Clear(s, order).pool.inFlight[id].sent <= stopAt
  {
  }

  lemma GoneStep(s: State, a: Action, stopAt: nat)
    requires s.timeout > 0 && Gone(s, stopAt)
    ensures Gone(Step(s, a), stopAt)
  {
    hide OnFrame, ClearExpired, Batch, Lists, Expired, LeftYoung;
    LeftYoungStep(s, a);
    if Enabled(s, a) {
      match a
      case DrainClear(order) => ClearShrinks(s, order, stopAt);
      case DrainCheck => CheckEmptied(s, stopAt);
      case CleanupTick(order) =>
        ClearShrinks(s, order, stopAt);
        if s.pool.inFlight == map[] {
          NothingToClear(s, order);
        }
      case _ =>
    }
  }

  lemma CheckEmptied(s: State, stopAt: nat)
    requires s.phase.Checking? && LeftYoung(s)
    requires forall id :: id in s.pool.inFlight ==> s.pool.inFlight[id].sent <= stopAt
    ensures var t := Step(s, DrainCheck);
            t.phase.Closing? && Emptied(t.phase.wait, stopAt, s.timeout) ==> s.pool.inFlight == map[]
  {
    ClearingEmpties(s.pool.inFlight, s.phase.clearAt, stopAt, s.timeout);
  }

  /** Once the sender is gone, a generator whose wait emptied the store and who finishes is settled, whatever
      the cleanup task does meanwhile. */
  lemma {:induction false} DrainSettles(s: State, acts: seq<Action>, stopAt: nat)
    requires s.timeout > 0 && Gone(s, stopAt)
    ensures Gone(After(s, acts), stopAt) && After(s, acts).timeout == s.timeout
    ensures After(s, acts).phase.Finished? && Emptied(After(s, acts).phase.wait, stopAt, s.timeout) ==>
              Settled(After(s, acts))
  {
    if acts != [] {
      hide Gone, Step;
      var init, last := acts[..|acts| - 1], acts[|acts| - 1];
      DrainSettles(s, init, stopAt);
      GoneStep(After(s, init), last, stopAt);
      TimeoutStays(After(s, init), last);
      GoneMeans(Step(After(s, init), last), stopAt);
    }
  }

  lemma GoneMeans(s: State, stopAt: nat)
    requires Gone(s, stopAt)
    ensures s.phase.Finished? && Emptied(s.phase.wait, stopAt, s.timeout) ==> Settled(s)
  {
  }

  /** A reachable generator whose sender has stopped, at any time before the final wait is over, is in that
      situation. */
  lemma StoppedIsGone(order: seq<Id>, timeout: nat, acts: seq<Action>)
    requires timeout > 0
    ensures var s := After(Init(order, timeout), acts);
            !s.running && !s.phase.Closing? && !s.phase.Finished? ==> Gone(s, s.now)
  {
    hide After;
    AlwaysYoung(order, timeout, acts);
    AlwaysLeftYoung(order, timeout, acts);
    ReportsAlwaysInOrder(order, timeout, acts);
  }

  /** Over the wait, each query that leaves flight goes back to the pool once and counts as timed out
      once, however the generator's own clearing and the cleanup task's interleave; once nothing is left in
      flight that is every query that was. */
  lemma {:induction false} DrainReturnsEachOnce(s: State, acts: seq<Action>)
    requires !s.running && !s.phase.Serving?
    ensures var t, back := After(s, acts), Ledger.Returned(s, acts);
            && !t.running && !t.phase.Serving?
            && GaveBack(s.pool, t.pool, back)
            && Tally(s, acts, Expiries) == |back|
            && (t.pool.inFlight == map[] ==> Lists(back, s.pool.inFlight.Keys))
  {
    if acts == [] {
      GaveBackNothing(s.pool);
    } else {
      hide Step, Enabled, At, GaveBack;
      var init, last := acts[..|acts| - 1], acts[|acts| - 1];
      DrainReturnsEachOnce(s, init);
      var u := After(s, init);
      DrainStepReturns(u, last);
      GaveBackMore(s.pool, u.pool, Step(u, last).pool, Ledger.Returned(s, init),
                   if Enabled(u, last) then ClearedBy(last) else []);
    }
    var t := After(s, acts);
    if t.pool.inFlight == map[] {
      GaveBackAll(s.pool, t.pool, Ledger.Returned(s, acts));
    }
  }

  lemma DrainStepReturns(s: State, a: Action)
    requires !s.running && !s.phase.Serving?
    ensures var back := if Enabled(s, a) then ClearedBy(a) else [];
            && GaveBack(s.pool, Step(s, a).pool, back)
            && At(s, a, Expiries) == |back|
            && (Enabled(s, a) ==> !a.Recv?)
            && !Step(s, a).running && !Step(s, a).phase.Serving?
  {
    hide OnFrame, Batch;
    GaveBackNothing(s.pool);
  }

  lemma ListingExists(all: set<Id>) returns (order: seq<Id>)
    ensures Lists(order, all)
    decreases all
  {
    if all == {} {
      order := [];
    } else {
      var id :| id in all;
      var rest := ListingExists(all - {id});
      order := rest + [id];
    }
  }

  lemma LateTurnCloses(s: State, wait: nat, order: seq<Id>, stopAt: nat)
    requires Gone(s, stopAt) && s.phase.Draining? && wait > s.phase.since + stopAt + s.timeout
    requires Lists(order, Expired(Step(s, Advance(wait)).pool, s.now + wait, s.timeout))
    ensures var late := Step(s, Advance(wait));
            var closing := Step(Step(late, DrainClear(order)), DrainCheck);
            && late.now == s.now + wait && late.timeout == s.timeout
            && closing.phase.Closing? && closing.snap.Idle? && Emptied(closing.phase.wait, stopAt, s.timeout)
  {
    hide ClearExpired, Lists, Expired;
  }

  /** The wait can always be brought to its end: one turn more than a timeout after it began and after the
      sender stopped, and the five steps of the final report. */
  lemma CanFinish(s: State, stopAt: nat) returns (acts: seq<Action>)
    requires s.timeout > 0 && Gone(s, stopAt) && s.phase.Draining?
    ensures After(s, acts).phase.Finished? && Settled(After(s, acts))
  {
    var wait := s.phase.since + stopAt + s.timeout + 1;
    var late := Step(s, Advance(wait));
    var order := ListingExists(Expired(late.pool, s.now + wait, s.timeout));
    acts := [Advance(wait), DrainClear(order), DrainCheck, SnapStep, SnapStep, SnapStep, SnapStep, SnapStep];
    var closing := Step(Step(late, DrainClear(order)), DrainCheck);
    hide Step, Gone, Enabled, Lists, Expired, After, Emptied;
    LateTurnCloses(s, wait, order, stopAt);
    FiveSnapSteps(closing);
    TwoActions(s, acts[0], acts[1]);
    AfterOne(s, [acts[0], acts[1]], acts[2]);
    FiveActions(closing, SnapStep);
    AfterAppend(s, acts[..3], acts[3..]);
    assert acts == acts[..3] + acts[3..];
    assert acts[..3] == [acts[0], acts[1]] + [acts[2]];
    assert acts[3..] == [SnapStep, SnapStep, SnapStep, SnapStep, SnapStep];
    DrainSettles(s, acts, stopAt);
  }

  lemma TwoActions(s: State, a: Action, b: Action)
    ensures After(s, [a, b]) == Step(Step(s, a), b)
  {
    AfterOne(s, [], a);
    AfterOne(s, [a], b);
    assert [] + [a] == [a] && [a] + [b] == [a, b];
  }

  lemma FiveActions(s: State, a: Action)
    ensures After(s, [a, a, a, a, a]) == Step(Step(Step(Step(Step(s, a), a), a), a), a)
  {
    hide Step, After;
    TwoActions(s, a, a);
    AfterOne(s, [a, a], a);
    AfterOne(s, [a, a, a], a);
    AfterOne(s, [a, a, a, a], a);
    assert [a, a] + [a] == [a, a, a] && [a, a, a] + [a] == [a, a, a, a] && [a, a, a, a] + [a] == [a, a, a, a, a];
  }

  lemma FiveSnapSteps(s: State)
    requires s.phase.Closing? && s.snap.Idle?
    ensures Step(Step(Step(Step(Step(s, SnapStep), SnapStep), SnapStep), SnapStep), SnapStep).phase
         == Finished(s.phase.wait)
  {
    hide Step;
    ClosingSnapStep(s);
    var s1 := Step(s, SnapStep);
    ClosingSnapStep(s1);
    var s2 := Step(s1, SnapStep);
    ClosingSnapStep(s2);
    var s3 := Step(s2, SnapStep);
    ClosingSnapStep(s3);
    ClosingSnapStep(Step(s3, SnapStep));
  }

  lemma ClosingSnapStep(s: State)
    requires s.phase.Closing?
    ensures var t := Step(s, SnapStep);
            match s.snap
            case Idle => t.snap.Gauged? && t.phase == s.phase
            case Gauged(_, _) => t.snap.LoadedTimeouts? && t.phase == s.phase
            case LoadedTimeouts(_, _, _) => t.snap.LoadedBoth? && t.phase == s.phase
            case LoadedBoth(_, _, _, _) => t.snap.ClearedSent? && t.phase == s.phase
            case ClearedSent(_, _, _, _) => t.phase == Finished(s.phase.wait)
  {
    hide Report, AfterReport;
  }

  lemma LockHeldStep(s: State, a: Action)
    requires s.phase.Checking? && !a.DrainCheck?
    ensures var t := Step(s, a); (t.pool, t.phase, t.timeout) == (s.pool, s.phase, s.timeout)
  {
  }

  /** Within a turn nothing else touches the store. */
  lemma {:induction false} LockHeld(s: State, acts: seq<Action>)
    requires s.phase.Checking? && forall a :: a in acts ==> !a.DrainCheck?
    ensures var t := After(s, acts); (t.pool, t.phase, t.timeout) == (s.pool, s.phase, s.timeout)
  {
    if acts != [] {
      hide Step;
      LockHeld(s, acts[..|acts| - 1]);
      LockHeldStep(After(s, acts[..|acts| - 1]), acts[|acts| - 1]);
    }
  }

  /** A turn leaves exactly the queries younger than the timeout when it clears, and ends the wait exactly when
      there is none or the timeout is over when it checks; so the wait ends and leaves a query exactly when some
      query is younger at the clearing and the timeout is over at the check. */
  lemma TurnLeaves(s: State, order: seq<Id>, between: seq<Action>)
    requires s.phase.Draining? && Lists(order, Expired(s.pool, s.now, s.timeout))
    requires forall a :: a in between ==> !a.DrainCheck?
    ensures var u := After(Step(s, DrainClear(order)), between);
            var t := Step(u, DrainCheck);
            && (t.phase.Closing? && t.pool.inFlight != map[]
                <==> (exists id :: id in s.pool.inFlight && s.now - s.pool.inFlight[id].sent < s.timeout)
                     && Since(u.now, s.phase.since) > s.timeout)
            && (forall id :: id in t.pool.inFlight <==>
                  id in s.pool.inFlight && s.now - s.pool.inFlight[id].sent < s.timeout)
            && t.phase == if (forall id :: id in s.pool.inFlight ==> s.now - s.pool.inFlight[id].sent >= s.timeout)
                             || Since(u.now, s.phase.since) > s.timeout
                          then Closing(Wait(s.phase.since, s.now, u.now)) else Draining(s.phase.since)
  {
    hide After, ClearExpired, Expired, Lists;
    var clear := Step(s, DrainClear(order));
    LockHeld(clear, between);
    forall id: Id
      ensures id in clear.pool.inFlight <==> id in s.pool.inFlight && s.now - s.pool.inFlight[id].sent < s.timeout
    {
      ClearLeaves(s.pool, s.now, s.timeout, order, id);
    }
  }

  lemma ThreeActions(s: State, a: Action, b: Action, c: Action)
    ensures After(s, [a, b, c]) == Step(Step(Step(s, a), b), c)
  {
    TwoActions(s, a, b);
    AfterOne(s, [a, b], c);
    assert [a, b] + [c] == [a, b, c];
  }

  /** One query sent and counted at time zero, and nothing else. */
  ghost predicate OneQuery(s: State, id: Id) {
    && s.pool.inFlight == map[id := QueryInfo(0, 0)]
    && s.sent == 1 && s.timedOut == 0 && !s.uncounted
    && s.tracker == FRESH && s.snap.Idle? && s.emitted == [] && s.lastLog == 0 && s.duration == 0
    && s.timeout > 0
  }

  lemma OneQuerySent(order: seq<Id>, timeout: nat)
    requires timeout > 0 && order != []
    ensures var s := Step(Step(Step(Init(order, timeout), Collect), Insert(0)), Count);
            OneQuery(s, order[0]) && s.running && s.phase.Serving? && s.now == 0 && s.timeout == timeout
  {
    Ledger.FreeOnlyAll(Popped(Pool(order, map[]), BATCH), {});
    assert Pool(order, map[]).inFlight.Keys == {};
    assert Step(Init(order, timeout), Collect).pending == order[..Min(BATCH, |order|)];
  }

  lemma WaitBegins(s: State, id: Id)
    requires OneQuery(s, id) && s.running && s.phase.Serving? && s.now == 0
    ensures var t := Step(Step(Step(s, SenderStop), Shutdown), Advance(s.timeout - 1));
            && OneQuery(t, id) && !t.running && t.phase == Draining(0)
            && t.now == t.timeout - 1 && t.timeout == s.timeout
  {
  }

  lemma WaitEnds(s: State, id: Id)
    requires OneQuery(s, id) && !s.running && s.phase == Draining(0) && s.now == s.timeout - 1
    ensures var t := Step(Step(Step(s, DrainClear([])), Advance(2)), DrainCheck);
            && OneQuery(t, id) && !t.running && t.phase == Closing(Wait(0, s.timeout - 1, s.timeout + 1))
            && t.timeout == s.timeout
  {
    assert Expired(s.pool, s.now, s.timeout) == {};
    assert Enabled(s, DrainClear([]));
    assert ClearExpired(s.pool, []).inFlight == s.pool.inFlight;
  }

  lemma LastReport(s: State, id: Id)
    requires OneQuery(s, id) && s.phase.Closing?
    ensures var t := Step(Step(Step(Step(Step(s, SnapStep), SnapStep), SnapStep), SnapStep), SnapStep);
            && t.phase == Finished(s.phase.wait) && t.pool == s.pool && |t.emitted| == 1
            && (t.emitted[0].sent, t.emitted[0].okRecv, t.emitted[0].timeouts) == (1, 0, 0)
  {
    var s1 := Step(s, SnapStep);
    var s2 := Step(s1, SnapStep);
    var s3 := Step(s2, SnapStep);
    var s4 := Step(s3, SnapStep);
    assert s4.snap.ClearedSent? && s4.snap.sent == 1 && s4.snap.timeouts == 0 && s4.tracker == FRESH;
  }

  /** A wait that has not emptied the store: for every pool and timeout, a query sent as the wait begins, too
      young by one tick when the last turn clears and past the timeout when that turn checks, stays in flight
      and is reported as sent, but neither as answered nor as timed out. */
  lemma WaitLeavesOne(order: seq<Id>, timeout: nat)
    requires timeout > 0 && order != []
    ensures var acts := [Collect, Insert(0), Count] + ([SenderStop, Shutdown, Advance(timeout - 1)]
                        + ([DrainClear([]), Advance(2), DrainCheck]
                           + [SnapStep, SnapStep, SnapStep, SnapStep, SnapStep]));
            var t := After(Init(order, timeout), acts);
            && t.phase == Finished(Wait(0, timeout - 1, timeout + 1)) && order[0] in t.pool.inFlight
            && |t.emitted| == 1
            && (t.emitted[0].sent, t.emitted[0].okRecv, t.emitted[0].timeouts) == (1, 0, 0)
  {
    hide Step, Init, Enabled, After;
    var a, b := [Collect, Insert(0), Count], [SenderStop, Shutdown, Advance(timeout - 1)];
    var c, d := [DrainClear([]), Advance(2), DrainCheck], [SnapStep, SnapStep, SnapStep, SnapStep, SnapStep];
    var s := Init(order, timeout);
    OneQuerySent(order, timeout);
    ThreeActions(s, Collect, Insert(0), Count);
    AfterAppend(s, a, b + (c + d));
    var s1 := After(s, a);
    WaitBegins(s1, order[0]);
    ThreeActions(s1, SenderStop, Shutdown, Advance(timeout - 1));
    AfterAppend(s1, b, c + d);
    var s2 := After(s1, b);
    WaitEnds(s2, order[0]);
    ThreeActions(s2, DrainClear([]), Advance(2), DrainCheck);
    AfterAppend(s2, c, d);
    var s3 := After(s2, c);
    LastReport(s3, order[0]);
    FiveActions(s3, SnapStep);
  }
}
