/** One generator as a state machine: the sender, receiver and cleanup tasks of `bin/src/sender.rs` and
    `bin/src/gen.rs` over their shared store and atomics, cut where the tasks can interleave. */
module Protocol {
  import opened Basics
  import opened Frames
  import opened StatsModel
  import opened Pool

  /** `batch_size` in `bin/src/config.rs`. */
  const BATCH: nat := 1000

  /** How far the generator is through reading and clearing its counters. */
  datatype Snap =
    | Idle
    | Gauged(elapsed: nat, inFlight: nat)
    | LoadedTimeouts(elapsed: nat, inFlight: nat, timeouts: nat)
    | LoadedBoth(elapsed: nat, inFlight: nat, timeouts: nat, sent: nat)
    | ClearedSent(elapsed: nat, inFlight: nat, timeouts: nat, sent: nat)

  /** What the clock read as the final wait began, at its last clearing, and at the check after that. */
  datatype Wait = Wait(since: nat, clearAt: nat, checkAt: nat)

  /** Where `Generator::run` is. */
  datatype Phase =
    | Serving                              // in its event loop
    | Draining(since: nat)                 // in `wait_in_flight`, between two turns
    | Checking(since: nat, clearAt: nat)   // within a turn: it has cleared the store and still holds the lock
    | Closing(wait: Wait)                  // at the final report
    | Finished(wait: Wait)                 // returned

  datatype State = State(
    // shared under the lock
    pool: Pool,
    // shared without it
    sent: nat, timedOut: nat,
    // the sender's: the rest of its batch, whether it has inserted a query it has not yet counted
    pending: seq<Id>, uncounted: bool, running: bool,
    // the generator's
    tracker: Tracker, phase: Phase, snap: Snap, lastLog: nat, duration: nat, emitted: seq<Interval>,
    // the cleanup task's next deadline
    due: nat,
    // clock and configuration
    now: nat, timeout: nat)

  function Init(order: seq<Id>, timeout: nat): State {
    State(Pool(order, map[]), 0, 0, [], false, true, FRESH, Serving, Idle, 0, 0, [], timeout, 0, timeout)
  }

  datatype Action =
    | Collect                       // the sender fills its batch
    | Insert(len: nat)              // the sender records the next query, of `len` bytes, and sends it
    | Count                         // the sender counts it
    | SenderStop                    // the sender fails, runs out of messages or is aborted
    | Recv(msg: seq<byte>)          // the generator reads a frame
    | RecvError                     // the generator reads an error
    | SnapStep                      // the generator's next step in reporting
    | Shutdown                      // the generator leaves its event loop
    | DrainClear(order: seq<Id>)    // a turn of `wait_in_flight` takes the lock and clears the store
    | DrainCheck                    // the turn checks whether to go on and releases the lock
    | CleanupTick(order: seq<Id>)   // one turn of the cleanup task
    | Advance(d: nat)               // time passes

  ghost predicate Enabled(s: State, a: Action) {
    match a
    case Collect => s.running && !s.uncounted && s.pending == [] && !s.phase.Checking?
    case Insert(_) => s.running && !s.uncounted && s.pending != [] && !s.phase.Checking?
    case Count => s.running && s.uncounted
    case SenderStop => s.running
    case Recv(msg) =>
      s.phase.Serving? && s.snap.Idle? && |msg| >= 2 && (MsgId(msg) in s.pool.inFlight ==> |msg| >= 4)
    case RecvError => s.phase.Serving? && s.snap.Idle?
    case SnapStep => s.phase.Serving? || s.phase.Closing?
    case Shutdown => s.phase.Serving? && s.snap.Idle?
    case DrainClear(order) => s.phase.Draining? && Lists(order, Expired(s.pool, s.now, s.timeout))
    case DrainCheck => s.phase.Checking?
    case CleanupTick(order) =>
      s.now >= s.due && !s.phase.Checking? && Lists(order, Expired(s.pool, s.now, s.timeout))
    case Advance(_) => true
  }

  function Since(now: nat, earlier: nat): nat {
    if now >= earlier then now - earlier else 0
  }

  function Clear(s: State, order: seq<Id>): State {
    s.(pool := ClearExpired(s.pool, order), timedOut := s.timedOut + |order|)
  }

  /** The receiver, under the lock: the identifier goes back whatever it is; a waiting query is recorded. */
  function OnFrame(t: Tracker, p: Pool, now: nat, msg: seq<byte>): Tracker
    requires |msg| >= 2 && (MsgId(msg) in p.inFlight ==> |msg| >= 4)
  {
    var id := MsgId(msg);
    var u := if id in p.inFlight then Matched(t, now, p.inFlight[id].sent, p.inFlight[id].len, msg) else t;
    u.(recv := u.recv + 1)
  }

  function ReportNow(s: State): Interval
    requires s.snap.ClearedSent?
  {
    Report(s.tracker, s.snap.sent, s.snap.timeouts, s.snap.elapsed, s.duration, s.snap.inFlight)
  }

  function NextSnap(s: State): State {
    match s.snap
    case Idle =>
      var elapsed := Since(s.now, s.lastLog);
      s.(snap := Gauged(elapsed, |s.pool.inFlight|), duration := s.duration + elapsed,
         lastLog := if s.phase.Serving? then s.now else s.lastLog)
    case Gauged(elapsed, inFlight) => s.(snap := LoadedTimeouts(elapsed, inFlight, s.timedOut))
    case LoadedTimeouts(elapsed, inFlight, timeouts) => s.(snap := LoadedBoth(elapsed, inFlight, timeouts, s.sent))
    case LoadedBoth(elapsed, inFlight, timeouts, sent) =>
      s.(snap := ClearedSent(elapsed, inFlight, timeouts, sent), sent := 0)
    case ClearedSent(_, _, _, _) =>
      s.(snap := Idle, timedOut := 0, tracker := AfterReport(s.tracker), emitted := s.emitted + [ReportNow(s)],
         phase := if s.phase.Closing? then Finished(s.phase.wait) else s.phase)
  }

  /** One atomic action. An action that cannot happen changes nothing, so every list of actions is a run. */
  ghost function Step(s: State, a: Action): State {
    if !Enabled(s, a) then s
    else
      match a
      case Collect => s.(pool := AfterPop(s.pool, BATCH), pending := Batch(s.pool, BATCH))
      case Insert(len) =>
        s.(pool := Launch(s.pool, s.pending[0], QueryInfo(s.now, len)), pending := s.pending[1..], uncounted := true)
      case Count => s.(sent := s.sent + 1, uncounted := false)
      case SenderStop => s.(running := false)
      case Recv(msg) => s.(pool := Return(s.pool, MsgId(msg)), tracker := OnFrame(s.tracker, s.pool, s.now, msg))
      case RecvError => s.(tracker := s.tracker.(recv := s.tracker.recv + 1))
      case SnapStep => NextSnap(s)
      case Shutdown => s.(phase := Draining(s.now))
      case DrainClear(order) => Clear(s, order).(phase := Checking(s.phase.since, s.now))
      case DrainCheck =>
        var stop := s.pool.inFlight == map[] || Since(s.now, s.phase.since) > s.timeout;
        s.(phase := if stop then Closing(Wait(s.phase.since, s.phase.clearAt, s.now)) else Draining(s.phase.since))
      case CleanupTick(order) => Clear(s, order).(due := s.due + s.timeout)
      case Advance(d) => s.(now := s.now + d)
  }

  /** A step of reporting touches neither the store nor the sender nor the clock. */
  lemma SnapKeeps(s: State)
    ensures var t := NextSnap(s);
            && (t.pool, t.pending, t.uncounted, t.running) == (s.pool, s.pending, s.uncounted, s.running)
            && (t.now, t.due, t.timeout) == (s.now, s.due, s.timeout)
  {
  }

  ghost function After(s: State, acts: seq<Action>): State {
    if acts == [] then s else Step(After(s, acts[..|acts| - 1]), acts[|acts| - 1])
  }

  lemma {:induction false} AfterAppend(s: State, a: seq<Action>, b: seq<Action>)
    ensures After(s, a + b) == After(After(s, a), b)
  {
    if b == [] {
      assert a + b == a;
    } else {
      AfterAppend(s, a, b[..|b| - 1]);
      assert (a + b)[..|a + b| - 1] == a + b[..|b| - 1];
    }
  }

  lemma AfterOne(s: State, acts: seq<Action>, a: Action)
    ensures After(s, acts + [a]) == Step(After(s, acts), a)
  {
    assert (acts + [a])[..|acts|] == acts;
  }

  // ---------------------------------------------------------------- what happened during a run

  datatype Event =
    | Stray(id: Id)         // a frame for an identifier not in flight
    | Dropped(id: Id)       // a copy discarded from the batch because it is in flight
    | Overwritten(id: Id)   // an insert over a query still in flight
    | Overwrites            // the same, for any identifier
    | Sends                 // queries inserted
    | Counts                // queries counted
    | Responses             // frames matched to a query
    | Expiries              // queries timed out
    | LostSent              // counts landing between the load of `sent` and its clearing
    | LostTimeouts          // time-outs landing between the load of `timed_out` and its clearing

  function ClearedBy(a: Action): seq<Id> {
    if a.DrainClear? || a.CleanupTick? then a.order else []
  }

  /** A frame is read for a query in flight. */
  ghost predicate Matches(s: State, a: Action) {
    Enabled(s, a) && a.Recv? && MsgId(a.msg) in s.pool.inFlight
  }

  ghost function At(s: State, a: Action, e: Event): nat {
    if !Enabled(s, a) then 0
    else
      match e
      case Stray(id) => if a.Recv? && MsgId(a.msg) == id && id !in s.pool.inFlight then 1 else 0
      case Dropped(id) => if a.Collect? && id in s.pool.inFlight then multiset(Popped(s.pool, BATCH))[id] else 0
      case Overwritten(id) => if a.Insert? && s.pending[0] == id && id in s.pool.inFlight then 1 else 0
      case Overwrites => if a.Insert? && s.pending[0] in s.pool.inFlight then 1 else 0
      case Sends => if a.Insert? then 1 else 0
      case Counts => if a.Count? then 1 else 0
      case Responses => if Matches(s, a) then 1 else 0
      case Expiries => |ClearedBy(a)|
      case LostSent => if a.Count? && s.snap.LoadedBoth? then 1 else 0
      case LostTimeouts =>
        if s.snap.LoadedTimeouts? || s.snap.LoadedBoth? || s.snap.ClearedSent? then |ClearedBy(a)| else 0
  }

  /** How often `e` happened over a run. */
  ghost function Tally(s: State, acts: seq<Action>, e: Event): nat {
    if acts == [] then 0
    else
      var init, last := acts[..|acts| - 1], acts[|acts| - 1];
      Tally(s, init, e) + At(After(s, init), last, e)
  }

  lemma {:induction false} TallyAppend(s: State, a: seq<Action>, b: seq<Action>, e: Event)
    ensures Tally(s, a + b, e) == Tally(s, a, e) + Tally(After(s, a), b, e)
  {
    if b == [] {
      assert a + b == a;
    } else {
      var init := b[..|b| - 1];
      TallyAppend(s, a, init, e);
      AfterAppend(s, a, init);
      assert (a + b)[..|a + b| - 1] == a + init;
    }
  }

  /** Responses only arrive for queries in flight. */
  ghost predicate WellBehaved(s: State, acts: seq<Action>) {
    forall id: Id :: Tally(s, acts, Stray(id)) == 0
  }

  lemma WellBehavedParts(s: State, a: seq<Action>, b: seq<Action>)
    requires WellBehaved(s, a + b)
    ensures WellBehaved(s, a) && WellBehaved(After(s, a), b)
  {
    forall id: Id
      ensures Tally(s, a, Stray(id)) == 0 && Tally(After(s, a), b, Stray(id)) == 0
    {
      TallyAppend(s, a, b, Stray(id));
    }
  }

  // ---------------------------------------------------------------- what each task can do

  /** In its event loop, with no report under way, the generator takes whatever comes: an error, a frame, whose
      first two bytes say which identifier goes back and which query is answered, or the shutdown. */
  lemma ServingActs(s: State, id: Id, rest: seq<byte>)
    requires s.phase.Serving? && s.snap.Idle?
    ensures Step(s, RecvError) == s.(tracker := s.tracker.(recv := s.tracker.recv + 1))
    ensures Step(s, Shutdown) == s.(phase := Draining(s.now))
    ensures Step(s, SnapStep).snap == Gauged(Since(s.now, s.lastLog), |s.pool.inFlight|)
    ensures id !in s.pool.inFlight ==>
              Step(s, Recv(Bare(id) + rest))
              == s.(pool := s.pool.(ids := s.pool.ids + [id]), tracker := s.tracker.(recv := s.tracker.recv + 1))
    ensures id in s.pool.inFlight && |rest| >= 2 ==>
              var t := Step(s, Recv(Bare(id) + rest));
              && t.pool == Pool(s.pool.ids + [id], s.pool.inFlight - {id})
              && t.tracker.recv == s.tracker.recv + 1 && t.tracker.okRecv == s.tracker.okRecv + 1
              && t == s.(pool := t.pool, tracker := t.tracker)
  {
    IdComesFirst(Bare(id) + rest, id, rest);
    assert s.pool.inFlight - {id} == s.pool.inFlight || id in s.pool.inFlight;
  }

  /** A running sender that the lock does not keep out takes a batch of a thousand when it has none left, sends
      the next query of its batch, or counts the one it has sent, which needs no lock. */
  lemma SenderActs(s: State, len: nat)
    requires s.running
    ensures Step(s, SenderStop) == s.(running := false)
    ensures s.uncounted ==> Step(s, Count) == s.(sent := s.sent + 1, uncounted := false)
    ensures !s.phase.Checking? && !s.uncounted && s.pending == [] ==>
              Step(s, Collect).pool == s.pool.(ids := s.pool.ids[Min(1000, |s.pool.ids|)..])
    ensures !s.phase.Checking? && !s.uncounted && s.pending != [] ==>
              var t := Step(s, Insert(len));
              && t.pool == s.pool.(inFlight := s.pool.inFlight[s.pending[0] := QueryInfo(s.now, len)])
              && t.pending == s.pending[1..] && t.uncounted
  {
  }

  /** Whoever clears, the cleanup task at its deadline or the generator in its final wait: the queries at least a
      timeout old, and no others, go from flight to the end of the queue and are counted. */
  lemma ClearingActs(s: State, order: seq<Id>)
    requires NoDuplicates(order)
    requires forall id :: id in order <==> id in s.pool.inFlight && s.now - s.pool.inFlight[id].sent >= s.timeout
    ensures var cleared := s.(pool := Pool(s.pool.ids + order, map id | id in s.pool.inFlight && id !in order ::
                                                                s.pool.inFlight[id]),
                              timedOut := s.timedOut + |order|);
            && (s.now >= s.due && !s.phase.Checking? ==>
                  Step(s, CleanupTick(order)) == cleared.(due := s.due + s.timeout))
            && (s.phase.Draining? ==> Step(s, DrainClear(order)) == cleared.(phase := Checking(s.phase.since, s.now)))
  {
    assert Lists(order, Expired(s.pool, s.now, s.timeout));
    assert ClearExpired(s.pool, order).inFlight
        == map id | id in s.pool.inFlight && id !in order :: s.pool.inFlight[id];
  }
}
