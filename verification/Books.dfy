/** What one generator reports: every query is accounted for, whatever falls between the loads and the
    stores of its counters, and its histograms and latencies are sound. */
module Books {
  import opened Basics
  import opened Frames
  import opened MovingAverage
  import opened StatsModel
  import opened Pool
  import opened Protocol
  import opened History
  import opened Reports
  import Rounds

  // ---------------------------------------------------------------- split snapshots

  /** Counts read for the report being made. */
  function ReadSent(s: State): nat {
    if s.snap.LoadedBoth? || s.snap.ClearedSent? then s.snap.sent else 0
  }

  function ReadTimeouts(s: State): nat {
    if s.snap.LoadedTimeouts? || s.snap.LoadedBoth? || s.snap.ClearedSent? then s.snap.timeouts else 0
  }

  /** Counts already reported, or read for the report being made. */
  function ReportedSent(s: State): nat {
    Rounds.Total(s.emitted, Rounds.Sent) + ReadSent(s)
  }

  function ReportedTimeouts(s: State): nat {
    Rounds.Total(s.emitted, Rounds.Timeouts) + ReadTimeouts(s)
  }

  /** Counts still to be reported: once loaded, a counter is only waiting to be cleared. */
  function LiveSent(s: State): nat {
    if s.snap.LoadedBoth? then 0 else s.sent
  }

  function LiveTimeouts(s: State): nat {
    if s.snap.LoadedTimeouts? || s.snap.LoadedBoth? || s.snap.ClearedSent? then 0 else s.timedOut
  }

  lemma OneMoreReport(emitted: seq<Interval>, iv: Interval, f: Rounds.Field)
    ensures Rounds.Total(emitted + [iv], f) == Rounds.Total(emitted, f) + Rounds.Read(iv, f)
  {
    Rounds.TotalAppend(emitted, [iv], f);
    Rounds.TotalOne(iv, f);
  }

  lemma SnapBooks(s: State)
    ensures var t := NextSnap(s);
            && ReportedSent(t) + LiveSent(t) == ReportedSent(s) + LiveSent(s)
            && ReportedTimeouts(t) + LiveTimeouts(t) == ReportedTimeouts(s) + LiveTimeouts(s)
            && t.pool == s.pool && t.uncounted == s.uncounted
  {
    hide Rounds.Total;
    if s.snap.ClearedSent? {
      OneMoreReport(s.emitted, ReportNow(s), Rounds.Sent);
      OneMoreReport(s.emitted, ReportNow(s), Rounds.Timeouts);
    }
  }

  /** One action moves each counter by what happened, less what fell into a gap. */
  lemma CounterStep(s: State, a: Action)
    ensures var t := Step(s, a);
            && ReportedSent(t) + LiveSent(t) + At(s, a, LostSent) == ReportedSent(s) + LiveSent(s) + At(s, a, Counts)
            && ReportedTimeouts(t) + LiveTimeouts(t) + At(s, a, LostTimeouts)
               == ReportedTimeouts(s) + LiveTimeouts(s) + At(s, a, Expiries)
            && At(s, a, Counts) + (if t.uncounted then 1 else 0) == At(s, a, Sends) + (if s.uncounted then 1 else 0)
  {
    hide NextSnap, Rounds.Total;
    if a.SnapStep? {
      SnapBooks(s);
    } else {
      hide Step, At;
      CountersMove(s, a);
    }
  }

  lemma CountersMove(s: State, a: Action)
    requires !a.SnapStep?
    ensures var t := Step(s, a);
            && t.emitted == s.emitted && t.snap == s.snap
            && t.sent == s.sent + At(s, a, Counts) && t.timedOut == s.timedOut + At(s, a, Expiries)
            && At(s, a, Counts) + (if t.uncounted then 1 else 0) == At(s, a, Sends) + (if s.uncounted then 1 else 0)
            && At(s, a, LostSent) == (if s.snap.LoadedBoth? then At(s, a, Counts) else 0)
            && At(s, a, LostTimeouts)
               == if s.snap.LoadedTimeouts? || s.snap.LoadedBoth? || s.snap.ClearedSent? then At(s, a, Expiries) else 0
  {
    hide OnFrame, ClearExpired, Batch, AfterPop, Launch, Return, Lists, Expired;
  }

  /** Reading and clearing the counters one at a time never reports too much: reported, live and lost
      make up what happened, and what is lost is exactly what landed between a load and its store. */
  lemma {:induction false} SplitSnapshots(order: seq<Id>, timeout: nat, acts: seq<Action>)
    ensures var s0 := Init(order, timeout);
            var s := After(s0, acts);
            && ReportedSent(s) + LiveSent(s) + Tally(s0, acts, LostSent) == Tally(s0, acts, Counts)
            && ReportedTimeouts(s) + LiveTimeouts(s) + Tally(s0, acts, LostTimeouts) == Tally(s0, acts, Expiries)
            && Tally(s0, acts, Counts) + (if s.uncounted then 1 else 0) == Tally(s0, acts, Sends)
  {
    if acts != [] {
      hide Step, At, ReportedSent, ReportedTimeouts, LiveSent, LiveTimeouts;
      var init, last := acts[..|acts| - 1], acts[|acts| - 1];
      SplitSnapshots(order, timeout, init);
      CounterStep(After(Init(order, timeout), init), last);
    }
  }

  lemma {:induction false} TotalOfEach(emitted: seq<Interval>, stretches: seq<Stretch>, f: Rounds.Field)
    requires |emitted| == |stretches|
    requires forall k :: 0 <= k < |emitted| ==> Rounds.Read(emitted[k], f) == Measure(stretches[k], f)
    ensures Rounds.Total(emitted, f) == SumMeasures(stretches, f)
  {
    if emitted != [] {
      hide Measure, Rounds.Read;
      TotalOfEach(emitted[..|emitted| - 1], stretches[..|stretches| - 1], f);
    }
  }

  /** The counters only the generator touches lose nothing at all: reported and live make up what was
      read, matched and measured, one count for each response code included. */
  lemma TrackerLedger(order: seq<Id>, timeout: nat, acts: seq<Action>, f: Rounds.Field)
    requires Rounds.Tracked(f)
    ensures var s0 := Init(order, timeout);
            var s := After(s0, acts);
            Rounds.Total(s.emitted, f) + ReadTracker(s.tracker, f) == Measure(Whole(s0, acts), f)
  {
    hide After, Rounds.Total, Measure, SumMeasures, Rounds.Read, ReadTracker;
    var s0 := Init(order, timeout);
    CountersAreHistory(order, timeout, acts, f);
    TotalOfEach(After(s0, acts).emitted, Closed(s0, acts), f);
    StretchesMakeWhole(s0, acts, f);
  }

  /** Responses matched to a record in flight are the answers of the run. */
  lemma {:induction false} ResponsesAreAnswers(order: seq<Id>, timeout: nat, acts: seq<Action>)
    ensures Tally(Init(order, timeout), acts, Responses) == |Whole(Init(order, timeout), acts).answers|
  {
    if acts != [] {
      hide Step, Enabled, MsgId;
      var init, last := acts[..|acts| - 1], acts[|acts| - 1];
      ResponsesAreAnswers(order, timeout, init);
      ReadsByRecord(order, timeout, init, last);
    }
  }

  lemma {:induction false} EachAnswerCounts(answers: seq<Answer>)
    ensures SumGain(answers, Rounds.OkRecv) == |answers|
  {
    if answers != [] {
      EachAnswerCounts(answers[..|answers| - 1]);
    }
  }

  // ---------------------------------------------------------------- queries in flight

  lemma ClearSize(p: Pool, now: nat, timeout: nat, order: seq<Id>)
    requires Lists(order, Expired(p, now, timeout))
    ensures |ClearExpired(p, order).inFlight| + |order| == |p.inFlight|
  {
    var gone := set id | id in order;
    assert gone == Expired(p, now, timeout);
    ListsOnce(order, gone);
    var left := ClearExpired(p, order).inFlight;
    assert left.Keys == p.inFlight.Keys - gone;
    assert gone <= p.inFlight.Keys;
  }

  lemma ReturnSize(p: Pool, id: Id)
    ensures |Return(p, id).inFlight| + (if id in p.inFlight then 1 else 0) == |p.inFlight|
  {
    assert Return(p, id).inFlight.Keys == p.inFlight.Keys - {id};
  }

  lemma LaunchSize(p: Pool, id: Id, info: QueryInfo)
    ensures |Launch(p, id, info).inFlight| + (if id in p.inFlight then 1 else 0) == |p.inFlight| + 1
  {
    assert Launch(p, id, info).inFlight.Keys == p.inFlight.Keys + {id};
    assert p.inFlight.Keys + {id} == (p.inFlight.Keys - {id}) + {id};
  }

  lemma FlightStep(s: State, a: Action)
    ensures |Step(s, a).pool.inFlight| + At(s, a, Responses) + At(s, a, Expiries) + At(s, a, Overwrites)
         == |s.pool.inFlight| + At(s, a, Sends)
  {
    hide NextSnap, OnFrame, ClearExpired, Batch, Return, Launch, Lists, Expired;
    if Enabled(s, a) {
      match a
      case Insert(len) => LaunchSize(s.pool, s.pending[0], QueryInfo(s.now, len));
      case Recv(msg) => ReturnSize(s.pool, MsgId(msg));
      case SnapStep => SnapBooks(s);
      case DrainClear(order) => ClearSize(s.pool, s.now, s.timeout, order);
      case CleanupTick(order) => ClearSize(s.pool, s.now, s.timeout, order);
      case _ =>
    }
  }

  /** Every query sent was answered, timed out or overwritten, or is still in flight. */
  lemma {:induction false} FlightLedger(order: seq<Id>, timeout: nat, acts: seq<Action>)
    ensures var s0 := Init(order, timeout);
            Tally(s0, acts, Sends)
            == Tally(s0, acts, Responses) + Tally(s0, acts, Expiries) + Tally(s0, acts, Overwrites)
               + |After(s0, acts).pool.inFlight|
  {
    if acts != [] {
      hide Step, At;
      var init, last := acts[..|acts| - 1], acts[|acts| - 1];
      FlightLedger(order, timeout, init);
      FlightStep(After(Init(order, timeout), init), last);
    }
  }

  /** The books balance in every reachable state, under any responses and any interleaving: all sends,
      reported, live, lost or about to be counted, equal all answers and time-outs, reported, live or
      lost, plus what is in flight or was overwritten. */
  lemma BooksBalance(order: seq<Id>, timeout: nat, acts: seq<Action>)
    ensures var s0 := Init(order, timeout);
            var s := After(s0, acts);
            ReportedSent(s) + LiveSent(s) + Tally(s0, acts, LostSent) + (if s.uncounted then 1 else 0)
            == Rounds.Total(s.emitted, Rounds.OkRecv) + s.tracker.okRecv
               + ReportedTimeouts(s) + LiveTimeouts(s) + Tally(s0, acts, LostTimeouts)
               + |s.pool.inFlight| + Tally(s0, acts, Overwrites)
  {
    hide After, Tally;
    SplitSnapshots(order, timeout, acts);
    FlightLedger(order, timeout, acts);
    TrackerLedger(order, timeout, acts, Rounds.OkRecv);
    ResponsesAreAnswers(order, timeout, acts);
    EachAnswerCounts(Whole(Init(order, timeout), acts).answers);
  }

  // ---------------------------------------------------------------- one report at a time

  /** The actions of the other tasks. */
  predicate Other(a: Action) {
    a.Collect? || a.Insert? || a.Count? || a.SenderStop? || a.CleanupTick? || a.Advance?
  }

  /** Other tasks only add to the two atomics. */
  lemma {:induction false} OthersOnlyCount(s: State, acts: seq<Action>)
    requires forall k :: 0 <= k < |acts| ==> Other(acts[k])
    ensures var t := After(s, acts);
            && t.tracker == s.tracker && t.snap == s.snap && t.phase == s.phase
            && t.emitted == s.emitted && t.duration == s.duration && t.lastLog == s.lastLog
            && t.sent == s.sent + Tally(s, acts, Counts)
            && t.timedOut == s.timedOut + Tally(s, acts, Expiries)
  {
    if acts != [] {
      hide Step, At, Other;
      OthersOnlyCount(s, acts[..|acts| - 1]);
      OtherStep(After(s, acts[..|acts| - 1]), acts[|acts| - 1]);
    }
  }

  lemma OtherStep(s: State, a: Action)
    requires Other(a)
    ensures var t := Step(s, a);
            && t.tracker == s.tracker && t.snap == s.snap && t.phase == s.phase
            && t.emitted == s.emitted && t.duration == s.duration && t.lastLog == s.lastLog
            && t.sent == s.sent + At(s, a, Counts)
            && t.timedOut == s.timedOut + At(s, a, Expiries)
  {
    hide Batch, AfterPop, ClearExpired, Lists, Expired, Launch, NextSnap, OnFrame;
  }

  /** A report, each second or at the end, made in five steps with any actions of other tasks in the four gaps
      between them: it says what the clock, the store and the counters said at the first step and what the
      increments up to each load added, and leaves behind those after the stores, which come one after the other. */
  lemma ReportAcrossGaps(s: State, e0: seq<Action>, e1: seq<Action>, e2: seq<Action>, e3: seq<Action>)
    requires (s.phase.Serving? || s.phase.Closing?) && s.snap.Idle?
    requires forall a :: a in e0 || a in e1 || a in e2 || a in e3 ==> Other(a)
    ensures var s0 := After(Step(s, SnapStep), e0);
            var s1 := After(Step(s0, SnapStep), e1);
            var s2 := After(Step(s1, SnapStep), e2);
            var s3 := After(Step(s2, SnapStep), e3);
            var t := Step(s3, SnapStep);
            var elapsed := if s.now >= s.lastLog then s.now - s.lastLog else 0;
            var u := s.tracker;
            && t.emitted == s.emitted
                 + [Interval(s.duration + elapsed, elapsed, u.intervals,
                             s.sent + Tally(Step(s, SnapStep), e0, Counts) + Tally(Step(s0, SnapStep), e1, Counts),
                             u.recv, u.okRecv, s.timedOut + Tally(Step(s, SnapStep), e0, Expiries),
                             u.minLatency, u.totalLatency, u.maxLatency, u.rcodes, u.recvBufSize, u.bufSize,
                             |s.pool.inFlight|)]
            && t.tracker == FRESH.(intervals := u.intervals + 1)
            && t.sent == Tally(Step(s2, SnapStep), e3, Counts) && t.timedOut == 0
            && s3.timedOut == s.timedOut
                 + Tally(Step(s, SnapStep), e0, Expiries) + Tally(Step(s0, SnapStep), e1, Expiries)
                 + Tally(Step(s1, SnapStep), e2, Expiries) + Tally(Step(s2, SnapStep), e3, Expiries)
            && t.duration == s.duration + elapsed
            && t.lastLog == (if s.phase.Serving? then s.now else s.lastLog)
            && t.snap.Idle? && t.phase == if s.phase.Closing? then Finished(s.phase.wait) else s.phase
  {
    hide After, Tally;
    OthersOnlyCount(Step(s, SnapStep), e0);
    var s0 := After(Step(s, SnapStep), e0);
    OthersOnlyCount(Step(s0, SnapStep), e1);
    var s1 := After(Step(s0, SnapStep), e1);
    OthersOnlyCount(Step(s1, SnapStep), e2);
    var s2 := After(Step(s1, SnapStep), e2);
    OthersOnlyCount(Step(s2, SnapStep), e3);
  }

  // ---------------------------------------------------------------- durations

  function Pending(snap: Snap): nat {
    if snap.Idle? then 0 else snap.elapsed
  }

  ghost predicate Numbered(emitted: seq<Interval>) {
    forall k :: 0 <= k < |emitted| ==>
      emitted[k].interval == k && emitted[k].duration == Rounds.ElapsedOf(emitted[..k + 1])
  }

  lemma NumberedMore(emitted: seq<Interval>, iv: Interval)
    requires Numbered(emitted)
    requires iv.interval == |emitted| && iv.duration == Rounds.ElapsedOf(emitted) + iv.elapsed
    ensures Numbered(emitted + [iv])
    ensures Rounds.ElapsedOf(emitted + [iv]) == iv.duration
  {
    var all := emitted + [iv];
    assert all[..|emitted|] == emitted && all[..|emitted| + 1] == all;
    forall k | 0 <= k < |emitted|
      ensures all[k].duration == Rounds.ElapsedOf(all[..k + 1])
    {
      assert all[..k + 1] == emitted[..k + 1];
    }
  }

  /** Intervals are numbered from zero, each carries the time covered so far, and the time reported or
      being reported is the generator's total, which the clock has reached. */
  ghost predicate ReportsInOrder(s: State) {
    && s.tracker.intervals == |s.emitted|
    && Numbered(s.emitted)
    && Rounds.ElapsedOf(s.emitted) + Pending(s.snap) == s.duration
    && s.lastLog <= s.now && s.duration <= s.now
    && (s.phase.Finished? ==> s.snap.Idle?)
    && (s.phase.Draining? || s.phase.Checking? ==> s.snap.Idle?)
    && (s.phase.Serving? || (s.snap.Idle? && !s.phase.Finished?) ==> s.duration == s.lastLog)
  }

  lemma SnapInOrder(s: State)
    requires ReportsInOrder(s) && (s.phase.Serving? || s.phase.Closing?)
    ensures ReportsInOrder(NextSnap(s))
  {
    hide Numbered, Rounds.ElapsedOf;
    if s.snap.ClearedSent? {
      NumberedMore(s.emitted, ReportNow(s));
    }
  }

  lemma OrderStep(s: State, a: Action)
    requires ReportsInOrder(s)
    ensures ReportsInOrder(Step(s, a))
  {
    hide NextSnap, ClearExpired, Batch, AfterPop, Return, Lists, Expired, Numbered, Rounds.ElapsedOf;
    if Enabled(s, a) {
      match a
      case SnapStep => SnapInOrder(s);
      case Recv(msg) => assert OnFrame(s.tracker, s.pool, s.now, msg).intervals == s.tracker.intervals;
      case _ =>
    }
  }

  /** So the last interval sent always carries the exact time from the start to its own gauge. */
  lemma {:induction false} ReportsAlwaysInOrder(order: seq<Id>, timeout: nat, acts: seq<Action>)
    ensures var s0 := Init(order, timeout);
            var s := After(s0, acts);
            && ReportsInOrder(s) && |s.emitted| <= |Gauges(s0, acts)|
            && forall k :: 0 <= k < |s.emitted| ==> s.emitted[k].duration == Gauges(s0, acts)[k].at
  {
    TimesAreHistory(order, timeout, acts);
    if acts != [] {
      hide Step, ReportsInOrder;
      ReportsAlwaysInOrder(order, timeout, acts[..|acts| - 1]);
      OrderStep(After(Init(order, timeout), acts[..|acts| - 1]), acts[|acts| - 1]);
    }
  }

  // ---------------------------------------------------------------- histograms

  ghost predicate HistogramsSound(s: State) {
    && Rounds.Balanced(s.tracker.rcodes, s.tracker.okRecv, s.tracker.recv)
    && (forall iv :: iv in s.emitted ==> Rounds.Balanced(iv.rcodes, iv.okRecv, iv.recv))
  }

  lemma FrameHistogram(t: Tracker, p: Pool, now: nat, msg: seq<byte>)
    requires |msg| >= 2 && (MsgId(msg) in p.inFlight ==> |msg| >= 4)
    requires Rounds.Balanced(t.rcodes, t.okRecv, t.recv)
    ensures var u := OnFrame(t, p, now, msg); Rounds.Balanced(u.rcodes, u.okRecv, u.recv)
  {
    if MsgId(msg) in p.inFlight {
      Rounds.CountBump(t.rcodes, Rcode(msg), 1, 16);
    }
  }

  lemma SnapHistogram(s: State)
    requires HistogramsSound(s)
    ensures HistogramsSound(NextSnap(s))
  {
    hide CountBelow;
    Rounds.CountNone(16);
  }

  lemma HistogramStep(s: State, a: Action)
    requires HistogramsSound(s)
    ensures HistogramsSound(Step(s, a))
  {
    hide NextSnap, OnFrame, ClearExpired, Batch, AfterPop, Lists, CountBelow;
    if Enabled(s, a) {
      match a
      case Recv(msg) => FrameHistogram(s.tracker, s.pool, s.now, msg);
      case SnapStep => SnapHistogram(s);
      case _ =>
    }
  }

  /** In every reachable state, the tracker's response codes are below 16 and their counts add up to the
      matched responses, which never exceed the frames read; so too in every interval sent out. */
  lemma {:induction false} HistogramsAlwaysSound(order: seq<Id>, timeout: nat, acts: seq<Action>)
    ensures HistogramsSound(After(Init(order, timeout), acts))
  {
    if acts == [] {
      Rounds.CountNone(16);
    } else {
      hide Step, HistogramsSound;
      HistogramsAlwaysSound(order, timeout, acts[..|acts| - 1]);
      HistogramStep(After(Init(order, timeout), acts[..|acts| - 1]), acts[|acts| - 1]);
    }
  }

  // ---------------------------------------------------------------- latencies

  /** Every matched response of the run comes at least `lo` and less than `hi` after its query. */
  ghost predicate LatenciesWithin(s: State, acts: seq<Action>, lo: nat, hi: nat) {
    acts == []
    || var init, last := acts[..|acts| - 1], acts[|acts| - 1];
       LatenciesWithin(s, init, lo, hi) && LatencyWithin(After(s, init), last, lo, hi)
  }

  ghost predicate LatencyWithin(s: State, a: Action, lo: nat, hi: nat) {
    Enabled(s, a) && a.Recv? && MsgId(a.msg) in s.pool.inFlight ==>
      lo <= s.now - s.pool.inFlight[MsgId(a.msg)].sent < hi
  }

  /** What the counters of matched responses say about `ok` latencies from `lo` up and below `hi`. */
  ghost predicate InRange(ok: nat, min: nat, max: nat, lo: nat, hi: nat) {
    && max < hi && Min(lo, NO_MIN) <= min
    && (ok > 0 ==> min < hi)
  }

  ghost predicate ExtremesInRange(s: State, lo: nat, hi: nat) {
    && InRange(s.tracker.okRecv, s.tracker.minLatency, s.tracker.maxLatency, lo, hi)
    && (forall iv :: iv in s.emitted ==> InRange(iv.okRecv, iv.minLatency, iv.maxLatency, lo, hi))
  }

  lemma FrameInRange(t: Tracker, p: Pool, now: nat, msg: seq<byte>, lo: nat, hi: nat)
    requires |msg| >= 2 && (MsgId(msg) in p.inFlight ==> |msg| >= 4)
    requires MsgId(msg) in p.inFlight ==> lo <= now - p.inFlight[MsgId(msg)].sent < hi
    requires InRange(t.okRecv, t.minLatency, t.maxLatency, lo, hi)
    ensures var u := OnFrame(t, p, now, msg); InRange(u.okRecv, u.minLatency, u.maxLatency, lo, hi)
  {
    hide Bump;
  }

  lemma SnapInRange(s: State, lo: nat, hi: nat)
    requires hi > 0 && ExtremesInRange(s, lo, hi)
    ensures ExtremesInRange(NextSnap(s), lo, hi)
  {
  }

  lemma ExtremesStep(s: State, a: Action, lo: nat, hi: nat)
    requires hi > 0
    requires ExtremesInRange(s, lo, hi) && LatencyWithin(s, a, lo, hi)
    ensures ExtremesInRange(Step(s, a), lo, hi)
  {
    hide ClearExpired, Batch, AfterPop, Return, Lists, Expired, NextSnap, OnFrame, InRange;
    if Enabled(s, a) {
      match a
      case Recv(msg) => FrameInRange(s.tracker, s.pool, s.now, msg, lo, hi);
      case SnapStep => SnapInRange(s, lo, hi);
      case _ =>
    }
  }

  /** If every response takes at least `lo` and less than `hi`, the tracker's extremes and those of every
      interval sent out are in that range; for the maximum `lo` may be zero. */
  lemma {:induction false} ExtremesAlwaysInRange(order: seq<Id>, timeout: nat, acts: seq<Action>, lo: nat, hi: nat)
    requires hi > 0 && LatenciesWithin(Init(order, timeout), acts, lo, hi)
    ensures ExtremesInRange(After(Init(order, timeout), acts), lo, hi)
  {
    if acts != [] {
      hide Step, ExtremesInRange, LatencyWithin;
      ExtremesAlwaysInRange(order, timeout, acts[..|acts| - 1], lo, hi);
      ExtremesStep(After(Init(order, timeout), acts[..|acts| - 1]), acts[|acts| - 1], lo, hi);
    }
  }

  ghost predicate SentBefore(p: Pool, now: nat) {
    forall id :: id in p.inFlight ==> p.inFlight[id].sent <= now
  }

  ghost predicate LatenciesSound(s: State) {
    && SentBefore(s.pool, s.now)
    && TrackerTimed(s.tracker)
    && (forall iv :: iv in s.emitted ==> Rounds.Timed(iv))
  }

  ghost predicate TrackerTimed(t: Tracker) {
    Rounds.TimedValues(t.okRecv, t.totalLatency, t.minLatency, t.maxLatency)
  }

  lemma FrameTimed(t: Tracker, p: Pool, now: nat, msg: seq<byte>)
    requires |msg| >= 2 && (MsgId(msg) in p.inFlight ==> |msg| >= 4)
    requires MsgId(msg) in p.inFlight ==> p.inFlight[MsgId(msg)].sent <= now
    requires TrackerTimed(t)
    ensures TrackerTimed(OnFrame(t, p, now, msg))
  {
    hide Times, Bump;
    if MsgId(msg) in p.inFlight {
      var latency := now - p.inFlight[MsgId(msg)].sent;
      TimesNext(Min(latency, NO_MIN), 1);
      TimesNext(latency, 1);
      Rounds.TimedMerge(t.okRecv, t.totalLatency, t.minLatency, t.maxLatency,
                        1, latency, Min(latency, NO_MIN), latency);
    }
  }

  lemma SnapLatency(s: State)
    requires LatenciesSound(s)
    ensures LatenciesSound(NextSnap(s))
  {
    hide Times;
  }

  lemma ClearKeepsOrder(p: Pool, now: nat, order: seq<Id>)
    requires SentBefore(p, now)
    ensures SentBefore(ClearExpired(p, order), now)
  {
  }

  lemma LatencyStep(s: State, a: Action)
    requires LatenciesSound(s)
    ensures LatenciesSound(Step(s, a))
  {
    hide NextSnap, OnFrame, Batch, ClearExpired, Lists, Rounds.TimedValues;
    if Enabled(s, a) {
      match a
      case DrainClear(order) => ClearKeepsOrder(s.pool, s.now, order);
      case CleanupTick(order) => ClearKeepsOrder(s.pool, s.now, order);
      case Recv(msg) => FrameTimed(s.tracker, s.pool, s.now, msg);
      case SnapStep => SnapLatency(s);
      case _ =>
    }
  }

  /** In every reachable state, the tracker and every interval sent out have their total latency between
      count times minimum and count times maximum. */
  lemma {:induction false} LatenciesAlwaysSound(order: seq<Id>, timeout: nat, acts: seq<Action>)
    ensures LatenciesSound(After(Init(order, timeout), acts))
  {
    if acts != [] {
      hide Step, LatenciesSound;
      LatenciesAlwaysSound(order, timeout, acts[..|acts| - 1]);
      LatencyStep(After(Init(order, timeout), acts[..|acts| - 1]), acts[|acts| - 1]);
    }
  }
}
