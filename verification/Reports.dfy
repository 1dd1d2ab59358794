/** What each report says: its counters, extremes and codes are those of the answers read since the report
    before, its times those of the clock when it was begun. */
module Reports {
  import opened Basics
  import opened Frames
  import opened StatsModel
  import opened Pool
  import opened Protocol
  import opened History
  import Rounds

  // ---------------------------------------------------------------- counters

  /** The generator's own counters. */
  function ReadTracker(t: Tracker, f: Rounds.Field): nat {
    match f
    case Recv => t.recv
    case OkRecv => t.okRecv
    case Responses(code) => Get(t.rcodes, code)
    case RecvBytes => t.recvBufSize
    case SentBytes => t.bufSize
    case TotalLatency => t.totalLatency
    case _ => 0
  }

  lemma MeasureJoin(a: Stretch, items: nat, answer: Answer, f: Rounds.Field)
    requires Rounds.Tracked(f)
    ensures Measure(Join(a, Stretch(items, [])), f) == Measure(a, f) + if f.Recv? then items else 0
    ensures Measure(Join(a, Stretch(items, [answer])), f)
         == Measure(a, f) + if f.Recv? then items else Gain(answer, f)
  {
    assert a.answers + [] == a.answers;
    assert (a.answers + [answer])[..|a.answers|] == a.answers;
  }

  /** One action adds to the tracker what it adds to the stretch, or closes a report. */
  lemma TrackerStep(s: State, a: Action, f: Rounds.Field)
    requires Rounds.Tracked(f)
    ensures var t := Step(s, a);
            if a.SnapStep? && Enabled(s, a) && s.snap.ClearedSent? then
              && ReadTracker(t.tracker, f) == 0
              && |t.emitted| == |s.emitted| + 1 && t.emitted[..|s.emitted|] == s.emitted
              && Rounds.Read(t.emitted[|s.emitted|], f) == ReadTracker(s.tracker, f)
            else
              && t.emitted == s.emitted
              && (!a.Recv? && !a.RecvError? ==> t.tracker == s.tracker)
              && (a.RecvError? && Enabled(s, a) ==> t.tracker == s.tracker.(recv := s.tracker.recv + 1))
              && (a.Recv? && Enabled(s, a) ==> t.tracker == OnFrame(s.tracker, s.pool, s.now, a.msg))
              && (!Enabled(s, a) ==> t == s)
  {
    hide OnFrame, ClearExpired, Batch, AfterPop, Launch, Return, Lists, Expired;
  }

  lemma FrameTracker(t: Tracker, p: Pool, now: nat, msg: seq<byte>, f: Rounds.Field)
    requires |msg| >= 2 && (MsgId(msg) in p.inFlight ==> |msg| >= 4)
    requires Rounds.Tracked(f)
    ensures var u, id := OnFrame(t, p, now, msg), MsgId(msg);
            ReadTracker(u, f) == ReadTracker(t, f) +
              if f.Recv? then 1
              else if id !in p.inFlight then 0
              else Gain(Answer(Since(now, p.inFlight[id].sent), Rcode(msg), p.inFlight[id].len, |msg|), f)
  {
  }

  /** In every reachable state the tracker counts what was read since the last report closed, and each report
      sent counts what was read over its own stretch of the run. */
  lemma {:induction false} CountersAreHistory(order: seq<Id>, timeout: nat, acts: seq<Action>, f: Rounds.Field)
    requires Rounds.Tracked(f)
    ensures var s0 := Init(order, timeout);
            var s, closed := After(s0, acts), Closed(s0, acts);
            && ReadTracker(s.tracker, f) == Measure(Current(s0, acts), f)
            && |s.emitted| == |closed|
            && forall k :: 0 <= k < |closed| ==> Rounds.Read(s.emitted[k], f) == Measure(closed[k], f)
  {
    if acts != [] {
      hide Step, Enabled, OnFrame, ReadTracker, Measure, MsgId, Gain;
      var init, last := acts[..|acts| - 1], acts[|acts| - 1];
      var s0 := Init(order, timeout);
      var t := After(s0, init);
      CountersAreHistory(order, timeout, init, f);
      TrackerStep(t, last, f);
      CurrentStep(order, timeout, init, last, f);
      NothingMeasured(f);
    } else {
      NothingMeasured(f);
    }
  }

  lemma NothingMeasured(f: Rounds.Field)
    ensures Measure(Stretch(0, []), f) == 0 && ReadTracker(FRESH, f) == 0
  {
  }

  lemma CurrentStep(order: seq<Id>, timeout: nat, init: seq<Action>, last: Action, f: Rounds.Field)
    requires Rounds.Tracked(f)
    requires var s0 := Init(order, timeout);
             ReadTracker(After(s0, init).tracker, f) == Measure(Current(s0, init), f)
    ensures var s0 := Init(order, timeout);
            !Closes(s0, init, last) ==>
              ReadTracker(Step(After(s0, init), last).tracker, f)
              == Measure(Join(Current(s0, init), Reads(s0, init, last)), f)
  {
    hide Step, After, OnFrame, ReadTracker, Measure, MsgId, Gain, Current, Init, Join;
    var s0 := Init(order, timeout);
    var t := After(s0, init);
    TrackerStep(t, last, f);
    if Enabled(t, last) && last.Recv? {
      ReadsByRecord(order, timeout, init, last);
      FrameTracker(t.tracker, t.pool, t.now, last.msg, f);
      var answers := Reads(s0, init, last).answers;
      MeasureJoin(Current(s0, init), 1, if answers == [] then Answer(0, 0, 0, 0) else answers[0], f);
    } else if Enabled(t, last) && last.RecvError? {
      MeasureJoin(Current(s0, init), 1, Answer(0, 0, 0, 0), f);
      BadItemTracker(t.tracker, f);
    } else {
      MeasureJoin(Current(s0, init), 0, Answer(0, 0, 0, 0), f);
    }
  }

  lemma BadItemTracker(t: Tracker, f: Rounds.Field)
    ensures ReadTracker(t.(recv := t.recv + 1), f) == ReadTracker(t, f) + if f.Recv? then 1 else 0
  {
  }

  // ---------------------------------------------------------------- extremes and codes

  /** Extremes and codes are those of these answers. */
  ghost predicate Tells(answers: seq<Answer>, min: nat, max: nat, rcodes: Histogram) {
    && min == Least(answers) && max == Greatest(answers)
    && forall code: nat :: code in rcodes <==> HasCode(answers, code)
  }

  lemma FrameTells(answers: seq<Answer>, t: Tracker, p: Pool, now: nat, msg: seq<byte>)
    requires |msg| >= 2 && MsgId(msg) in p.inFlight && |msg| >= 4
    requires p.inFlight[MsgId(msg)].sent <= now
    requires Tells(answers, t.minLatency, t.maxLatency, t.rcodes)
    ensures var u, info := OnFrame(t, p, now, msg), p.inFlight[MsgId(msg)];
            Tells(answers + [Answer(now - info.sent, Rcode(msg), info.len, |msg|)],
                  u.minLatency, u.maxLatency, u.rcodes)
  {
    hide MsgId, Rcode;
    var info := p.inFlight[MsgId(msg)];
    var answer := Answer(now - info.sent, Rcode(msg), info.len, |msg|);
    var all := answers + [answer];
    assert all[..|answers|] == answers;
    var u := OnFrame(t, p, now, msg);
    assert u.rcodes.Keys == t.rcodes.Keys + {answer.code};
    forall code: nat
      ensures HasCode(all, code) <==> HasCode(answers, code) || code == answer.code
    {
      assert answer in all;
    }
  }

  lemma StrayTells(t: Tracker, p: Pool, now: nat, msg: seq<byte>)
    requires |msg| >= 2 && MsgId(msg) !in p.inFlight
    ensures OnFrame(t, p, now, msg) == t.(recv := t.recv + 1)
  {
  }

  lemma CloseTells(s: State, answers: seq<Answer>)
    requires Enabled(s, SnapStep) && s.snap.ClearedSent?
    requires Tells(answers, s.tracker.minLatency, s.tracker.maxLatency, s.tracker.rcodes)
    ensures var t := Step(s, SnapStep);
            && Tells([], t.tracker.minLatency, t.tracker.maxLatency, t.tracker.rcodes)
            && |t.emitted| == |s.emitted| + 1 && t.emitted[..|s.emitted|] == s.emitted
            && var iv := t.emitted[|s.emitted|]; Tells(answers, iv.minLatency, iv.maxLatency, iv.rcodes)
  {
    hide Least, Greatest, HasCode;
    NothingTold();
  }

  lemma NothingTold()
    ensures Tells([], NO_MIN, 0, map[])
  {
  }

  lemma CurrentTells(order: seq<Id>, timeout: nat, init: seq<Action>, last: Action)
    requires var s0 := Init(order, timeout);
             var t := After(s0, init).tracker;
             Tells(Current(s0, init).answers, t.minLatency, t.maxLatency, t.rcodes)
    ensures var s0 := Init(order, timeout);
            var u := Step(After(s0, init), last).tracker;
            !Closes(s0, init, last) ==>
              Tells(Join(Current(s0, init), Reads(s0, init, last)).answers, u.minLatency, u.maxLatency, u.rcodes)
  {
    hide Step, After, OnFrame, MsgId, Rcode, Current, Init, Tells;
    var s0 := Init(order, timeout);
    var t, answers := After(s0, init), Current(s0, init).answers;
    TrackerStep(t, last, Rounds.Recv);
    assert answers + [] == answers;
    if Enabled(t, last) && last.Recv? {
      ReadsByRecord(order, timeout, init, last);
      if MsgId(last.msg) in t.pool.inFlight {
        FrameTells(answers, t.tracker, t.pool, t.now, last.msg);
      } else {
        StrayTells(t.tracker, t.pool, t.now, last.msg);
      }
    }
  }

  /** In every reachable state the tracker's extremes are the least and the greatest of the latencies answered
      since the last report closed, and its codes are those answered; so too in each report for its stretch. */
  lemma {:induction false} ExtremesAreHistory(order: seq<Id>, timeout: nat, acts: seq<Action>)
    ensures var s0 := Init(order, timeout);
            var s, closed := After(s0, acts), Closed(s0, acts);
            && Tells(Current(s0, acts).answers, s.tracker.minLatency, s.tracker.maxLatency, s.tracker.rcodes)
            && |s.emitted| == |closed|
            && forall k :: 0 <= k < |closed| ==>
                 var iv := s.emitted[k]; Tells(closed[k].answers, iv.minLatency, iv.maxLatency, iv.rcodes)
  {
    NothingTold();
    if acts != [] {
      hide Step, Enabled, OnFrame, Tells;
      var init, last := acts[..|acts| - 1], acts[|acts| - 1];
      var s0 := Init(order, timeout);
      var t := After(s0, init);
      ExtremesAreHistory(order, timeout, init);
      TrackerStep(t, last, Rounds.Recv);
      CurrentTells(order, timeout, init, last);
      if Closes(s0, init, last) {
        CloseTells(t, Current(s0, init).answers);
      }
    }
  }

  // ---------------------------------------------------------------- times

  /** When a report was begun, and how many queries were in flight then. */
  datatype Gauge = Gauge(at: nat, inFlight: nat)

  /** The reports begun so far. */
  ghost function Gauges(s: State, acts: seq<Action>): seq<Gauge> {
    if acts == [] then []
    else
      var init, last := acts[..|acts| - 1], acts[|acts| - 1];
      var t := After(s, init);
      Gauges(s, init)
      + if last.SnapStep? && Enabled(t, last) && t.snap.Idle? then [Gauge(Clock(init), |t.pool.inFlight|)] else []
  }

  /** The clock when the k-th report was begun; the run starts at zero. */
  function GaugedAt(gauges: seq<Gauge>, k: nat): nat
    requires k <= |gauges|
  {
    if k == 0 then 0 else gauges[k - 1].at
  }

  /** An interval covers the time between its gauge and the one before. */
  ghost predicate Covers(iv: Interval, gauges: seq<Gauge>, k: nat)
    requires k < |gauges|
  {
    && iv.interval == k
    && iv.duration == gauges[k].at && iv.inFlight == gauges[k].inFlight
    && GaugedAt(gauges, k) <= gauges[k].at
    && iv.elapsed == gauges[k].at - GaugedAt(gauges, k)
  }

  ghost predicate TimesMatch(s: State, gauges: seq<Gauge>) {
    var n := |s.emitted|;
    && s.tracker.intervals == n
    && |gauges| == n + (if s.snap.Idle? then 0 else 1)
    && (forall k :: 0 <= k < n ==> Covers(s.emitted[k], gauges, k))
    && s.duration == GaugedAt(gauges, |gauges|) <= s.now
    && (s.snap.Idle? || (s.snap.inFlight == gauges[n].inFlight && GaugedAt(gauges, n) <= gauges[n].at
                         && s.snap.elapsed == gauges[n].at - GaugedAt(gauges, n)))
    && (s.phase.Serving? || (s.snap.Idle? && !s.phase.Finished?) ==> s.lastLog == s.duration)
    && (!s.phase.Serving? && !s.phase.Closing? ==> s.snap.Idle?)
  }

  lemma SnapTimes(s: State, gauges: seq<Gauge>)
    requires TimesMatch(s, gauges) && (s.phase.Serving? || s.phase.Closing?)
    ensures TimesMatch(NextSnap(s), gauges + if s.snap.Idle? then [Gauge(s.now, |s.pool.inFlight|)] else [])
  {
    hide Report, AfterReport, Covers;
    assert gauges + [] == gauges;
    if s.snap.Idle? {
      var more := gauges + [Gauge(s.now, |s.pool.inFlight|)];
      forall k | 0 <= k < |gauges|
        ensures Covers(s.emitted[k], more, k)
      {
        CoversStill(s.emitted[k], gauges, more[|gauges|], k);
      }
    } else if s.snap.ClearedSent? {
      ReportTimes(s);
      ReportCovers(s, gauges);
    }
  }

  lemma CoversStill(iv: Interval, gauges: seq<Gauge>, gauge: Gauge, k: nat)
    requires k < |gauges| && Covers(iv, gauges, k)
    ensures Covers(iv, gauges + [gauge], k)
  {
  }

  lemma ReportCovers(s: State, gauges: seq<Gauge>)
    requires TimesMatch(s, gauges) && s.snap.ClearedSent?
    ensures Covers(ReportNow(s), gauges, |s.emitted|)
  {
    ReportTimes(s);
    hide Report;
  }

  lemma ReportTimes(s: State)
    requires s.snap.ClearedSent?
    ensures var iv := ReportNow(s);
            && iv.interval == s.tracker.intervals && iv.duration == s.duration
            && iv.elapsed == s.snap.elapsed && iv.inFlight == s.snap.inFlight
            && AfterReport(s.tracker).intervals == s.tracker.intervals + 1
  {
  }

  lemma TimesStep(s: State, a: Action, gauges: seq<Gauge>)
    requires TimesMatch(s, gauges)
    ensures TimesMatch(Step(s, a), gauges + if a.SnapStep? && Enabled(s, a) && s.snap.Idle?
                                            then [Gauge(s.now, |s.pool.inFlight|)] else [])
  {
    hide NextSnap, ClearExpired, Batch, AfterPop, Launch, Return, Lists, Expired, Covers;
    assert gauges + [] == gauges;
    if Enabled(s, a) {
      match a
      case SnapStep => SnapTimes(s, gauges);
      case Recv(msg) => assert OnFrame(s.tracker, s.pool, s.now, msg).intervals == s.tracker.intervals;
      case _ =>
    }
  }

  /** The k-th report says when it was begun, how many queries were in flight then, and that it covers the time
      since the report before it was begun, by the clock of the action list. */
  lemma {:induction false} TimesAreHistory(order: seq<Id>, timeout: nat, acts: seq<Action>)
    ensures var s0 := Init(order, timeout);
            var s, gauges := After(s0, acts), Gauges(s0, acts);
            && TimesMatch(s, gauges)
            && |s.emitted| <= |gauges|
            && forall k :: 0 <= k < |s.emitted| ==> Covers(s.emitted[k], gauges, k)
  {
    if acts != [] {
      hide Step, Enabled, Covers;
      var init, last := acts[..|acts| - 1], acts[|acts| - 1];
      TimesAreHistory(order, timeout, init);
      ClockExact(order, timeout, init);
      TimesStep(After(Init(order, timeout), init), last, Gauges(Init(order, timeout), init));
    }
  }
}
