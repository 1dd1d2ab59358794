/** What happened in a run, told from its list of actions: when each thing was done, which queries are open,
    how each was answered. A state is asked only which actions can happen in it, which identifier the sender
    takes next, and where a report stands; clock, records, counters and reports are then proved to be these. */
module History {
  import opened Basics
  import opened Frames
  import opened MovingAverage
  import opened StatsModel
  import opened Pool
  import opened Protocol
  import Rounds

  // ---------------------------------------------------------------- the clock

  function Clock(acts: seq<Action>): nat {
    if acts == [] then 0
    else Clock(acts[..|acts| - 1]) + if acts[|acts| - 1].Advance? then acts[|acts| - 1].d else 0
  }

  lemma ClockStep(s: State, a: Action)
    ensures Step(s, a).now == s.now + if a.Advance? then a.d else 0
  {
    hide NextSnap, OnFrame, ClearExpired, Batch, AfterPop, Launch, Return, Lists, Expired;
    SnapKeeps(s);
  }

  lemma {:induction false} ClockExact(order: seq<Id>, timeout: nat, acts: seq<Action>)
    ensures After(Init(order, timeout), acts).now == Clock(acts)
  {
    if acts != [] {
      hide Step;
      ClockExact(order, timeout, acts[..|acts| - 1]);
      ClockStep(After(Init(order, timeout), acts[..|acts| - 1]), acts[|acts| - 1]);
    }
  }

  // ---------------------------------------------------------------- open queries

  /** The query open under an identifier: when its last insert happened and how long it was, unless it has been
      answered or cleared since. */
  ghost function OpenQuery(s: State, acts: seq<Action>, id: Id): Option<QueryInfo> {
    if acts == [] then None
    else
      var init, last := acts[..|acts| - 1], acts[|acts| - 1];
      var t := After(s, init);
      if !Enabled(t, last) then OpenQuery(s, init, id)
      else
        match last
        case Insert(len) =>
          if t.pending[0] == id then Some(QueryInfo(Clock(init), len)) else OpenQuery(s, init, id)
        case Recv(msg) => if msg[..2] == Bare(id) then None else OpenQuery(s, init, id)
        case DrainClear(order) => if id in order then None else OpenQuery(s, init, id)
        case CleanupTick(order) => if id in order then None else OpenQuery(s, init, id)
        case _ => OpenQuery(s, init, id)
  }

  /** What one action does to the record of one identifier. */
  lemma RecordStep(s: State, a: Action, id: Id)
    ensures var p, q := s.pool.inFlight, Step(s, a).pool.inFlight;
            if !Enabled(s, a) then q == p
            else if a.Insert? && s.pending[0] == id then id in q && q[id] == QueryInfo(s.now, a.len)
            else if (a.Recv? && a.msg[..2] == Bare(id)) || id in ClearedBy(a) then id !in q
            else (id in q <==> id in p) && (id in p ==> q[id] == p[id])
  {
    hide NextSnap, OnFrame, Batch, Lists, Expired, MsgId;
    SnapKeeps(s);
    if Enabled(s, a) && a.Recv? {
      IdComesFirst(a.msg, id, []);
    }
  }

  /** The record in flight under each identifier is that query, with its own clock reading and length. */
  lemma {:induction false} FlightIsHistory(order: seq<Id>, timeout: nat, acts: seq<Action>, id: Id)
    ensures var s := Init(order, timeout);
            var flight := After(s, acts).pool.inFlight;
            OpenQuery(s, acts, id) == if id in flight then Some(flight[id]) else None
  {
    if acts != [] {
      hide Step, Enabled;
      var init, last := acts[..|acts| - 1], acts[|acts| - 1];
      FlightIsHistory(order, timeout, init, id);
      ClockExact(order, timeout, init);
      RecordStep(After(Init(order, timeout), init), last, id);
    }
  }

  // ---------------------------------------------------------------- the final wait

  /** When the generator left its event loop. */
  ghost function ShutdownAt(s: State, acts: seq<Action>): Option<nat> {
    if acts == [] then None
    else
      var init, last := acts[..|acts| - 1], acts[|acts| - 1];
      if last.Shutdown? && Enabled(After(s, init), last) then Some(Clock(init)) else ShutdownAt(s, init)
  }

  /** When a turn of the final wait last cleared the store. */
  ghost function LastClearing(s: State, acts: seq<Action>): Option<nat> {
    if acts == [] then None
    else
      var init, last := acts[..|acts| - 1], acts[|acts| - 1];
      if last.DrainClear? && Enabled(After(s, init), last) then Some(Clock(init)) else LastClearing(s, init)
  }

  /** When a turn last checked whether to go on. */
  ghost function LastCheck(s: State, acts: seq<Action>): Option<nat> {
    if acts == [] then None
    else
      var init, last := acts[..|acts| - 1], acts[|acts| - 1];
      if last.DrainCheck? && Enabled(After(s, init), last) then Some(Clock(init)) else LastCheck(s, init)
  }

  /** The state knows these instants. */
  ghost predicate WaitMatches(phase: Phase, shutdown: Option<nat>, clearing: Option<nat>, check: Option<nat>) {
    match phase
    case Serving => shutdown == None && clearing == None && check == None
    case Draining(since) => shutdown == Some(since)
    case Checking(since, clearAt) => shutdown == Some(since) && clearing == Some(clearAt)
    case Closing(wait) =>
      shutdown == Some(wait.since) && clearing == Some(wait.clearAt) && check == Some(wait.checkAt)
    case Finished(wait) =>
      shutdown == Some(wait.since) && clearing == Some(wait.clearAt) && check == Some(wait.checkAt)
  }

  lemma WaitStep(s: State, a: Action, shutdown: Option<nat>, clearing: Option<nat>, check: Option<nat>)
    requires WaitMatches(s.phase, shutdown, clearing, check)
    ensures var happens := Enabled(s, a);
            WaitMatches(Step(s, a).phase,
                        if a.Shutdown? && happens then Some(s.now) else shutdown,
                        if a.DrainClear? && happens then Some(s.now) else clearing,
                        if a.DrainCheck? && happens then Some(s.now) else check)
  {
    hide OnFrame, ClearExpired, Batch, AfterPop, Launch, Return, Lists, Expired, Report, AfterReport;
  }

  /** The wait starts its time at the shutdown, and its clearing and check are those of the action list. */
  lemma {:induction false} WaitIsHistory(order: seq<Id>, timeout: nat, acts: seq<Action>)
    ensures var s := Init(order, timeout);
            WaitMatches(After(s, acts).phase, ShutdownAt(s, acts), LastClearing(s, acts), LastCheck(s, acts))
  {
    if acts != [] {
      hide Step, Enabled, WaitMatches;
      var init, last := acts[..|acts| - 1], acts[|acts| - 1];
      var s := Init(order, timeout);
      WaitIsHistory(order, timeout, init);
      ClockExact(order, timeout, init);
      WaitStep(After(s, init), last, ShutdownAt(s, init), LastClearing(s, init), LastCheck(s, init));
    } else {
      assert WaitMatches(Serving, None, None, None);
    }
  }

  // ---------------------------------------------------------------- the other tasks

  /** The sender has stopped. */
  ghost predicate Stopped(s: State, acts: seq<Action>) {
    acts != [] && var init, last := acts[..|acts| - 1], acts[|acts| - 1];
                  Stopped(s, init) || (last.SenderStop? && Enabled(After(s, init), last))
  }

  /** How often the cleanup task has run. */
  ghost function Cleanups(s: State, acts: seq<Action>): nat {
    if acts == [] then 0
    else
      var init, last := acts[..|acts| - 1], acts[|acts| - 1];
      Cleanups(s, init) + if last.CleanupTick? && Enabled(After(s, init), last) then 1 else 0
  }

  lemma TasksStep(s: State, a: Action)
    ensures var t := Step(s, a);
            && t.running == (s.running && !(a.SenderStop? && Enabled(s, a)))
            && t.timeout == s.timeout
            && t.due == s.due + if a.CleanupTick? && Enabled(s, a) then s.timeout else 0
  {
    hide NextSnap, OnFrame, ClearExpired, Batch, AfterPop, Launch, Return, Lists, Expired;
    SnapKeeps(s);
  }

  /** The sender runs until it stops, and the cleanup task's deadlines are the multiples of the timeout, one
      after the other, however late it is. */
  lemma {:induction false} TasksAreHistory(order: seq<Id>, timeout: nat, acts: seq<Action>)
    ensures var s0 := Init(order, timeout);
            var s := After(s0, acts);
            && (s.running <==> !Stopped(s0, acts))
            && s.timeout == timeout && s.due == Times(timeout, Cleanups(s0, acts) + 1)
  {
    hide Times;
    if acts == [] {
      TimesNext(timeout, 0);
    } else {
      hide Step, Enabled;
      var init, last := acts[..|acts| - 1], acts[|acts| - 1];
      TasksAreHistory(order, timeout, init);
      TasksStep(After(Init(order, timeout), init), last);
      TimesNext(timeout, Cleanups(Init(order, timeout), init) + 1);
    }
  }

  // ---------------------------------------------------------------- answers

  /** A response to an open query: the time since that was sent, the response code, and both lengths. */
  datatype Answer = Answer(latency: nat, code: nat, query: nat, size: nat)

  lemma {:induction false} OpenedBefore(s: State, acts: seq<Action>, id: Id)
    ensures OpenQuery(s, acts, id).Some? ==> OpenQuery(s, acts, id).value.sent <= Clock(acts)
  {
    if acts != [] {
      hide Enabled, Step, After;
      OpenedBefore(s, acts[..|acts| - 1], id);
    }
  }

  /** What the generator read over a stretch of the run: how many items, and which answers. */
  datatype Stretch = Stretch(items: nat, answers: seq<Answer>)

  /** The items the last action of a run adds. */
  ghost function Reads(s: State, init: seq<Action>, last: Action): Stretch {
    if !Enabled(After(s, init), last) then Stretch(0, [])
    else
      match last
      case RecvError => Stretch(1, [])
      case Recv(msg) =>
        var query := OpenQuery(s, init, msg[0] as int * 0x100 + msg[1] as int);
        Stretch(1, if query.None? || |msg| < 4 then []
                   else [Answer(Since(Clock(init), query.value.sent), msg[3] % 16, query.value.len, |msg|)])
      case _ => Stretch(0, [])
  }

  /** The same by the store's own records, which `FlightIsHistory` allows. */
  lemma ReadsByRecord(order: seq<Id>, timeout: nat, init: seq<Action>, last: Action)
    ensures var s := Init(order, timeout);
            var t := After(s, init);
            last.Recv? && Enabled(t, last) ==>
              var id, msg := MsgId(last.msg), last.msg;
              && (id in t.pool.inFlight ==> t.pool.inFlight[id].sent <= t.now)
              && Reads(s, init, last)
                 == Stretch(1, if id !in t.pool.inFlight then []
                               else [Answer(t.now - t.pool.inFlight[id].sent, Rcode(msg),
                                            t.pool.inFlight[id].len, |msg|)])
  {
    hide After, Init;
    if last.Recv? && Enabled(After(Init(order, timeout), init), last) {
      FlightIsHistory(order, timeout, init, MsgId(last.msg));
      ClockExact(order, timeout, init);
      OpenedBefore(Init(order, timeout), init, MsgId(last.msg));
    }
  }

  function Join(a: Stretch, b: Stretch): Stretch {
    Stretch(a.items + b.items, a.answers + b.answers)
  }

  /** The whole run as one stretch. */
  ghost function Whole(s: State, acts: seq<Action>): Stretch {
    if acts == [] then Stretch(0, [])
    else Join(Whole(s, acts[..|acts| - 1]), Reads(s, acts[..|acts| - 1], acts[|acts| - 1]))
  }

  /** The last action closes a report. */
  ghost predicate Closes(s: State, init: seq<Action>, last: Action) {
    last.SnapStep? && Enabled(After(s, init), last) && After(s, init).snap.ClearedSent?
  }

  /** The stretch since the last report was closed. */
  ghost function Current(s: State, acts: seq<Action>): Stretch {
    if acts == [] then Stretch(0, [])
    else
      var init, last := acts[..|acts| - 1], acts[|acts| - 1];
      if Closes(s, init, last) then Stretch(0, []) else Join(Current(s, init), Reads(s, init, last))
  }

  /** The stretches the closed reports cover. */
  ghost function Closed(s: State, acts: seq<Action>): seq<Stretch> {
    if acts == [] then []
    else
      var init, last := acts[..|acts| - 1], acts[|acts| - 1];
      Closed(s, init) + if Closes(s, init, last) then [Current(s, init)] else []
  }

  // ---------------------------------------------------------------- what a stretch measures

  function Gain(a: Answer, f: Rounds.Field): nat {
    match f
    case OkRecv => 1
    case Responses(code) => if a.code == code then 1 else 0
    case RecvBytes => a.size
    case SentBytes => a.query
    case TotalLatency => a.latency
    case _ => 0
  }

  function SumGain(answers: seq<Answer>, f: Rounds.Field): nat {
    if answers == [] then 0 else SumGain(answers[..|answers| - 1], f) + Gain(answers[|answers| - 1], f)
  }

  function Measure(st: Stretch, f: Rounds.Field): nat {
    if f.Recv? then st.items else SumGain(st.answers, f)
  }

  function SumMeasures(stretches: seq<Stretch>, f: Rounds.Field): nat {
    if stretches == [] then 0
    else SumMeasures(stretches[..|stretches| - 1], f) + Measure(stretches[|stretches| - 1], f)
  }

  lemma {:induction false} GainAppend(a: seq<Answer>, b: seq<Answer>, f: Rounds.Field)
    ensures SumGain(a + b, f) == SumGain(a, f) + SumGain(b, f)
  {
    if b == [] {
      assert a + b == a;
    } else {
      GainAppend(a, b[..|b| - 1], f);
      assert (a + b)[..|a + b| - 1] == a + b[..|b| - 1];
    }
  }

  lemma MeasureAdds(a: Stretch, b: Stretch, f: Rounds.Field)
    ensures Measure(Join(a, b), f) == Measure(a, f) + Measure(b, f)
    ensures Measure(Stretch(0, []), f) == 0
  {
    GainAppend(a.answers, b.answers, f);
  }

  /** The closed stretches and the current one make up the run. */
  lemma {:induction false} StretchesMakeWhole(s: State, acts: seq<Action>, f: Rounds.Field)
    ensures SumMeasures(Closed(s, acts), f) + Measure(Current(s, acts), f) == Measure(Whole(s, acts), f)
  {
    if acts == [] {
      MeasureAdds(Stretch(0, []), Stretch(0, []), f);
    } else {
      hide Measure, Join, Reads, Closes, After;
      var init, last := acts[..|acts| - 1], acts[|acts| - 1];
      StretchesMakeWhole(s, init, f);
      MeasureAdds(Current(s, init), Reads(s, init, last), f);
      MeasureAdds(Whole(s, init), Reads(s, init, last), f);
      if Closes(s, init, last) {
        ClosingReadsNothing(s, init, last);
        assert (Closed(s, init) + [Current(s, init)])[..|Closed(s, init)|] == Closed(s, init);
      } else {
        assert Closed(s, init) + [] == Closed(s, init);
      }
    }
  }

  lemma ClosingReadsNothing(s: State, init: seq<Action>, last: Action)
    requires Closes(s, init, last)
    ensures Reads(s, init, last) == Stretch(0, [])
  {
  }

  /** The least latency, below the value that stands for none. */
  function Least(answers: seq<Answer>): nat {
    if answers == [] then NO_MIN else Min(Least(answers[..|answers| - 1]), answers[|answers| - 1].latency)
  }

  function Greatest(answers: seq<Answer>): nat {
    if answers == [] then 0 else Max(Greatest(answers[..|answers| - 1]), answers[|answers| - 1].latency)
  }

  lemma {:induction false} LeastAppend(a: seq<Answer>, b: seq<Answer>)
    ensures Least(a + b) == Min(Least(a), Least(b)) && Greatest(a + b) == Max(Greatest(a), Greatest(b))
    ensures Least(a) <= NO_MIN
  {
    if b == [] {
      assert a + b == a;
      LeastBounds(a);
    } else {
      LeastAppend(a, b[..|b| - 1]);
      assert (a + b)[..|a + b| - 1] == a + b[..|b| - 1];
    }
  }

  lemma {:induction false} LeastBounds(answers: seq<Answer>)
    ensures Least(answers) <= NO_MIN
    ensures forall a :: a in answers ==> Least(answers) <= a.latency <= Greatest(answers)
    ensures Least(answers) == NO_MIN || exists a :: a in answers && a.latency == Least(answers)
    ensures Greatest(answers) == 0 || exists a :: a in answers && a.latency == Greatest(answers)
  {
    if answers != [] {
      LeastBounds(answers[..|answers| - 1]);
      assert answers == answers[..|answers| - 1] + [answers[|answers| - 1]];
    }
  }

  function AnswersOf(stretches: seq<Stretch>): seq<Answer> {
    if stretches == [] then []
    else AnswersOf(stretches[..|stretches| - 1]) + stretches[|stretches| - 1].answers
  }

  lemma {:induction false} AnswersMakeWhole(s: State, acts: seq<Action>)
    ensures AnswersOf(Closed(s, acts)) + Current(s, acts).answers == Whole(s, acts).answers
  {
    if acts != [] {
      hide Reads, Closes, After;
      var init, last := acts[..|acts| - 1], acts[|acts| - 1];
      AnswersMakeWhole(s, init);
      if Closes(s, init, last) {
        ClosingReadsNothing(s, init, last);
        assert (Closed(s, init) + [Current(s, init)])[..|Closed(s, init)|] == Closed(s, init);
      } else {
        assert Closed(s, init) + [] == Closed(s, init);
      }
    }
  }

  ghost predicate HasCode(answers: seq<Answer>, code: nat) {
    exists a :: a in answers && a.code == code
  }
}
