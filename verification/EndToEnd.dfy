/** From the tasks of every generator to the totals printed at the end. */
module EndToEnd {
  import opened Basics
  import opened StatsModel
  import opened Protocol
  import Books
  import History
  import Reports
  import Ledger
  import Timing
  import Rounds

  /** One generator's run: its shuffled pool, its timeout, and what its tasks did. */
  datatype Run = Run(order: seq<Id>, timeout: nat, acts: seq<Action>) {
    ghost function Start(): State {
      Init(order, timeout)
    }

    ghost function End(): State {
      After(Start(), acts)
    }

    ghost function Count(e: Event): nat {
      Tally(Start(), acts, e)
    }

    /** One if the sender stopped, or stands, between sending a query and counting it. */
    ghost function Uncounted(): nat {
      if End().uncounted then 1 else 0
    }

    /** Sends not reported yet: read for a report, still to be read, or still to be counted. */
    ghost function HeldSends(): nat {
      Books.ReadSent(End()) + Books.LiveSent(End()) + Uncounted()
    }

    /** Outcomes not reported yet: answers, time-outs read or still to be read, and queries still open. */
    ghost function HeldOutcomes(): nat {
      End().tracker.okRecv + Books.ReadTimeouts(End()) + Books.LiveTimeouts(End()) + |End().pool.inFlight|
    }
  }

  /** All intervals the generators send to the statistics task. */
  ghost function AllEmitted(runs: seq<Run>): seq<Interval> {
    if runs == [] then [] else AllEmitted(runs[..|runs| - 1]) + runs[|runs| - 1].End().emitted
  }

  ghost function Sum(runs: seq<Run>, e: Event): nat {
    if runs == [] then 0 else Sum(runs[..|runs| - 1], e) + runs[|runs| - 1].Count(e)
  }

  /** What all runs read, matched and measured. */
  ghost function SumMeasured(runs: seq<Run>, f: Rounds.Field): nat {
    if runs == [] then 0
    else
      var last := runs[|runs| - 1];
      SumMeasured(runs[..|runs| - 1], f) + History.Measure(History.Whole(last.Start(), last.acts), f)
  }

  ghost function SumUncounted(runs: seq<Run>): nat {
    if runs == [] then 0 else SumUncounted(runs[..|runs| - 1]) + runs[|runs| - 1].Uncounted()
  }

  ghost function SumHeldSends(runs: seq<Run>): nat {
    if runs == [] then 0 else SumHeldSends(runs[..|runs| - 1]) + runs[|runs| - 1].HeldSends()
  }

  ghost function SumHeldOutcomes(runs: seq<Run>): nat {
    if runs == [] then 0 else SumHeldOutcomes(runs[..|runs| - 1]) + runs[|runs| - 1].HeldOutcomes()
  }

  lemma RunBooks(run: Run)
    ensures var emitted := run.End().emitted;
            Rounds.Total(emitted, Rounds.Sent) + run.HeldSends() + run.Count(LostSent)
            == Rounds.Total(emitted, Rounds.OkRecv) + Rounds.Total(emitted, Rounds.Timeouts)
               + run.HeldOutcomes() + run.Count(LostTimeouts) + run.Count(Overwrites)
  {
    hide After, Tally, Rounds.Total;
    Books.BooksBalance(run.order, run.timeout, run.acts);
  }

  lemma {:induction false} EmittedBooks(runs: seq<Run>)
    ensures Rounds.Total(AllEmitted(runs), Rounds.Sent) + SumHeldSends(runs) + Sum(runs, LostSent)
         == Rounds.Total(AllEmitted(runs), Rounds.OkRecv) + Rounds.Total(AllEmitted(runs), Rounds.Timeouts)
            + SumHeldOutcomes(runs) + Sum(runs, LostTimeouts) + Sum(runs, Overwrites)
  {
    if runs != [] {
      hide Tally, After, Rounds.Read, Books.ReadSent, Books.ReadTimeouts;
      var init, last := runs[..|runs| - 1], runs[|runs| - 1];
      EmittedBooks(init);
      RunBooks(last);
      Rounds.TotalAppend(AllEmitted(init), last.End().emitted, Rounds.Sent);
      Rounds.TotalAppend(AllEmitted(init), last.End().emitted, Rounds.OkRecv);
      Rounds.TotalAppend(AllEmitted(init), last.End().emitted, Rounds.Timeouts);
    }
  }

  /** What the statistics task receives from the generators, in any interleaving. */
  ghost predicate Received(runs: seq<Run>, received: seq<Interval>) {
    multiset(received) == multiset(AllEmitted(runs))
  }

  /** At any moment, with generators anywhere in their runs and some intervals still in the channel, sends
      balance outcomes: what the totals, the open round, the channel and the generators themselves count as
      sent, with what was lost, is what they count as answered, timed out or still open, with what was lost
      or overwritten. */
  lemma EverythingReceivedBalances(runs: seq<Run>, received: seq<Interval>, coming: seq<Interval>)
    requires runs != [] && Received(runs, received + coming)
    ensures var r := RunnerAfter(|runs|, received);
            r.totals.sent + r.summary.sent + Rounds.Total(coming, Rounds.Sent)
            + SumHeldSends(runs) + Sum(runs, LostSent)
            == r.totals.okRecv + r.summary.okRecv + Rounds.Total(coming, Rounds.OkRecv)
               + r.totals.timeouts + r.summary.timeouts + Rounds.Total(coming, Rounds.Timeouts)
               + SumHeldOutcomes(runs) + Sum(runs, LostTimeouts) + Sum(runs, Overwrites)
  {
    hide AllEmitted, Rounds.Total, RunnerAfter, Sum, SumHeldSends, SumHeldOutcomes;
    HoldsAll(runs, received, coming, Rounds.Sent);
    HoldsAll(runs, received, coming, Rounds.OkRecv);
    HoldsAll(runs, received, coming, Rounds.Timeouts);
    EmittedBooks(runs);
  }

  lemma {:induction false} SettledHoldNothing(runs: seq<Run>)
    requires forall run :: run in runs ==> Timing.Settled(run.End())
    ensures SumHeldSends(runs) == SumUncounted(runs) && SumHeldOutcomes(runs) == 0
  {
    if runs != [] {
      hide After;
      SettledHoldNothing(runs[..|runs| - 1]);
      assert Timing.Settled(runs[|runs| - 1].End());
    }
  }

  lemma HoldsAll(runs: seq<Run>, received: seq<Interval>, coming: seq<Interval>, f: Rounds.Field)
    requires runs != [] && Received(runs, received + coming)
    ensures var r := RunnerAfter(|runs|, received);
            Rounds.ReadTotals(r.totals, f) + Rounds.Read(r.summary, f) + Rounds.Total(coming, f)
            == Rounds.Total(AllEmitted(runs), f)
  {
    hide AllEmitted, Rounds.Total, RunnerAfter, Rounds.Read;
    Rounds.RoundRefinement(|runs|, received, f);
    Rounds.TotalAppend(received, coming, f);
    Rounds.TotalPermutation(received + coming, AllEmitted(runs), f);
  }

  /** When the generators have settled and all their intervals fall into complete rounds nothing is held
      back, and the printed totals balance. */
  lemma TotalsBalance(runs: seq<Run>, received: seq<Interval>)
    requires runs != [] && Received(runs, received)
    requires |received| % |runs| == 0
    requires forall run :: run in runs ==> Timing.Settled(run.End())
    ensures var t := RunnerAfter(|runs|, received).totals;
            t.sent + Sum(runs, LostSent) + SumUncounted(runs)
            == t.okRecv + t.timeouts + Sum(runs, LostTimeouts) + Sum(runs, Overwrites)
  {
    hide AllEmitted, RunnerAfter, Sum, SumUncounted, SumHeldSends, SumHeldOutcomes, Received;
    assert received + [] == received;
    EverythingReceivedBalances(runs, received, []);
    SettledHoldNothing(runs);
    NothingHeldBack(|runs|, received, Rounds.Sent);
    NothingHeldBack(|runs|, received, Rounds.OkRecv);
    NothingHeldBack(|runs|, received, Rounds.Timeouts);
  }

  lemma NothingHeldBack(len: nat, received: seq<Interval>, f: Rounds.Field)
    requires len > 0 && |received| % len == 0
    ensures Rounds.Read(RunnerAfter(len, received).summary, f) == 0
  {
    hide RunnerAfter, Rounds.Read;
    Rounds.AllDone(len, received);
    Rounds.RoundRefinement(len, received, f);
  }

  /** Responses only came for queries in flight, and no increment fell into a snapshot's gap. */
  ghost predicate Undisturbed(run: Run) {
    && NoDuplicates(run.order) && WellBehaved(run.Start(), run.acts)
    && run.Count(LostSent) == 0 && run.Count(LostTimeouts) == 0
  }

  /** Then the printed totals are off by at most one query for each generator, always on the same side. */
  lemma TotalsWithinOneEach(runs: seq<Run>, received: seq<Interval>)
    requires runs != [] && Received(runs, received)
    requires |received| % |runs| == 0
    requires forall run :: run in runs ==> Timing.Settled(run.End()) && Undisturbed(run)
    ensures var t := RunnerAfter(|runs|, received).totals;
            t.sent <= t.okRecv + t.timeouts <= t.sent + |runs|
  {
    hide AllEmitted, RunnerAfter, Sum, SumUncounted, Received;
    TotalsBalance(runs, received);
    NothingLost(runs);
  }

  lemma {:induction false} NothingLost(runs: seq<Run>)
    requires forall run :: run in runs ==> Undisturbed(run)
    ensures Sum(runs, Overwrites) == 0 && Sum(runs, LostSent) == 0 && Sum(runs, LostTimeouts) == 0
    ensures SumUncounted(runs) <= |runs|
  {
    if runs != [] {
      hide Tally, After, WellBehaved;
      var last := runs[|runs| - 1];
      NothingLost(runs[..|runs| - 1]);
      assert Undisturbed(last);
      Ledger.NoOverwrites(last.order, last.timeout, last.acts);
    }
  }

  /** The rest of the printed counters is exact, whatever responses arrived: frames read, responses
      matched, responses of each code, and the bytes and latencies behind the averages. */
  lemma PrintedCountersExact(runs: seq<Run>, received: seq<Interval>, f: Rounds.Field)
    requires Rounds.Tracked(f)
    requires runs != [] && Received(runs, received)
    requires |received| % |runs| == 0
    requires forall run :: run in runs ==> Timing.Settled(run.End())
    ensures Rounds.ReadTotals(RunnerAfter(|runs|, received).totals, f) == SumMeasured(runs, f)
  {
    hide AllEmitted, RunnerAfter, Sum, Received, Rounds.Read, Rounds.ReadTotals;
    assert received + [] == received;
    HoldsAll(runs, received, [], f);
    NothingHeldBack(|runs|, received, f);
    EmittedExact(runs, f);
  }

  lemma {:induction false} EmittedExact(runs: seq<Run>, f: Rounds.Field)
    requires Rounds.Tracked(f)
    requires forall run :: run in runs ==> Timing.Settled(run.End())
    ensures Rounds.Total(AllEmitted(runs), f) == SumMeasured(runs, f)
  {
    if runs != [] {
      hide Tally, After, Rounds.Read;
      var init, last := runs[..|runs| - 1], runs[|runs| - 1];
      EmittedExact(init, f);
      Books.TrackerLedger(last.order, last.timeout, last.acts, f);
      Rounds.TotalAppend(AllEmitted(init), last.End().emitted, f);
    }
  }

  /** The generators of a process that is shut down do settle: if the sender stops at any time before the final
      wait is over, and the last check of the wait comes at most a timeout after the shutdown or its last
      clearing a timeout after the sender stopped, a generator that returns has nothing left in flight and
      nothing unreported. What it leaves otherwise was sent before the sender stopped and less than a timeout
      before that clearing. */
  lemma ShutDownRunSettles(order: seq<Id>, timeout: nat, before: seq<Action>, after: seq<Action>)
    requires timeout > 0
    requires var s0 := Init(order, timeout);
             && History.Stopped(s0, before)
             && !After(s0, before).phase.Closing? && !After(s0, before).phase.Finished?
             && After(s0, before + after).phase.Finished?
    ensures var s0, acts := Init(order, timeout), before + after;
            var end, stop := After(s0, acts), History.Clock(before);
            && History.ShutdownAt(s0, acts).Some?
            && History.LastClearing(s0, acts).Some? && History.LastCheck(s0, acts).Some?
            && var clearing := History.LastClearing(s0, acts).value;
               && (History.LastCheck(s0, acts).value <= History.ShutdownAt(s0, acts).value + timeout ==>
                     Timing.Settled(end))
               && (clearing >= stop + timeout ==> Timing.Settled(end))
               && forall id :: id in end.pool.inFlight ==> clearing - timeout < end.pool.inFlight[id].sent <= stop
  {
    hide After;
    var s0 := Init(order, timeout);
    var s := After(s0, before);
    AfterAppend(s0, before, after);
    History.ClockExact(order, timeout, before);
    History.TasksAreHistory(order, timeout, before);
    History.WaitIsHistory(order, timeout, before + after);
    Timing.AlwaysLeftYoung(order, timeout, before + after);
    Timing.StoppedIsGone(order, timeout, before);
    Timing.DrainSettles(s, after, s.now);
  }

  /** Every interval received comes from some generator. */
  lemma {:induction false} EmittedBySome(runs: seq<Run>, iv: Interval)
    requires iv in AllEmitted(runs)
    ensures exists run :: run in runs && iv in run.End().emitted
  {
    if runs != [] {
      var init, last := runs[..|runs| - 1], runs[|runs| - 1];
      if iv in last.End().emitted {
        assert last in runs;
      } else {
        EmittedBySome(init, iv);
        var run :| run in init && iv in run.End().emitted;
        assert run in runs;
      }
    }
  }

  lemma ReceivedFromSome(runs: seq<Run>, received: seq<Interval>, iv: Interval)
    requires Received(runs, received) && iv in received
    ensures exists run :: run in runs && iv in run.End().emitted
  {
    assert iv in multiset(received);
    assert iv in multiset(AllEmitted(runs));
    EmittedBySome(runs, iv);
  }

  /** Whatever the generators did, the response codes printed are below 16 and add up to the matched
      responses, which never exceed the frames received. */
  lemma PrintedHistogramAgrees(runs: seq<Run>, received: seq<Interval>)
    requires runs != [] && Received(runs, received)
    ensures var t := RunnerAfter(|runs|, received).totals; Rounds.Balanced(t.rcodes, t.okRecv, t.recv)
  {
    hide AllEmitted, RunnerAfter, Rounds.Balanced, Received;
    forall iv | iv in received
      ensures Rounds.Balanced(iv.rcodes, iv.okRecv, iv.recv)
    {
      ReceivedFromSome(runs, received, iv);
      var run :| run in runs && iv in run.End().emitted;
      Books.HistogramsAlwaysSound(run.order, run.timeout, run.acts);
    }
    Rounds.HistogramsAgree(|runs|, received);
  }

  /** All answers the generators have reported. */
  ghost function AllReported(runs: seq<Run>): seq<History.Answer> {
    if runs == [] then []
    else
      var last := runs[|runs| - 1];
      AllReported(runs[..|runs| - 1]) + History.AnswersOf(History.Closed(last.Start(), last.acts))
  }

  lemma {:induction false} ReportedExtremes(emitted: seq<Interval>, stretches: seq<History.Stretch>)
    requires |emitted| == |stretches|
    requires forall k :: 0 <= k < |emitted| ==>
               && emitted[k].minLatency == History.Least(stretches[k].answers)
               && emitted[k].maxLatency == History.Greatest(stretches[k].answers)
    ensures Rounds.MinNs(emitted) == History.Least(History.AnswersOf(stretches))
    ensures Rounds.MaxNs(emitted) == History.Greatest(History.AnswersOf(stretches))
  {
    if emitted != [] {
      hide History.Least, History.Greatest;
      var n := |emitted| - 1;
      ReportedExtremes(emitted[..n], stretches[..n]);
      History.LeastAppend(History.AnswersOf(stretches[..n]), stretches[n].answers);
    } else {
      History.LeastAppend([], []);
    }
  }

  lemma {:induction false} EmittedExtremes(runs: seq<Run>)
    ensures Rounds.MinNs(AllEmitted(runs)) == History.Least(AllReported(runs))
    ensures Rounds.MaxNs(AllEmitted(runs)) == History.Greatest(AllReported(runs))
  {
    if runs != [] {
      hide After, History.Closed, Rounds.MinNs, Rounds.MaxNs, History.Least, History.Greatest, Reports.Tells;
      var init, last := runs[..|runs| - 1], runs[|runs| - 1];
      EmittedExtremes(init);
      RunExtremes(last);
      Rounds.ExtremesAppend(AllEmitted(init), last.End().emitted);
      History.LeastAppend(AllReported(init), History.AnswersOf(History.Closed(last.Start(), last.acts)));
    }
  }

  lemma RunExtremes(run: Run)
    ensures var answers := History.AnswersOf(History.Closed(run.Start(), run.acts));
            && Rounds.MinNs(run.End().emitted) == History.Least(answers)
            && Rounds.MaxNs(run.End().emitted) == History.Greatest(answers)
  {
    hide After, History.Closed, Rounds.MinNs, Rounds.MaxNs, History.Least, History.Greatest, History.HasCode;
    Reports.ExtremesAreHistory(run.order, run.timeout, run.acts);
    ReportedExtremes(run.End().emitted, History.Closed(run.Start(), run.acts));
  }

  /** The maximum printed is the greatest of all latencies reported, and the minimum printed is the least of
      them exactly when none is below a microsecond. */
  lemma PrintedExtremesExact(runs: seq<Run>, received: seq<Interval>)
    requires runs != [] && Received(runs, received)
    requires |received| % |runs| == 0
    ensures var t, answers := RunnerAfter(|runs|, received).totals, AllReported(runs);
            && t.maxLatency == Ms(Micros(History.Greatest(answers)))
            && (t.minLatency == Rounds.ShownMin(History.Least(answers))
                <==> forall a :: a in answers ==> a.latency >= 1000)
  {
    hide AllEmitted, AllReported, RunnerAfter, Rounds.MinNs, Rounds.MaxNs, History.Least, History.Greatest;
    hide Rounds.ShownMin, Ms;
    EmittedExtremes(runs);
    Rounds.ExtremesPermutation(received, AllEmitted(runs));
    Rounds.AllDone(|runs|, received);
    Rounds.MaxLatencyExact(|runs|, received);
    Rounds.MinLatencyExact(|runs|, received);
    Rounds.MinNsBounds(received);
    History.LeastBounds(AllReported(runs));
  }

  /** A settled generator has reported all its answers. */
  lemma SettledReportsAll(run: Run)
    requires Timing.Settled(run.End())
    ensures History.AnswersOf(History.Closed(run.Start(), run.acts)) == History.Whole(run.Start(), run.acts).answers
  {
    hide After, History.Closed, History.Whole, History.Current;
    Reports.CountersAreHistory(run.order, run.timeout, run.acts, Rounds.OkRecv);
    Books.EachAnswerCounts(History.Current(run.Start(), run.acts).answers);
    History.AnswersMakeWhole(run.Start(), run.acts);
  }

  /** The maximum printed is below two timeouts and the lateness of the cleanup ticks, whatever the
      responses. */
  lemma PrintedMaximum(runs: seq<Run>, received: seq<Interval>, timeout: nat, slack: nat)
    requires runs != [] && Received(runs, received) && timeout > 0
    requires forall run :: run in runs ==> run.timeout == timeout && Timing.OnTime(run.Start(), run.acts, slack)
    ensures RunnerAfter(|runs|, received).totals.maxLatency * 1_000_000.0 < (2 * timeout + slack) as real
  {
    hide AllEmitted, RunnerAfter, Received, Rounds.MaxNs, After, Timing.OnTime;
    var bound := 2 * timeout + slack;
    forall iv | iv in received
      ensures iv.maxLatency < bound
    {
      ReceivedFromSome(runs, received, iv);
      var run :| run in runs && iv in run.End().emitted;
      Timing.ReportedLatencyBound(run.order, run.timeout, run.acts, slack);
    }
    Rounds.MaxLatencyExact(|runs|, received);
    var done := Rounds.Done(|runs|, received);
    Rounds.DoneThenOpen(|runs|, received);
    Rounds.MaxNsBounds(done);
    assert forall iv :: iv in done ==> iv in received;
    MsBelow(Rounds.MaxNs(done), bound);
  }

  /** If responses take a microsecond or more, and less than the sentinel, the latencies printed are ordered. */
  lemma PrintedLatencies(runs: seq<Run>, received: seq<Interval>)
    requires runs != [] && Received(runs, received)
    requires forall run :: run in runs ==> Books.LatenciesWithin(run.Start(), run.acts, 1000, NO_MIN)
    ensures var t := RunnerAfter(|runs|, received).totals;
            t.okRecv > 0 ==> t.minLatency <= AvgLatency(t.rounds).val <= t.maxLatency
  {
    hide AllEmitted, RunnerAfter, Received, Rounds.Timed, AvgLatency, After, Books.LatenciesWithin;
    forall iv | iv in received
      ensures Rounds.Timed(iv) && Rounds.MinimumShows(iv)
    {
      ReceivedFromSome(runs, received, iv);
      var run :| run in runs && iv in run.End().emitted;
      Books.LatenciesAlwaysSound(run.order, run.timeout, run.acts);
      Books.ExtremesAlwaysInRange(run.order, run.timeout, run.acts, 1000, NO_MIN);
    }
    Rounds.LatencySandwich(|runs|, received);
  }

  lemma MsBelow(ns: nat, bound: nat)
    requires ns < bound
    ensures Ms(Micros(ns)) * 1_000_000.0 < bound as real
  {
    assert Micros(ns) * 1000 <= ns;
    assert Ms(Micros(ns)) * 1_000_000.0 == (Micros(ns) * 1000) as real;
  }
}
