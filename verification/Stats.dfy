/** The objects of `bin/src/stats.rs`, updated in place, each operation proved against the value it computes. */
module Stats {
  import opened Basics
  import opened Frames
  import opened MovingAverage
  import opened StatsModel
  import opened Pool

  /** Adds every entry of `from` to `into`, in whatever order the map yields them. */
  method MergeInto(into: Histogram, from: Histogram) returns (merged: Histogram)
    ensures merged == Merge(into, from)
  {
    merged := into;
    var todo := from.Keys;
    while todo != {}
      invariant todo <= from.Keys
      invariant merged.Keys == into.Keys + (from.Keys - todo)
      invariant forall code :: Get(merged, code) == Get(into, code) + (if code in todo then 0 else Get(from, code))
      decreases todo
    {
      var code :| code in todo;
      merged := Bump(merged, code, from[code]);
      todo := todo - {code};
    }
    assert forall code :: code in merged ==> merged[code] == Get(merged, code);
  }

  class StatsTracker {
    var intervals: nat
    var recv: nat
    var okRecv: nat
    const atomicStore: AtomicStore
    var totalLatency: nat
    var minLatency: nat
    var maxLatency: nat
    var rcodes: Histogram
    var recvBufSize: nat
    var bufSize: nat

    ghost function Value(): Tracker
      reads this
    {
      Tracker(intervals, recv, okRecv, totalLatency, minLatency, maxLatency, rcodes, recvBufSize, bufSize)
    }

    constructor (atomicStore: AtomicStore)
      ensures Value() == FRESH
      ensures this.atomicStore == atomicStore
    {
      intervals, recv, okRecv := 0, 0, 0;
      this.atomicStore := atomicStore;
      totalLatency, minLatency, maxLatency := 0, NO_MIN, 0;
      rcodes := map[];
      recvBufSize, bufSize := 0, 0;
    }

    method Update(now: nat, sent: nat, len: nat, msg: seq<byte>)
      requires |msg| >= 4
      modifies this
      ensures Value() == Matched(old(Value()), now, sent, len, msg)
    {
      if sent <= now {
        var latency := now - sent;
        totalLatency := totalLatency + latency;
        minLatency := Min(minLatency, latency);
        maxLatency := Max(maxLatency, latency);
      }
      rcodes := Bump(rcodes, Rcode(msg), 1);
      bufSize := bufSize + len;
      recvBufSize := recvBufSize + |msg|;
      okRecv := okRecv + 1;
    }

    method CountFrame()
      modifies this
      ensures Value() == old(Value()).(recv := old(recv) + 1)
    {
      recv := recv + 1;
    }

    /** Reads and clears the counters. The atomics are loaded and stored one at a time, and the gaps
        say what other tasks add in between: after the load of `timed_out`, after the load of `sent`,
        and after the store of `sent`. */
    method Snapshot(elapsed: nat, duration: nat, inFlight: nat, gap1: Gap, gap2: Gap, gap3: Gap)
      returns (interval: Interval)
      modifies this, atomicStore
      ensures interval == Report(old(Value()), old(atomicStore.sent) + gap1.sent, old(atomicStore.timedOut),
                                 elapsed, duration, inFlight)
      ensures Value() == AfterReport(old(Value()))
      // only what came after each counter was cleared is still there; gap 2 of `sent` and all three
      // gaps of `timed_out` are in neither place
      ensures atomicStore.sent == gap3.sent && atomicStore.timedOut == 0
    {
      var timeouts := atomicStore.timedOut;
      atomicStore.Others(gap1);
      var sent := atomicStore.sent;
      interval := Interval(duration, elapsed, intervals, sent, recv, okRecv, timeouts,
                           minLatency, totalLatency, maxLatency, rcodes, recvBufSize, bufSize, inFlight);
      rcodes := map[];
      atomicStore.Others(gap2);
      intervals := intervals + 1;
      Reset(gap3);
    }

    method Reset(between: Gap)
      modifies this, atomicStore
      ensures Value() == ResetTracker(old(Value()))
      ensures atomicStore.sent == between.sent && atomicStore.timedOut == 0
    {
      minLatency, maxLatency, totalLatency := NO_MIN, 0, 0;
      recv, okRecv := 0, 0;
      recvBufSize, bufSize := 0, 0;
      atomicStore.Reset(between);
    }
  }

  class StatsInterval {
    var duration: nat
    var elapsed: nat
    var interval: nat
    var sent: nat
    var recv: nat
    var okRecv: nat
    var timeouts: nat
    var minLatency: nat
    var totalLatency: nat
    var maxLatency: nat
    var rcodes: Histogram
    var recvBufSize: nat
    var bufSize: nat
    var inFlight: nat

    ghost function Value(): Interval
      reads this
    {
      Interval(duration, elapsed, interval, sent, recv, okRecv, timeouts,
               minLatency, totalLatency, maxLatency, rcodes, recvBufSize, bufSize, inFlight)
    }

    constructor ()
      ensures Value() == EMPTY
    {
      duration, elapsed, interval := 0, 0, 0;
      sent, recv, okRecv, timeouts := 0, 0, 0, 0;
      minLatency, totalLatency, maxLatency := NO_MIN, 0, 0;
      rcodes := map[];
      recvBufSize, bufSize, inFlight := 0, 0, 0;
    }

    method Add(agg: Interval)
      modifies this
      ensures Value() == Aggregate(old(Value()), agg)
    {
      interval := agg.interval;
      duration := agg.duration;
      elapsed := elapsed + agg.elapsed;
      AddCounters(agg);
      AddLatencies(agg);
      rcodes := MergeInto(rcodes, agg.rcodes);
    }

    method AddLatencies(agg: Interval)
      modifies this
      ensures Value() == old(Value()).(
                minLatency := Min(agg.minLatency, old(minLatency)), maxLatency := Max(agg.maxLatency, old(maxLatency)),
                totalLatency := old(totalLatency) + agg.totalLatency)
    {
      minLatency := Min(agg.minLatency, minLatency);
      maxLatency := Max(agg.maxLatency, maxLatency);
      totalLatency := totalLatency + agg.totalLatency;
    }

    method AddCounters(agg: Interval)
      modifies this
      ensures Value() == old(Value()).(
                sent := old(sent) + agg.sent, recv := old(recv) + agg.recv, okRecv := old(okRecv) + agg.okRecv,
                timeouts := old(timeouts) + agg.timeouts, recvBufSize := old(recvBufSize) + agg.recvBufSize,
                bufSize := old(bufSize) + agg.bufSize, inFlight := old(inFlight) + agg.inFlight)
    {
      sent := sent + agg.sent;
      recv := recv + agg.recv;
      okRecv := okRecv + agg.okRecv;
      timeouts := timeouts + agg.timeouts;
      recvBufSize := recvBufSize + agg.recvBufSize;
      bufSize := bufSize + agg.bufSize;
      inFlight := inFlight + agg.inFlight;
    }

    method Reset()
      modifies this
      ensures Value() == AfterLog(old(Value())).(rcodes := old(rcodes))
    {
      minLatency, maxLatency, totalLatency := NO_MIN, 0, 0;
      ResetCounters();
    }

    method ResetCounters()
      modifies this
      ensures Value() == old(Value()).(recv := 0, okRecv := 0, recvBufSize := 0, bufSize := 0,
                                       sent := 0, inFlight := 0, timeouts := 0)
    {
      recv, okRecv := 0, 0;
      recvBufSize, bufSize := 0, 0;
      sent, inFlight, timeouts := 0, 0, 0;
    }

    method Log() returns (logged: Interval)
      modifies this
      ensures logged == old(Value())
      ensures Value() == AfterLog(old(Value()))
    {
      logged := Interval(duration, elapsed, interval, sent, recv, okRecv, timeouts,
                         minLatency, totalLatency, maxLatency, rcodes, recvBufSize, bufSize, inFlight);
      rcodes := map[];
      Reset();
    }
  }

  /** One more round adds at most one sample to each average. */
  lemma OneMoreRound(rounds: seq<Interval>, iv: Interval)
    ensures AvgLatency(rounds + [iv])
         == if AvgMs(iv) != 0.0 then PushReal(AvgLatency(rounds), AvgMs(iv)) else AvgLatency(rounds)
    ensures AvgOf(0, SentSizes(rounds + [iv]))
         == if iv.bufSize != 0 && iv.sent != 0 then Push(AvgOf(0, SentSizes(rounds)), Quotient(iv.bufSize, iv.sent))
            else AvgOf(0, SentSizes(rounds))
    ensures AvgOf(0, RecvSizes(rounds + [iv]))
         == if iv.recvBufSize != 0 && iv.okRecv != 0
            then Push(AvgOf(0, RecvSizes(rounds)), Quotient(iv.recvBufSize, iv.okRecv))
            else AvgOf(0, RecvSizes(rounds))
  {
    hide AvgOf, MeanOf, Push, PushReal, Quotient, AvgMs;
    assert (rounds + [iv])[..|rounds|] == rounds;
    MeanOneMore(0.0, RoundAverages(rounds), AvgMs(iv));
    if iv.sent != 0 {
      AvgOneMore(0, SentSizes(rounds), Quotient(iv.bufSize, iv.sent));
    }
    if iv.okRecv != 0 {
      AvgOneMore(0, RecvSizes(rounds), Quotient(iv.recvBufSize, iv.okRecv));
    }
    assert RoundAverages(rounds) + [] == RoundAverages(rounds);
    assert SentSizes(rounds) + [] == SentSizes(rounds);
    assert RecvSizes(rounds) + [] == RecvSizes(rounds);
  }

  class StatsTotals {
    var duration: nat
    var elapsed: nat
    var sent: nat
    var recv: nat
    var okRecv: nat
    var timeouts: nat
    var minLatency: real
    const avgLatency: MovingMean
    var maxLatency: real
    var rcodes: Histogram
    const avgRecvBufSize: MovingAvg
    const avgBufSize: MovingAvg
    var inFlight: nat

    ghost var rounds: seq<Interval>
    ghost const Repr: set<object> := {this, avgLatency, avgRecvBufSize, avgBufSize}

    ghost predicate Valid()
      reads Repr
    {
      avgRecvBufSize != avgBufSize && AveragesOf(rounds)
    }

    /** The three running averages are those of these rounds. */
    ghost predicate AveragesOf(rounds: seq<Interval>)
      reads avgLatency, avgRecvBufSize, avgBufSize
    {
      && avgLatency.Value() == AvgLatency(rounds)
      && avgRecvBufSize.Value() == AvgOf(0, RecvSizes(rounds))
      && avgBufSize.Value() == AvgOf(0, SentSizes(rounds))
    }

    ghost function Value(): Totals
      reads this
    {
      Totals(duration, elapsed, sent, recv, okRecv, timeouts, minLatency, maxLatency, rcodes, inFlight, rounds)
    }

    constructor ()
      ensures Valid() && fresh(Repr)
      ensures Value() == NO_TOTALS
    {
      duration, elapsed := 0, 0;
      sent, recv, okRecv, timeouts, inFlight := 0, 0, 0, 0, 0;
      minLatency, maxLatency := F32_MAX, 0.0;
      avgLatency := new MovingMean(0.0);
      avgRecvBufSize := new MovingAvg(0);
      avgBufSize := new MovingAvg(0);
      rcodes := map[];
      rounds := [];
    }

    method Update(iv: Interval)
      requires Valid()
      modifies Repr
      ensures Valid()
      ensures Value() == Absorb(old(Value()), iv)
    {
      hide AvgLatency, AvgOf, SentSizes, RecvSizes, Merge;
      UpdateFields(iv);
      UpdateAverages(iv);
      rounds := rounds + [iv];
    }

    method UpdateFields(iv: Interval)
      modifies this
      ensures Value() == Absorb(old(Value()), iv).(rounds := old(rounds))
    {
      duration := iv.duration;
      elapsed := elapsed + iv.elapsed;
      UpdateCounters(iv);
      minLatency := LowerMin(minLatency, iv.minLatency);
      maxLatency := RaiseMax(maxLatency, iv.maxLatency);
      rcodes := MergeInto(rcodes, iv.rcodes);
    }

    method UpdateCounters(iv: Interval)
      modifies this
      ensures Value() == old(Value()).(
                sent := old(sent) + iv.sent, recv := old(recv) + iv.recv, okRecv := old(okRecv) + iv.okRecv,
                timeouts := old(timeouts) + iv.timeouts, inFlight := old(inFlight) + iv.inFlight)
    {
      sent := sent + iv.sent;
      recv := recv + iv.recv;
      okRecv := okRecv + iv.okRecv;
      timeouts := timeouts + iv.timeouts;
      inFlight := inFlight + iv.inFlight;
    }

    method UpdateAverages(iv: Interval)
      requires Valid()
      modifies avgLatency, avgBufSize, avgRecvBufSize
      ensures AveragesOf(rounds + [iv])
    {
      hide AvgLatency, AvgOf, SentSizes, RecvSizes, Push, PushReal, AvgMs, Quotient;
      if AvgMs(iv) != 0.0 {
        var _ := avgLatency.Next(AvgMs(iv));
      }
      if iv.bufSize != 0 && iv.sent != 0 {
        var _ := avgBufSize.Next(Quotient(iv.bufSize, iv.sent));
      }
      if iv.recvBufSize != 0 && iv.okRecv != 0 {
        var _ := avgRecvBufSize.Next(Quotient(iv.recvBufSize, iv.okRecv));
      }
      OneMoreRound(rounds, iv);
    }
  }

  class StatsRunner {
    const len: nat
    const summary: StatsInterval
    const totals: StatsTotals

    ghost const Repr: set<object> := {this, summary} + totals.Repr

    ghost predicate Valid()
      reads totals.Repr
    {
      totals.Valid()
    }

    constructor (len: nat)
      ensures Valid() && fresh(Repr)
      ensures this.len == len
      ensures summary.Value() == EMPTY && totals.Value() == NO_TOTALS
    {
      this.len := len;
      summary := new StatsInterval();
      totals := new StatsTotals();
    }

    /** Takes intervals off the channel until it closes. */
    method Run(received: seq<Interval>)
      requires Valid()
      requires summary.Value() == EMPTY && totals.Value() == NO_TOTALS
      modifies Repr
      ensures Valid()
      ensures summary.Value() == RunnerAfter(len, received).summary
      ensures totals.Value() == RunnerAfter(len, received).totals
    {
      hide Aggregate, Absorb, AfterLog;
      var generators := 0;
      for k := 0 to |received|
        invariant Valid()
        invariant Runner(generators, summary.Value(), totals.Value()) == RunnerAfter(len, received[..k])
      {
        assert received[..k + 1][..k] == received[..k];
        generators := generators + 1;
        summary.Add(received[k]);
        if generators == len {
          var logged := summary.Log();
          totals.Update(logged);
          generators := 0;
        }
      }
      assert received[..|received|] == received;
    }
  }
}
