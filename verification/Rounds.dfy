/** What the runner's totals say about the intervals it received: sums, extremes, averages and
    histograms over the complete rounds, whatever the rounds were. */
module Rounds {
  import opened Basics
  import opened MovingAverage
  import opened StatsModel

  // ---------------------------------------------------------------- complete rounds

  /** The intervals of the round still open. */
  function Open(len: nat, received: seq<Interval>): seq<Interval> {
    if received == [] then []
    else
      var round := Open(len, received[..|received| - 1]) + [received[|received| - 1]];
      if |round| == len then [] else round
  }

  /** The intervals of all rounds completed so far. */
  function Done(len: nat, received: seq<Interval>): seq<Interval> {
    if received == [] then []
    else
      var round := Open(len, received[..|received| - 1]) + [received[|received| - 1]];
      Done(len, received[..|received| - 1]) + if |round| == len then round else []
  }

  lemma NextRemainder(len: nat, n: nat)
    requires len > 0
    ensures (n + 1) % len == if n % len + 1 == len then 0 else n % len + 1
  {
    var q, r := n / len, n % len;
    assert n == q * len + r;
    if r + 1 == len {
      assert n + 1 == (q + 1) * len;
      RemainderUnique(len, q + 1, 0);
    } else {
      assert n + 1 == q * len + (r + 1);
      RemainderUnique(len, q, r + 1);
    }
  }

  lemma SameQuotient(len: nat, q: nat, r: nat, q': nat, r': nat)
    requires r < len && r' < len && Times(len, q) + r == Times(len, q') + r'
    ensures r == r'
  {
    hide Times;
    TimesMonotone(len, q + 1, q');
    TimesMonotone(len, q' + 1, q);
    TimesNext(len, q);
    TimesNext(len, q');
  }

  lemma RemainderUnique(len: nat, q: nat, r: nat)
    requires r < len
    ensures (q * len + r) % len == r
  {
    var v := q * len + r;
    assert v == v / len * len + v % len;
    SameQuotient(len, q, r, v / len, v % len);
  }

  /** The complete rounds are the longest prefix whose length is a multiple of `len`; the open round
      is the rest. */
  lemma {:induction false} DoneThenOpen(len: nat, received: seq<Interval>)
    requires len > 0
    ensures received == Done(len, received) + Open(len, received)
    ensures |Open(len, received)| == |received| % len
  {
    if received != [] {
      var n := |received| - 1;
      DoneThenOpen(len, received[..n]);
      NextRemainder(len, n);
    }
  }

  lemma AllDone(len: nat, received: seq<Interval>)
    requires len > 0 && |received| % len == 0
    ensures Done(len, received) == received && Open(len, received) == []
  {
    DoneThenOpen(len, received);
  }

  lemma {:induction false} GeneratorsSeen(len: nat, received: seq<Interval>)
    ensures RunnerAfter(len, received).generators == |Open(len, received)|
  {
    if received != [] {
      GeneratorsSeen(len, received[..|received| - 1]);
    }
  }

  lemma NoIntervals(len: nat)
    ensures RunnerAfter(len, []) == Runner(0, EMPTY, NO_TOTALS)
    ensures Open(len, []) == [] && Done(len, []) == []
  {
  }

  /** One more interval: where it goes, and what the runner makes of it. */
  ghost predicate Steps(len: nat, init: seq<Interval>, last: Interval, received: seq<Interval>) {
    var before, after := RunnerAfter(len, init), RunnerAfter(len, received);
    var round, summary := Open(len, init) + [last], Aggregate(before.summary, last);
    if |round| == len then
      && Done(len, received) == Done(len, init) + round && Open(len, received) == []
      && after.summary == AfterLog(summary) && after.totals == Absorb(before.totals, summary)
    else
      && Done(len, received) == Done(len, init) && Open(len, received) == round
      && after.summary == summary && after.totals == before.totals
  }

  lemma OneMore(len: nat, init: seq<Interval>, last: Interval)
    ensures Steps(len, init, last, init + [last])
  {
    var received := init + [last];
    assert received[..|received| - 1] == init;
    GeneratorsSeen(len, init);
    assert Done(len, init) + [] == Done(len, init);
  }

  /** An open round leaves no trace in the totals. */
  lemma {:induction false} OnlyCompleteRoundsCount(len: nat, received: seq<Interval>)
    requires len > 0
    ensures RunnerAfter(len, received).totals == RunnerAfter(len, Done(len, received)).totals
  {
    if received != [] {
      var init, last := received[..|received| - 1], received[|received| - 1];
      assert received == init + [last];
      OneMore(len, init, last);
      if Open(len, received) == [] {
        DoneThenOpen(len, received);
        assert Done(len, received) == received;
      } else {
        OnlyCompleteRoundsCount(len, init);
      }
    }
  }

  // ---------------------------------------------------------------- sums

  /** The additive fields, one for each response code included. */
  datatype Field =
    | Sent | Recv | OkRecv | Timeouts | Responses(code: nat) | RecvBytes | SentBytes | TotalLatency | InFlight

  /** Those counted by the tracker alone. */
  predicate Tracked(f: Field) {
    !f.Sent? && !f.Timeouts? && !f.InFlight?
  }

  function Read(iv: Interval, f: Field): nat {
    match f
    case Sent => iv.sent
    case Recv => iv.recv
    case OkRecv => iv.okRecv
    case Timeouts => iv.timeouts
    case Responses(code) => Get(iv.rcodes, code)
    case RecvBytes => iv.recvBufSize
    case SentBytes => iv.bufSize
    case TotalLatency => iv.totalLatency
    case InFlight => iv.inFlight
  }

  function ReadTotals(t: Totals, f: Field): nat {
    match f
    case Sent => t.sent
    case Recv => t.recv
    case OkRecv => t.okRecv
    case Timeouts => t.timeouts
    case Responses(code) => Get(t.rcodes, code)
    case RecvBytes => Total(t.rounds, RecvBytes)
    case SentBytes => Total(t.rounds, SentBytes)
    case TotalLatency => Total(t.rounds, TotalLatency)
    case InFlight => t.inFlight
  }

  function Total(s: seq<Interval>, f: Field): nat {
    if s == [] then 0 else Total(s[..|s| - 1], f) + Read(s[|s| - 1], f)
  }

  lemma {:induction false} TotalAppend(a: seq<Interval>, b: seq<Interval>, f: Field)
    ensures Total(a + b, f) == Total(a, f) + Total(b, f)
  {
    if b == [] {
      assert a + b == a;
    } else {
      TotalAppend(a, b[..|b| - 1], f);
      assert (a + b)[..|a + b| - 1] == a + b[..|b| - 1];
    }
  }

  lemma ReadAbsorb(t: Totals, iv: Interval, f: Field)
    ensures ReadTotals(Absorb(t, iv), f) == ReadTotals(t, f) + Read(iv, f)
    ensures ReadTotals(NO_TOTALS, f) == 0
  {
    assert (t.rounds + [iv])[..|t.rounds|] == t.rounds;
  }

  lemma ReadAggregate(s: Interval, agg: Interval, t: Totals, f: Field)
    ensures Read(Aggregate(s, agg), f) == Read(s, f) + Read(agg, f)
    ensures Read(AfterLog(s), f) == 0 && Read(EMPTY, f) == 0
    ensures ReadTotals(Absorb(t, Aggregate(s, agg)), f) == ReadTotals(t, f) + Read(s, f) + Read(agg, f)
    ensures ReadTotals(NO_TOTALS, f) == 0
  {
    hide Absorb, ReadTotals;
    ReadAbsorb(t, Aggregate(s, agg), f);
  }

  lemma TotalOne(iv: Interval, f: Field)
    ensures Total([iv], f) == Read(iv, f)
  {
    assert [iv][..0] == [];
  }

  /** Totals hold the sums over the complete rounds and the summary the sums over the open one,
      after every interval; together they are everything received. */
  lemma {:induction false} RoundRefinement(len: nat, received: seq<Interval>, f: Field)
    requires len > 0
    ensures var r := RunnerAfter(len, received);
            && ReadTotals(r.totals, f) == Total(Done(len, received), f)
            && Read(r.summary, f) == Total(Open(len, received), f)
            && ReadTotals(r.totals, f) + Read(r.summary, f) == Total(received, f)
  {
    hide RunnerAfter, Open, Done, Aggregate, Absorb;
    NoIntervals(len);
    if received != [] {
      var init, last := received[..|received| - 1], received[|received| - 1];
      assert received == init + [last];
      RoundRefinement(len, init, f);
      OneMore(len, init, last);
      var before := RunnerAfter(len, init);
      ReadAggregate(before.summary, last, before.totals, f);
      TotalOne(last, f);
      TotalAppend(Open(len, init), [last], f);
      TotalAppend(Done(len, init), Open(len, init) + [last], f);
    }
  }

  lemma {:induction false} TotalRemove(s: seq<Interval>, k: nat, f: Field)
    requires k < |s|
    ensures Total(s, f) == Total(s[..k] + s[k + 1..], f) + Read(s[k], f)
  {
    assert s == s[..k] + ([s[k]] + s[k + 1..]);
    TotalAppend(s[..k], [s[k]] + s[k + 1..], f);
    TotalAppend([s[k]], s[k + 1..], f);
    TotalAppend(s[..k], s[k + 1..], f);
    TotalOne(s[k], f);
  }

  lemma {:induction false} TotalPermutation(a: seq<Interval>, b: seq<Interval>, f: Field)
    requires multiset(a) == multiset(b)
    ensures Total(a, f) == Total(b, f)
  {
    hide Read, Total;
    if a == [] {
      assert |multiset(b)| == 0;
      assert b == [];
    } else {
      var n := |a| - 1;
      assert a[n] in multiset(b);
      var k :| 0 <= k < |b| && b[k] == a[n];
      RemoveOne(b, k);
      RemoveOne(a, n);
      TotalPermutation(a[..n] + a[n + 1..], b[..k] + b[k + 1..], f);
      TotalRemove(b, k, f);
      TotalRemove(a, n, f);
    }
  }

  /** What is not added up is the last received: the summary has the duration and the number of the last
      interval, the totals the duration of the last interval of the last complete round. */
  lemma {:induction false} LastReceived(len: nat, received: seq<Interval>)
    requires len > 0
    ensures var r, done := RunnerAfter(len, received), Done(len, received);
            && r.summary.duration == (if received == [] then 0 else received[|received| - 1].duration)
            && r.summary.interval == (if received == [] then 0 else received[|received| - 1].interval)
            && r.totals.duration == if done == [] then 0 else done[|done| - 1].duration
  {
    hide RunnerAfter, Open, Done, Merge, LowerMin, RaiseMax;
    NoIntervals(len);
    if received != [] {
      var init, last := received[..|received| - 1], received[|received| - 1];
      assert received == init + [last];
      LastReceived(len, init);
      OneMore(len, init, last);
    }
  }

  // ---------------------------------------------------------------- extremes

  function MinNs(s: seq<Interval>): nat {
    if s == [] then NO_MIN else Min(MinNs(s[..|s| - 1]), s[|s| - 1].minLatency)
  }

  function MaxNs(s: seq<Interval>): nat {
    if s == [] then 0 else Max(MaxNs(s[..|s| - 1]), s[|s| - 1].maxLatency)
  }

  lemma {:induction false} ExtremesAppend(a: seq<Interval>, b: seq<Interval>)
    ensures MinNs(a + b) == Min(MinNs(a), MinNs(b))
    ensures MaxNs(a + b) == Max(MaxNs(a), MaxNs(b))
    ensures MinNs(a) <= NO_MIN
  {
    if b == [] {
      assert a + b == a;
      MinNsBounds(a);
    } else {
      ExtremesAppend(a, b[..|b| - 1]);
      assert (a + b)[..|a + b| - 1] == a + b[..|b| - 1];
    }
  }

  lemma {:induction false} MinNsBounds(s: seq<Interval>)
    ensures MinNs(s) <= NO_MIN
    ensures forall iv :: iv in s ==> MinNs(s) <= iv.minLatency
    ensures MinNs(s) == NO_MIN || exists iv :: iv in s && iv.minLatency == MinNs(s)
  {
    if s != [] {
      MinNsBounds(s[..|s| - 1]);
      assert s == s[..|s| - 1] + [s[|s| - 1]];
    }
  }

  lemma {:induction false} MaxNsBounds(s: seq<Interval>)
    ensures forall iv :: iv in s ==> iv.maxLatency <= MaxNs(s)
    ensures MaxNs(s) == 0 || exists iv :: iv in s && iv.maxLatency == MaxNs(s)
  {
    if s != [] {
      MaxNsBounds(s[..|s| - 1]);
      assert s == s[..|s| - 1] + [s[|s| - 1]];
    }
  }

  lemma ExtremesAggregate(s: Interval, agg: Interval, t: Totals)
    ensures var u := Aggregate(s, agg);
            && u.minLatency == Min(agg.minLatency, s.minLatency)
            && u.maxLatency == Max(agg.maxLatency, s.maxLatency)
            && Absorb(t, u).minLatency == LowerMin(t.minLatency, u.minLatency)
            && Absorb(t, u).maxLatency == RaiseMax(t.maxLatency, u.maxLatency)
  {
  }

  /** The summary's extremes are those of the open round; the maximum shown is that of the complete rounds. */
  lemma {:induction false} MaxLatencyExact(len: nat, received: seq<Interval>)
    requires len > 0
    ensures var r := RunnerAfter(len, received);
            && r.totals.maxLatency == Ms(Micros(MaxNs(Done(len, received))))
            && r.summary.maxLatency == MaxNs(Open(len, received))
            && r.summary.minLatency == MinNs(Open(len, received))
  {
    hide RunnerAfter, Open, Done, Aggregate, Absorb, RaiseMax;
    NoIntervals(len);
    if received != [] {
      var init, last := received[..|received| - 1], received[|received| - 1];
      assert received == init + [last];
      MaxLatencyExact(len, init);
      OneMore(len, init, last);
      var before := RunnerAfter(len, init);
      ExtremesAggregate(before.summary, last, before.totals);
      ExtremesAppend(Open(len, init), [last]);
      ExtremesOne(last);
      ExtremesAppend(Done(len, init), Open(len, init) + [last]);
      MinNsBounds(Open(len, init));
      RaiseMaxExact(Aggregate(before.summary, last).maxLatency, MaxNs(Done(len, init)));
    }
  }

  lemma MsMonotone(a: nat, b: nat)
    ensures a <= b <==> Ms(a) <= Ms(b)
    ensures a == 0 <==> Ms(a) == 0.0
    ensures a <= U64_MAX ==> 0.0 <= Ms(a) < F32_MAX
  {
  }

  lemma RaiseMaxExact(x: nat, y: nat)
    ensures RaiseMax(Ms(Micros(y)), x) == Ms(Micros(Max(y, x)))
  {
    hide Ms;
    MsMonotone(Micros(x), Micros(y));
    MsMonotone(Micros(y), Micros(x));
  }

  lemma ExtremesOne(iv: Interval)
    ensures MinNs([iv]) == Min(NO_MIN, iv.minLatency) && MaxNs([iv]) == iv.maxLatency
  {
    assert [iv][..0] == [];
  }

  /** The minimum a reader should see: the smallest latency, or the float's initial value if there is none. */
  function ShownMin(ns: nat): real {
    Display(Micros(ns))
  }

  function Display(micros: nat): real {
    if micros == U64_MAX then F32_MAX else Ms(micros)
  }

  ghost predicate NoneBelowMicro(s: seq<Interval>) {
    forall iv :: iv in s ==> iv.minLatency >= 1000
  }

  lemma LowerMinExact(x: nat, y: nat)
    requires 1000 <= x <= NO_MIN && y <= NO_MIN
    ensures LowerMin(ShownMin(y), x) == ShownMin(Min(y, x))
  {
    hide Ms;
    assert 1 <= Micros(x) <= U64_MAX && Micros(y) <= U64_MAX;
    MsMonotone(Micros(x), Micros(y));
    MsMonotone(Micros(y), Micros(x));
  }

  lemma {:induction false} MinLatencyForward(len: nat, received: seq<Interval>)
    requires len > 0
    requires NoneBelowMicro(received)
    ensures RunnerAfter(len, received).totals.minLatency == ShownMin(MinNs(Done(len, received)))
  {
    hide RunnerAfter, Open, Done, Aggregate, Absorb;
    NoIntervals(len);
    if received != [] {
      var init, last := received[..|received| - 1], received[|received| - 1];
      assert received == init + [last];
      MinLatencyForward(len, init);
      OneMore(len, init, last);
      DoneThenOpen(len, init);
      var done, round := Done(len, init), Open(len, init) + [last];
      if |round| == len {
        MaxLatencyExact(len, init);
        var before := RunnerAfter(len, init);
        ExtremesAggregate(before.summary, last, before.totals);
        ExtremesAppend(Open(len, init), [last]);
        ExtremesOne(last);
        ExtremesAppend(done, round);
        MinNsBounds(round);
        assert forall iv :: iv in round ==> iv in received;
        LowerMinExact(MinNs(round), MinNs(done));
      }
    }
  }

  lemma {:induction false} MinLatencyPositive(len: nat, received: seq<Interval>)
    ensures RunnerAfter(len, received).totals.minLatency > 0.0
  {
    if received != [] {
      MinLatencyPositive(len, received[..|received| - 1]);
    }
  }

  /** The minimum shown is the true minimum of everything received exactly when no interval holds a
      latency below one microsecond: such a minimum reads as zero, which stands for "none". */
  lemma MinLatencyExact(len: nat, received: seq<Interval>)
    requires len > 0 && |received| % len == 0
    ensures RunnerAfter(len, received).totals.minLatency == ShownMin(MinNs(received))
       <==> NoneBelowMicro(received)
  {
    hide RunnerAfter, Open, Done, Ms;
    AllDone(len, received);
    MinLatencyPositive(len, received);
    MinNsBounds(received);
    MsMonotone(Micros(MinNs(received)), 0);
    if NoneBelowMicro(received) {
      MinLatencyForward(len, received);
    }
  }

  // ---------------------------------------------------------------- order of arrival

  function CodesOf(s: seq<Interval>): set<nat> {
    set iv, code | iv in s && code in iv.rcodes :: code
  }

  lemma CodesAggregate(s: Interval, agg: Interval, t: Totals)
    ensures var u := Aggregate(s, agg);
            && u.rcodes.Keys == s.rcodes.Keys + agg.rcodes.Keys
            && Absorb(t, u).rcodes.Keys == t.rcodes.Keys + u.rcodes.Keys
  {
  }

  lemma {:induction false} CodesExact(len: nat, received: seq<Interval>)
    ensures var r := RunnerAfter(len, received);
            && r.totals.rcodes.Keys == CodesOf(Done(len, received))
            && r.summary.rcodes.Keys == CodesOf(Open(len, received))
  {
    hide RunnerAfter, Open, Done, Aggregate, Absorb;
    NoIntervals(len);
    if received != [] {
      var init, last := received[..|received| - 1], received[|received| - 1];
      assert received == init + [last];
      CodesExact(len, init);
      OneMore(len, init, last);
      var before := RunnerAfter(len, init);
      CodesAggregate(before.summary, last, before.totals);
      CodesAppend(Open(len, init), [last]);
      CodesOne(last);
      CodesAppend(Done(len, init), Open(len, init) + [last]);
    }
  }

  lemma CodesOne(iv: Interval)
    ensures CodesOf([iv]) == iv.rcodes.Keys
  {
    assert forall code :: code in iv.rcodes ==> iv in [iv] && code in iv.rcodes;
  }

  lemma CodesAppend(a: seq<Interval>, b: seq<Interval>)
    ensures CodesOf(a + b) == CodesOf(a) + CodesOf(b)
  {
    assert forall iv :: iv in a + b <==> iv in a || iv in b;
  }

  lemma CodesPermutation(a: seq<Interval>, b: seq<Interval>)
    requires multiset(a) == multiset(b)
    ensures CodesOf(a) == CodesOf(b)
  {
    assert forall iv :: iv in a <==> iv in multiset(a);
    assert forall iv :: iv in b <==> iv in multiset(b);
  }

  lemma ExtremesPermutation(a: seq<Interval>, b: seq<Interval>)
    requires multiset(a) == multiset(b)
    ensures MinNs(a) == MinNs(b) && MaxNs(a) == MaxNs(b)
  {
    assert forall iv :: iv in a <==> iv in multiset(a);
    assert forall iv :: iv in b <==> iv in multiset(b);
    MinNsBounds(a);
    MinNsBounds(b);
    MaxNsBounds(a);
    MaxNsBounds(b);
  }

  /** Counters, histogram and maximum do not depend on the order in which generators report, although
      the rounds then group different intervals; nor does the minimum, latencies being a microsecond
      or more. */
  lemma ArrivalOrderIndependent(len: nat, a: seq<Interval>, b: seq<Interval>)
    requires len > 0 && |a| % len == 0
    requires multiset(a) == multiset(b)
    ensures var t, u := RunnerAfter(len, a).totals, RunnerAfter(len, b).totals;
            && (t.sent, t.recv, t.okRecv, t.timeouts) == (u.sent, u.recv, u.okRecv, u.timeouts)
            && t.rcodes == u.rcodes
            && t.maxLatency == u.maxLatency
            && (NoneBelowMicro(a) ==> t.minLatency == u.minLatency)
  {
    hide RunnerAfter, Open, Done, ShownMin, Get;
    assert |multiset(a)| == |a| && |multiset(b)| == |b|;
    AllDone(len, a);
    AllDone(len, b);
    CountersPermutation(len, a, b);
    CodesExact(len, a);
    CodesExact(len, b);
    CodesPermutation(a, b);
    SameHistogram(RunnerAfter(len, a).totals.rcodes, RunnerAfter(len, b).totals.rcodes);
    MaxLatencyExact(len, a);
    MaxLatencyExact(len, b);
    ExtremesPermutation(a, b);
    if NoneBelowMicro(a) {
      assert forall iv :: iv in b ==> iv in multiset(b);
      MinLatencyExact(len, a);
      MinLatencyExact(len, b);
    }
  }

  lemma SameHistogram(a: Histogram, b: Histogram)
    requires a.Keys == b.Keys && forall code :: Get(a, code) == Get(b, code)
    ensures a == b
  {
    assert forall code :: code in a ==> a[code] == Get(a, code) && b[code] == Get(b, code);
  }

  lemma CountersPermutation(len: nat, a: seq<Interval>, b: seq<Interval>)
    requires len > 0 && |a| % len == 0
    requires multiset(a) == multiset(b)
    ensures var t, u := RunnerAfter(len, a).totals, RunnerAfter(len, b).totals;
            && (t.sent, t.recv, t.okRecv, t.timeouts) == (u.sent, u.recv, u.okRecv, u.timeouts)
            && forall code :: Get(t.rcodes, code) == Get(u.rcodes, code)
  {
    hide RunnerAfter, Open, Done;
    var t, u := RunnerAfter(len, a).totals, RunnerAfter(len, b).totals;
    assert |multiset(a)| == |a| && |multiset(b)| == |b|;
    AllDone(len, a);
    AllDone(len, b);
    forall f: Field
      ensures ReadTotals(t, f) == ReadTotals(u, f)
    {
      RoundRefinement(len, a, f);
      RoundRefinement(len, b, f);
      TotalPermutation(a, b, f);
    }
    assert ReadTotals(t, Sent) == ReadTotals(u, Sent) && ReadTotals(t, Recv) == ReadTotals(u, Recv);
    assert ReadTotals(t, OkRecv) == ReadTotals(u, OkRecv) && ReadTotals(t, Timeouts) == ReadTotals(u, Timeouts);
    forall code: nat
      ensures Get(t.rcodes, code) == Get(u.rcodes, code)
    {
      assert ReadTotals(t, Responses(code)) == ReadTotals(u, Responses(code));
    }
  }

  // ---------------------------------------------------------------- averages

  /** An interval whose every matched response had its latency recorded. */
  ghost predicate Timed(iv: Interval) {
    TimedValues(iv.okRecv, iv.totalLatency, iv.minLatency, iv.maxLatency)
  }

  ghost predicate TimedValues(ok: nat, total: nat, min: nat, max: nat) {
    && (ok == 0 ==> total == 0 && min == NO_MIN && max == 0)
    && (ok > 0 ==> min <= NO_MIN && min <= max && Times(ok, min) <= total <= Times(ok, max))
  }

  /** An interval whose minimum, if it has one, is displayed: a microsecond or more, and below the
      sentinel. */
  ghost predicate MinimumShows(iv: Interval) {
    iv.okRecv > 0 ==> 1000 <= iv.minLatency < NO_MIN
  }

  lemma TimedMerge(ok: nat, total: nat, min: nat, max: nat, ok': nat, total': nat, min': nat, max': nat)
    requires TimedValues(ok, total, min, max) && TimedValues(ok', total', min', max')
    ensures TimedValues(ok + ok', total + total', Min(min', min), Max(max', max))
  {
    hide Times;
    var lo, hi := Min(min', min), Max(max', max);
    TimesMonotone(ok, lo, min);
    TimesMonotone(ok', lo, min');
    TimesMonotone(ok, max, hi);
    TimesMonotone(ok', max', hi);
    TimesAdd(ok, ok', lo);
    TimesAdd(ok, ok', hi);
  }

  lemma TimesAdd(a: nat, b: nat, n: nat)
    ensures Times(a + b, n) == Times(a, n) + Times(b, n)
    ensures Times(0, n) == 0
  {
  }

  /** Truncating to microseconds and dividing by the count stays between the truncated extremes. */
  lemma AverageBetween(ok: nat, total: nat, min: nat, max: nat)
    requires ok > 0 && Times(ok, min) <= total <= Times(ok, max)
    ensures Micros(min) <= Quotient(Micros(total), ok) <= Micros(max)
  {
    hide Times, Quotient;
    var lo, hi := Micros(min), Micros(max);
    TimesMonotone(ok, 1000 * lo, min);
    TimesMonotone(ok, max, 1000 * hi + 999);
    Scale(ok, lo);
    Scale(ok, hi);
    QuotientBetween(Micros(total), ok, lo, hi);
  }

  lemma Scale(n: nat, a: nat)
    ensures Times(n, 1000 * a) == 1000 * Times(n, a)
    ensures Times(n, 1000 * a + 999) == 1000 * Times(n, a) + 999 * n
  {
    assert n * (1000 * a) == 1000 * (n * a);
    assert n * (1000 * a + 999) == n * (1000 * a) + 999 * n;
  }

  ghost predicate Sandwiched(t: Totals) {
    AvgLatency(t.rounds).interval > 0 ==> t.minLatency <= AvgLatency(t.rounds).val <= t.maxLatency
  }

  lemma AbsorbSandwich(t: Totals, iv: Interval)
    requires Timed(iv) && MinimumShows(iv)
    requires Sandwiched(t)
    ensures Sandwiched(Absorb(t, iv))
    ensures AvgLatency(t.rounds).interval > 0 || iv.okRecv > 0 ==> AvgLatency(Absorb(t, iv).rounds).interval > 0
  {
    hide MeanOf, PushReal, Times, Quotient;
    var u, avgs := Absorb(t, iv), RoundAverages(t.rounds);
    assert u.rounds[..|t.rounds|] == t.rounds;
    MeanOneMore(0.0, avgs, AvgMs(iv));
    if iv.okRecv > 0 {
      AverageBetween(iv.okRecv, iv.totalLatency, iv.minLatency, iv.maxLatency);
      var x := AvgMs(iv);
      assert 1 <= Micros(iv.minLatency) && Micros(iv.minLatency) != U64_MAX;
      assert u.minLatency <= MinMs(iv.minLatency) <= x <= MaxMs(iv.maxLatency) <= u.maxLatency;
      PushRealBetween(AvgLatency(t.rounds), x, u.minLatency, u.maxLatency);
      assert RoundAverages(u.rounds) == avgs + [x];
    } else {
      assert AvgMs(iv) == 0.0;
      assert RoundAverages(u.rounds) == avgs;
    }
  }

  /** Through truncation, integer division, empty intervals, aggregation and the running mean, the
      average shown stays between the minimum and the maximum shown once any response was absorbed. */
  lemma {:induction false} LatencySandwich(len: nat, received: seq<Interval>)
    requires len > 0
    requires forall iv :: iv in received ==> Timed(iv) && MinimumShows(iv)
    ensures var t := RunnerAfter(len, received).totals;
            && (t.okRecv > 0 ==> AvgLatency(t.rounds).interval > 0)
            && (t.okRecv > 0 ==> t.minLatency <= AvgLatency(t.rounds).val <= t.maxLatency)
            && Sandwiched(t)
    ensures Timed(RunnerAfter(len, received).summary) && MinimumShows(RunnerAfter(len, received).summary)
  {
    hide RunnerAfter, Open, Done;
    NoIntervals(len);
    if received != [] {
      var init, last := received[..|received| - 1], received[|received| - 1];
      assert received == init + [last];
      LatencySandwich(len, init);
      OneMore(len, init, last);
      var before := RunnerAfter(len, init);
      AggregateTimed(before.summary, last);
      AbsorbSandwich(before.totals, Aggregate(before.summary, last));
    }
  }

  lemma AggregateTimed(s: Interval, agg: Interval)
    requires Timed(s) && Timed(agg)
    ensures Timed(Aggregate(s, agg))
    ensures MinimumShows(s) && MinimumShows(agg) ==> MinimumShows(Aggregate(s, agg))
  {
    TimedMerge(s.okRecv, s.totalLatency, s.minLatency, s.maxLatency,
               agg.okRecv, agg.totalLatency, agg.minLatency, agg.maxLatency);
  }

  /** The k-th round absorbed holds the sums of the k-th `len` intervals received. */
  lemma {:induction false} RoundIsBlock(len: nat, received: seq<Interval>, k: nat, f: Field)
    requires len > 0
    ensures Times(len, |RunnerAfter(len, received).totals.rounds|) == |Done(len, received)|
    ensures k < |RunnerAfter(len, received).totals.rounds| ==>
              && Times(len, k) + len <= |Done(len, received)|
              && Read(RunnerAfter(len, received).totals.rounds[k], f)
                 == Total(Done(len, received)[Times(len, k)..Times(len, k) + len], f)
  {
    hide RunnerAfter, Open, Done, Aggregate, Times, Read;
    NoIntervals(len);
    if received == [] {
      TimesNext(len, 0);
    } else {
      var init, last := received[..|received| - 1], received[|received| - 1];
      assert received == init + [last];
      RoundIsBlock(len, init, k, f);
      OneMore(len, init, last);
      var rounds := RunnerAfter(len, init).totals.rounds;
      TimesNext(len, |rounds|);
      TimesMonotone(len, k + 1, |rounds|);
      TimesNext(len, k);
      RoundRefinement(len, init, f);
      TotalOne(last, f);
      TotalAppend(Open(len, init), [last], f);
      ReadAggregate(RunnerAfter(len, init).summary, last, NO_TOTALS, f);
      var done, round := Done(len, init), Open(len, init) + [last];
      if |round| == len {
        assert RunnerAfter(len, received).totals.rounds
            == rounds + [Aggregate(RunnerAfter(len, init).summary, last)];
        if k < |rounds| {
          assert (done + round)[Times(len, k)..Times(len, k) + len] == done[Times(len, k)..Times(len, k) + len];
        } else if k == |rounds| {
          assert (done + round)[Times(len, k)..Times(len, k) + len] == round;
        }
      }
    }
  }

  lemma FloorOfFloor(total: nat, ok: nat)
    requires ok > 0
    ensures Quotient(Micros(total), ok) == Quotient(total, 1000 * ok)
  {
    hide Times, Quotient;
    var q := Quotient(Micros(total), ok);
    QuotientBounds(Micros(total), ok);
    Scale(q, ok);
    TimesNext(q, ok);
    TimesNext(q, 1000 * ok);
    QuotientBetween(total, 1000 * ok, q, q);
  }

  /** The average of the k-th round absorbed is that of the latencies measured: in whole microseconds, the
      floor of the summed latency of its block over the number of responses matched in it. */
  lemma RoundAverage(len: nat, received: seq<Interval>, k: nat)
    requires len > 0 && k < |RunnerAfter(len, received).totals.rounds|
    ensures Times(len, k) + len <= |Done(len, received)|
    ensures var block := Done(len, received)[Times(len, k)..Times(len, k) + len];
            Total(block, OkRecv) > 0 ==>
              AvgMs(RunnerAfter(len, received).totals.rounds[k])
              == Ms(Quotient(Total(block, TotalLatency), 1000 * Total(block, OkRecv)))
    ensures var block := Done(len, received)[Times(len, k)..Times(len, k) + len];
            Total(block, OkRecv) == 0 ==>
              AvgMs(RunnerAfter(len, received).totals.rounds[k]) == Ms(Micros(Total(block, TotalLatency)))
  {
    hide RunnerAfter, Done, Times, Quotient, Total, Micros;
    RoundIsBlock(len, received, k, OkRecv);
    RoundIsBlock(len, received, k, TotalLatency);
    var round := RunnerAfter(len, received).totals.rounds[k];
    if round.okRecv > 0 {
      FloorOfFloor(round.totalLatency, round.okRecv);
    }
  }

  function SumOfAverages(rounds: seq<Interval>): real {
    if rounds == [] then 0.0 else SumOfAverages(rounds[..|rounds| - 1]) + AvgMs(rounds[|rounds| - 1])
  }

  function NonzeroAverages(rounds: seq<Interval>): nat {
    if rounds == [] then 0
    else NonzeroAverages(rounds[..|rounds| - 1]) + if AvgMs(rounds[|rounds| - 1]) != 0.0 then 1 else 0
  }

  /** The average shown, times the number of rounds whose average is not zero, is the sum of all their
      averages: each of those rounds weighs the same. */
  lemma {:induction false} AvgLatencyIsMeanOfRounds(rounds: seq<Interval>)
    ensures AvgLatency(rounds).interval == NonzeroAverages(rounds)
    ensures Weight(AvgLatency(rounds)) == SumOfAverages(rounds)
    ensures NonzeroAverages(rounds) == 0 ==> AvgLatency(rounds).val == 0.0
  {
    hide Weight, PushReal, AvgMs;
    MeanIsExact(0.0, RoundAverages(rounds));
    if rounds != [] {
      var init, avg := rounds[..|rounds| - 1], AvgMs(rounds[|rounds| - 1]);
      AvgLatencyIsMeanOfRounds(init);
      MeanIsExact(0.0, RoundAverages(init));
      assert (RoundAverages(init) + [avg])[..|RoundAverages(init)|] == RoundAverages(init);
      assert RoundAverages(init) + [] == RoundAverages(init);
    }
  }

  /** For each of the first n blocks of `len` intervals with both sums nonzero, the floor of their quotient. */
  function BlockQuotients(len: nat, done: seq<Interval>, n: nat, num: Field, den: Field): seq<nat>
    requires Times(len, n) <= |done|
  {
    if n == 0 then []
    else
      TimesNext(len, n - 1);
      var block := done[Times(len, n - 1)..Times(len, n - 1) + len];
      BlockQuotients(len, done, n - 1, num, den)
      + if Total(block, num) != 0 && Total(block, den) != 0 then [Quotient(Total(block, num), Total(block, den))]
        else []
  }

  /** The sizes averaged are those of the rounds: bytes of answered queries over queries sent, and bytes
      received over responses matched, in each block of `len` intervals that has both. */
  lemma {:induction false} SizesOfBlocks(len: nat, received: seq<Interval>, n: nat)
    requires len > 0 && n <= |RunnerAfter(len, received).totals.rounds|
    ensures Times(len, n) <= |Done(len, received)|
    ensures var rounds, done := RunnerAfter(len, received).totals.rounds, Done(len, received);
            && SentSizes(rounds[..n]) == BlockQuotients(len, done, n, SentBytes, Sent)
            && RecvSizes(rounds[..n]) == BlockQuotients(len, done, n, RecvBytes, OkRecv)
  {
    hide RunnerAfter, Done, Times, Quotient, Total;
    if n == 0 {
      TimesNext(len, 0);
    } else {
      var rounds := RunnerAfter(len, received).totals.rounds;
      SizesOfBlocks(len, received, n - 1);
      TimesNext(len, n - 1);
      RoundIsBlock(len, received, n - 1, SentBytes);
      RoundIsBlock(len, received, n - 1, Sent);
      RoundIsBlock(len, received, n - 1, RecvBytes);
      RoundIsBlock(len, received, n - 1, OkRecv);
      assert rounds[..n][..n - 1] == rounds[..n - 1];
    }
  }

  // ---------------------------------------------------------------- histograms

  /** Every matched response is counted under one four-bit code, and matched responses are frames. */
  ghost predicate Balanced(rcodes: Histogram, okRecv: nat, recv: nat) {
    && (forall code :: code in rcodes ==> code < 16)
    && CountBelow(rcodes, 16) == okRecv
    && okRecv <= recv
  }

  lemma {:induction false} CountMerge(a: Histogram, b: Histogram, bound: nat)
    ensures CountBelow(Merge(a, b), bound) == CountBelow(a, bound) + CountBelow(b, bound)
  {
    if bound > 0 {
      CountMerge(a, b, bound - 1);
    }
  }

  lemma {:induction false} CountBump(h: Histogram, code: nat, count: nat, bound: nat)
    ensures CountBelow(Bump(h, code, count), bound) == CountBelow(h, bound) + if code < bound then count else 0
  {
    if bound > 0 {
      CountBump(h, code, count, bound - 1);
    }
  }

  lemma {:induction false} CountNone(bound: nat)
    ensures CountBelow(map[], bound) == 0
  {
    if bound > 0 {
      CountNone(bound - 1);
    }
  }

  /** If every interval's histogram agrees with its counters, so do the summary's and the totals'. */
  lemma {:induction false} HistogramsAgree(len: nat, received: seq<Interval>)
    requires forall iv :: iv in received ==> Balanced(iv.rcodes, iv.okRecv, iv.recv)
    ensures var r := RunnerAfter(len, received);
            && Balanced(r.summary.rcodes, r.summary.okRecv, r.summary.recv)
            && Balanced(r.totals.rcodes, r.totals.okRecv, r.totals.recv)
  {
    CountNone(16);
    if received != [] {
      var n := |received| - 1;
      HistogramsAgree(len, received[..n]);
      var before := RunnerAfter(len, received[..n]);
      CountMerge(before.summary.rcodes, received[n].rcodes, 16);
      CountMerge(before.totals.rcodes, Aggregate(before.summary, received[n]).rcodes, 16);
    }
  }

  // ---------------------------------------------------------------- elapsed time

  function ElapsedOf(s: seq<Interval>): nat {
    if s == [] then 0 else ElapsedOf(s[..|s| - 1]) + s[|s| - 1].elapsed
  }

  lemma {:induction false} ElapsedAppend(a: seq<Interval>, b: seq<Interval>)
    ensures ElapsedOf(a + b) == ElapsedOf(a) + ElapsedOf(b)
  {
    if b == [] {
      assert a + b == a;
    } else {
      ElapsedAppend(a, b[..|b| - 1]);
      assert (a + b)[..|a + b| - 1] == a + b[..|b| - 1];
    }
  }

  /** The time covered so far, summed over the ends of all rounds. */
  function ElapsedAtRounds(len: nat, received: seq<Interval>): nat
    requires len > 0
  {
    if received == [] then 0
    else
      ElapsedAtRounds(len, received[..|received| - 1])
      + if |received| % len == 0 then ElapsedOf(received) else 0
  }

  /** The summary's elapsed time is never cleared, so it holds all the time since the start, and the totals
      take that much at every round: exactly the sum of what had elapsed by the end of each, which is at
      least the time of the complete rounds. */
  lemma {:induction false} ElapsedAccumulates(len: nat, received: seq<Interval>)
    requires len > 0
    ensures var r := RunnerAfter(len, received);
            && r.summary.elapsed == ElapsedOf(received)
            && r.totals.elapsed == ElapsedAtRounds(len, received) >= ElapsedOf(Done(len, received))
            && (ElapsedOf(Done(len, received)) == 0 ==> r.totals.elapsed == 0)
  {
    if received != [] {
      var init, last := received[..|received| - 1], received[|received| - 1];
      assert received == init + [last];
      ElapsedAccumulates(len, init);
      OneMore(len, init, last);
      ElapsedAppend(init, [last]);
      assert [last][..0] == [];
      ElapsedAppend(Done(len, init), Open(len, init) + [last]);
      ElapsedAppend(Open(len, init), [last]);
      DoneThenOpen(len, init);
      ElapsedAppend(Done(len, init), Open(len, init));
      NextRemainder(len, |init|);
    }
  }

  /** So the totals' elapsed time is the sum of what was reported only if everything before the last
      round took no time at all. */
  lemma ElapsedConservedOnlyIfIdle(len: nat, earlier: seq<Interval>, round: seq<Interval>)
    requires len > 0 && |earlier| % len == 0 && |round| == len
    ensures RunnerAfter(len, earlier + round).totals.elapsed == ElapsedOf(earlier + round)
       <==> ElapsedOf(earlier) == 0
  {
    var init, last := earlier + round[..len - 1], round[len - 1];
    assert earlier + round == init + [last];
    AllDone(len, earlier);
    OpenRound(len, earlier, round[..len - 1]);
    OneMore(len, init, last);
    ElapsedAccumulates(len, earlier);
    ElapsedAccumulates(len, init);
    ElapsedAppend(init, [last]);
    assert [last][..0] == [];
  }

  /** Fewer than `len` further intervals only extend the open round. */
  lemma {:induction false} OpenRound(len: nat, earlier: seq<Interval>, more: seq<Interval>)
    requires Open(len, earlier) == [] && |more| < len
    ensures Open(len, earlier + more) == more
    ensures RunnerAfter(len, earlier + more).totals == RunnerAfter(len, earlier).totals
  {
    hide RunnerAfter, Open, Done, Aggregate, Absorb;
    if more == [] {
      assert earlier + more == earlier;
    } else {
      var init, last := more[..|more| - 1], more[|more| - 1];
      OpenRound(len, earlier, init);
      assert earlier + more == (earlier + init) + [last];
      OneMore(len, earlier + init, last);
    }
  }
}
