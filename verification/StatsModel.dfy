/** The values the statistics pipeline of `bin/src/stats.rs` passes along, and what each of its
    operations computes from them. Durations are whole nanoseconds; milliseconds are exact reals. */
module StatsModel {
  import opened Basics
  import opened Frames
  import opened MovingAverage

  /** `Duration::from_micros(u64::MAX)`, the minimum latency of an interval that saw none. */
  const U64_MAX: nat := 0xFFFF_FFFF_FFFF_FFFF
  const NO_MIN: nat := U64_MAX * 1000
  const F32_MAX: real := 340282346638528859811704183484516925440.0

  // ---------------------------------------------------------------- histograms of response codes

  type Histogram = map<nat, nat>

  function Get(h: Histogram, code: nat): nat {
    if code in h then h[code] else 0
  }

  function Bump(h: Histogram, code: nat, count: nat): Histogram {
    h[code := Get(h, code) + count]
  }

  /** Every entry of `b` added to `a`. */
  function Merge(a: Histogram, b: Histogram): Histogram {
    map code | code in a.Keys + b.Keys :: Get(a, code) + Get(b, code)
  }

  /** The number of responses whose code is below `bound`. */
  function CountBelow(h: Histogram, bound: nat): nat {
    if bound == 0 then 0 else CountBelow(h, bound - 1) + Get(h, bound - 1)
  }

  // ---------------------------------------------------------------- one generator's live counters

  datatype Tracker = Tracker(
    intervals: nat, recv: nat, okRecv: nat,
    totalLatency: nat, minLatency: nat, maxLatency: nat,
    rcodes: Histogram, recvBufSize: nat, bufSize: nat)

  const FRESH: Tracker := Tracker(0, 0, 0, 0, NO_MIN, 0, map[], 0, 0)

  function ResetTracker(t: Tracker): Tracker {
    t.(recv := 0, okRecv := 0, totalLatency := 0, minLatency := NO_MIN, maxLatency := 0,
       recvBufSize := 0, bufSize := 0)
  }

  /** A response matched to a query of `len` bytes sent at `sent`. A clock that reads earlier than
      `sent` leaves the latencies alone. */
  function Matched(t: Tracker, now: nat, sent: nat, len: nat, msg: seq<byte>): Tracker
    requires |msg| >= 4
  {
    var timed :=
      if now < sent then t
      else t.(totalLatency := t.totalLatency + (now - sent),
              minLatency := Min(t.minLatency, now - sent),
              maxLatency := Max(t.maxLatency, now - sent));
    timed.(rcodes := Bump(t.rcodes, Rcode(msg), 1),
           bufSize := t.bufSize + len, recvBufSize := t.recvBufSize + |msg|,
           okRecv := t.okRecv + 1)
  }

  // ---------------------------------------------------------------- intervals

  datatype Interval = Interval(
    duration: nat, elapsed: nat, interval: nat,
    sent: nat, recv: nat, okRecv: nat, timeouts: nat,
    minLatency: nat, totalLatency: nat, maxLatency: nat,
    rcodes: Histogram, recvBufSize: nat, bufSize: nat, inFlight: nat)

  const EMPTY: Interval := Interval(0, 0, 0, 0, 0, 0, 0, NO_MIN, 0, 0, map[], 0, 0, 0)

  /** The record reported for a tracker, given what was read from the two atomics. */
  function Report(t: Tracker, sent: nat, timeouts: nat, elapsed: nat, duration: nat, inFlight: nat): Interval {
    Interval(duration, elapsed, t.intervals, sent, t.recv, t.okRecv, timeouts,
             t.minLatency, t.totalLatency, t.maxLatency, t.rcodes, t.recvBufSize, t.bufSize, inFlight)
  }

  function AfterReport(t: Tracker): Tracker {
    ResetTracker(t.(rcodes := map[], intervals := t.intervals + 1))
  }

  function Aggregate(s: Interval, agg: Interval): Interval {
    Interval(
      agg.duration, s.elapsed + agg.elapsed, agg.interval,
      s.sent + agg.sent, s.recv + agg.recv, s.okRecv + agg.okRecv, s.timeouts + agg.timeouts,
      Min(agg.minLatency, s.minLatency), s.totalLatency + agg.totalLatency, Max(agg.maxLatency, s.maxLatency),
      Merge(s.rcodes, agg.rcodes), s.recvBufSize + agg.recvBufSize, s.bufSize + agg.bufSize,
      s.inFlight + agg.inFlight)
  }

  /** What is left of the summary once it has been logged: the source keeps `elapsed`, `duration`
      and `interval`. */
  function AfterLog(s: Interval): Interval {
    EMPTY.(duration := s.duration, elapsed := s.elapsed, interval := s.interval)
  }

  function Micros(d: nat): nat {
    d / 1000
  }

  function Ms(micros: nat): real {
    micros as real / 1000.0
  }

  function MinMs(minLatency: nat): real {
    if Micros(minLatency) == U64_MAX then 0.0 else Ms(Micros(minLatency))
  }

  function MaxMs(maxLatency: nat): real {
    Ms(Micros(maxLatency))
  }

  function AvgMs(iv: Interval): real {
    if iv.okRecv != 0 then Ms(Quotient(Micros(iv.totalLatency), iv.okRecv)) else Ms(Micros(iv.totalLatency))
  }

  // ---------------------------------------------------------------- totals

  /** The totals, with the rounds absorbed so far: the three running averages are functions of these. */
  datatype Totals = Totals(
    duration: nat, elapsed: nat, sent: nat, recv: nat, okRecv: nat, timeouts: nat,
    minLatency: real, maxLatency: real, rcodes: Histogram, inFlight: nat, rounds: seq<Interval>)

  const NO_TOTALS: Totals := Totals(0, 0, 0, 0, 0, 0, F32_MAX, 0.0, map[], 0, [])

  /** A round whose minimum reads as zero leaves the shown minimum alone. */
  function LowerMin(shown: real, minLatency: nat): real {
    if MinMs(minLatency) != 0.0 && MinMs(minLatency) < shown then MinMs(minLatency) else shown
  }

  function RaiseMax(shown: real, maxLatency: nat): real {
    if shown < MaxMs(maxLatency) then MaxMs(maxLatency) else shown
  }

  function Absorb(t: Totals, iv: Interval): Totals {
    Totals(
      iv.duration, t.elapsed + iv.elapsed,
      t.sent + iv.sent, t.recv + iv.recv, t.okRecv + iv.okRecv, t.timeouts + iv.timeouts,
      LowerMin(t.minLatency, iv.minLatency), RaiseMax(t.maxLatency, iv.maxLatency),
      Merge(t.rcodes, iv.rcodes), t.inFlight + iv.inFlight, t.rounds + [iv])
  }

  /** The round averages that count: those not reading as zero. */
  function RoundAverages(rounds: seq<Interval>): seq<real> {
    if rounds == [] then []
    else
      var avg := AvgMs(rounds[|rounds| - 1]);
      RoundAverages(rounds[..|rounds| - 1]) + if avg != 0.0 then [avg] else []
  }

  function AvgLatency(rounds: seq<Interval>): Mean {
    MeanOf(0.0, RoundAverages(rounds))
  }

  /** Bytes of matched queries over queries sent, for each round with both. */
  function SentSizes(rounds: seq<Interval>): seq<nat> {
    if rounds == [] then []
    else
      var iv := rounds[|rounds| - 1];
      SentSizes(rounds[..|rounds| - 1])
      + if iv.bufSize != 0 && iv.sent != 0 then [Quotient(iv.bufSize, iv.sent)] else []
  }

  function RecvSizes(rounds: seq<Interval>): seq<nat> {
    if rounds == [] then []
    else
      var iv := rounds[|rounds| - 1];
      RecvSizes(rounds[..|rounds| - 1])
      + if iv.recvBufSize != 0 && iv.okRecv != 0 then [Quotient(iv.recvBufSize, iv.okRecv)] else []
  }

  // ---------------------------------------------------------------- the runner

  datatype Runner = Runner(generators: nat, summary: Interval, totals: Totals)

  function Receive(len: nat, r: Runner, iv: Interval): Runner {
    var summary := Aggregate(r.summary, iv);
    if r.generators + 1 == len then Runner(0, AfterLog(summary), Absorb(r.totals, summary))
    else Runner(r.generators + 1, summary, r.totals)
  }

  /** The runner of `len` generators once it has received these intervals. */
  function RunnerAfter(len: nat, received: seq<Interval>): Runner {
    if received == [] then Runner(0, EMPTY, NO_TOTALS)
    else Receive(len, RunnerAfter(len, received[..|received| - 1]), received[|received| - 1])
  }
}
