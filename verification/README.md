# nailgun, verified

A Dafny model of the core of `nailgun`, a DNS load generator, with proofs. It follows one generator's three
tasks (sender, receiver, cleanup) over their shared pool of query identifiers and their two atomic counters,
the statistics that flow from the generators to the printed totals, the TCP framing of DNS messages, and the
running average used in the totals. `dafny verify dfyconfig.toml` checks everything.

## How it is laid out

- `Basics`: options, bytes, identifiers, duplicate-free listings.
- `MovingAverage` (`bin/src/util.rs`): the running mean, over machine words with truncation and wrap-around,
  and over reals.
- `Frames` (`bin/src/msg.rs`, the TCP arm of `bin/src/sender.rs`): section 4.2.2 of RFC 1035.
- `Pool` (`bin/src/store.rs`): `Store` and `AtomicStore` as objects, and the functions on their contents.
- `StatsModel`, `Stats` (`bin/src/stats.rs`): the values passed along the pipeline, and the objects that are
  updated in place, each method proved against the value it computes.
- `Rounds`: what the totals say about the intervals received; `ArrivalOrder`: when the printed minimum depends
  on the order in which they arrive.
- `Protocol` (`bin/src/gen.rs`, `bin/src/sender.rs`): the three tasks as a state machine.
- `History`: what happened in a run, told from its list of actions and apart from the step function: the clock,
  the open queries, the answers, the instants of the final wait. The states are proved to say the same.
- `Reports`: what each interval sent says, against that history; `Ledger`, `Books` and `Timing` are what every
  run keeps.
- `Generator`: the same stretches of code as methods over the shared objects, proved against the functions
  the state machine is made of.
- `EndToEnd`: from the runs of all generators to the printed totals.

A step of the state machine is what a task does between two points where another can interleave: a region
under the lock, or one access to an atomic. Any list of actions is a run, since an action that is not
enabled changes nothing. The report of a generator takes five steps (gauge, two loads, two stores), and the
sender and the cleanup task may act between any two of them. A turn of the final wait takes two, the clearing
and the check, each with its own reading of the clock; both are under the lock, so that between them time
passes and a query already sent may be counted, and nothing else happens to the store. Aborting the sender
only asks it to stop: it may go on sending and counting until it does, at any later time. What happened
during a run (stray frames, discards, overwrites, counts falling between a load and its store, and so on) is
counted by `Tally` from the states and actions alone, apart from the step function.

Time is in whole nanoseconds, milliseconds are exact reals, counters are unbounded. The shuffled pool is any
duplicate-free order, the order in which a hash map is traversed is arbitrary, and clock readings, message
contents and the interleaving are inputs. The cleanup task's period starts at time zero.

## Where the code and its comments differ

- `bin/src/gen.rs:132` announces a wait for remaining messages or time-outs. The reader is not polled during
  that wait (`bin/src/gen.rs:150-168`), so a query still in flight ends as a time-out or is left there, never
  as an answer.
- `bin/src/store.rs:66-67` speaks of random 16-bit numbers; 65535 is never among them.
- `bin/src/gen.rs:99` returns an identifier before it is known to be in flight, so a stray frame makes a
  second copy of it.

## Findings

- `bin/src/gen.rs:99`: two queries can share an identifier once a stray frame arrives, from every shuffle of
  the pool (`Ledger.StrayFrameShares`), and only then (`Ledger.ExclusiveIffWellBehaved`).
- `bin/src/stats.rs:317-321` with `bin/src/stats.rs:149-155`: a latency below one microsecond hides the minimum
  of its round. The printed minimum is the true one exactly when there is none (`Rounds.MinLatencyExact`). It
  is the same for every order of arrival exactly when the intervals at or above a microsecond do not fill a
  round, or none of them has a latency, or more than S(len - 1) of them display the least minimum, where S
  intervals are below a microsecond and a round has len (`ArrivalOrder.MinimumOrderBlind`); two orders that
  differ are in `ArrivalOrder.ArrivalOrderMatters`.
- `bin/src/stats.rs:223-234`: the elapsed time in the totals counts earlier rounds again
  (`Rounds.ElapsedAccumulates`, `Rounds.ElapsedConservedOnlyIfIdle`).
- `bin/src/gen.rs:159-162`: the final wait reads the clock twice and can leave a query in flight between the
  two readings (`Timing.WaitLeavesOne`), exactly under the condition of `Timing.TurnLeaves`; so can a sender
  that outlives its abortion (`bin/src/gen.rs:131`). What is left is younger than a timeout at the last
  clearing (`Timing.AlwaysLeftYoung`).
- `bin/src/sender.rs:99`: a TCP message over 65535 bytes is announced with a truncated length
  (`Frames.RoundTrip`).

## Model

| member | source | states |
|---|---|---|
| Ledger.NoLeak | bin/src/sender.rs:41-67 | under any responses, the copies of an identifier in queue, batch and flight, plus discards and overwrites, equal its copies at the start plus stray frames for it, and the last copy is never lost |
| Ledger.NoLeakFromStart | bin/src/store.rs:67-71 | from any shuffle: exactly 1 + stray - dropped - overwritten copies of each identifier below 65535, always at least one; drops and overwrites never outnumber stray frames |
| Ledger.CopiesStep | bin/src/gen.rs:97-105 | one atomic step moves copies between queue, batch and flight; only a stray frame makes one |
| Ledger.ExclusiveStays | bin/src/sender.rs:41-67 | while responses only come for queries in flight, every identifier keeps its one place and nothing is discarded or overwritten |
| Ledger.Partition | bin/src/store.rs:20-31 | queue, batch and in-flight keys partition the pool in every state a well-behaved run reaches |
| Ledger.ExclusiveIffWellBehaved | bin/src/gen.rs:98-105 | ownership is exclusive throughout a run if and only if no stray frame arrives in it |
| Ledger.NoOverwrites | bin/src/sender.rs:60-68 | no insert of a well-behaved run overwrites an outstanding query |
| Ledger.StrayFrameShares | bin/src/gen.rs:99 | from every shuffle, a run in which one stray frame comes for the last identifier: the whole pool goes out in its order, then that identifier again, over its outstanding query |
| Ledger.Fifo | bin/src/sender.rs:41-67 | what a well-behaved run sends, followed by what still waits, is what waited at the start followed by what responses and time-outs gave back |
| Ledger.PositionIsDistance | bin/src/sender.rs:41-49 | the identifier at queue position p is sent after exactly the p others before it |
| Ledger.ReuseDistance | bin/src/gen.rs:97-104 | after a response processed with k queries in flight, exactly N - k queries, all for distinct other identifiers, are sent before its identifier is used again |
| Ledger.WholePoolFirst | bin/src/store.rs:67-71 | the whole pool is used once, in its shuffled order, before anything is reused |
| Books.SplitSnapshots | bin/src/stats.rs:84-103 | at every instant reported + live + lost equals the increments made, for both atomics, where lost is exactly what landed between a counter's load and its store |
| Books.TrackerLedger | bin/src/stats.rs:64-105 | the counters only the generator touches, each response code, the byte counts and the summed latency included, lose nothing across reports: reported and live make up the items and answers of the history |
| Books.ReportAcrossGaps | bin/src/gen.rs:79-118 | the whole interval of a report made in separate steps, each second or at the end, with any actions of the other tasks in the gaps: times and gauge of its first step, counters up to their loads; and everything it leaves behind |
| Books.FlightLedger | bin/src/gen.rs:95-105 | every query sent was answered, timed out or overwritten, or is in flight |
| Books.BooksBalance | bin/src/sender.rs:50-75 | in every reachable state, under any responses and interleaving, sends balance answers, time-outs, flight, overwrites and losses |
| Books.ReportsAlwaysInOrder | bin/src/gen.rs:79-118 | intervals are numbered from zero, each carries the sum of the elapsed times so far, which is the clock reading at which its report was begun |
| Books.HistogramsAlwaysSound | bin/src/gen.rs:95-108 | in the tracker and every interval sent: response codes below 16, their counts add up to the matched responses, matched never exceed frames read |
| Books.LatenciesAlwaysSound | bin/src/stats.rs:64-69 | in every reachable state: the tracker and every interval sent have count*min <= total <= count*max |
| Books.ExtremesAlwaysInRange | bin/src/stats.rs:64-69 | with latencies in [lo, hi), lo possibly zero: minima from lo up and maxima below hi, in the tracker and every interval sent |
| Protocol.ServingActs | bin/src/gen.rs:89-133 | in its event loop, between reports, the generator takes an error, any frame long enough, the tick or the shutdown, and what each does |
| Protocol.SenderActs | bin/src/sender.rs:38-75 | what a running sender can do whenever the lock is free, and that counting needs no lock |
| Protocol.ClearingActs | bin/src/store.rs:32-50 | cleanup tick and drain turn move the queries at least a timeout old, and no others, to the end of the queue and count them |
| History.FlightIsHistory | bin/src/sender.rs:60-68 | in every reachable state the record in flight under an identifier is the clock reading and the length of its last insert, unless a frame for it or a clearing came since |
| History.WaitIsHistory | bin/src/gen.rs:154-162 | the final wait counts its time from the shutdown, and its clearing and check are the last ones of the action list |
| History.TasksAreHistory | bin/src/gen.rs:177-185 | the sender runs until it stops, and the cleanup deadlines are the multiples of the timeout |
| Reports.CountersAreHistory | bin/src/stats.rs:64-105 | in every reachable state the tracker counts the items and answers since the last report, and each interval sent those of its own stretch of the run |
| Reports.ExtremesAreHistory | bin/src/stats.rs:66-70 | the minimum and maximum of the tracker and of each interval sent are the least and the greatest latency answered in its stretch, and their response codes those answered |
| Reports.TimesAreHistory | bin/src/gen.rs:79-118 | the k-th interval carries the clock reading and the number in flight at which its report was begun, and the time since the report before was begun |
| Timing.AgeBound | bin/src/gen.rs:171-187 | with cleanup ticks at most slack late, every query in flight was sent in the past and less than two timeouts and the slack ago |
| Timing.AgeBoundAttained | bin/src/store.rs:33-43 | for every pool and timeout a run, on time, in which a query is one tick short of two timeouts old |
| Timing.LatencyBound | bin/src/stats.rs:64-69 | no latency recorded reaches two timeouts and the slack |
| Timing.ReportedLatencyBound | bin/src/stats.rs:94-96 | nor does the maximum of the tracker or of any interval sent, whatever the responses |
| Timing.AlwaysLeftYoung | bin/src/gen.rs:155-167 | in any run, what is in flight after a turn of the final wait has cleared the store was sent less than a timeout before that clearing, or later |
| Timing.DrainSettles | bin/src/gen.rs:129-141 | once the sender is gone, a generator that returns from a wait whose last clearing came a timeout later, or that found the store empty, has nothing in flight and nothing unreported, whatever the cleanup task does |
| Timing.StoppedIsGone | bin/src/gen.rs:122-133 | a reachable generator whose sender has stopped, at any time before the final wait is over, is in that situation |
| Timing.DrainReturnsEachOnce | bin/src/gen.rs:150-168 | over the final wait each query leaving flight goes back to the pool once and is counted as timed out once; once the store is empty that is every query |
| Timing.TurnLeaves | bin/src/gen.rs:157-166 | whatever happens within a turn, it leaves exactly the queries younger than the timeout at its clearing, and ends the wait if and only if there is none or the timeout is over at its check |
| Timing.WaitLeavesOne | bin/src/gen.rs:159-162 | for every pool and timeout, a run that ends with a query left in flight, reported as sent but neither as answered nor as timed out |
| Timing.CanFinish | bin/src/gen.rs:150-168 | the wait and the final report can always be brought to their end |
| EndToEnd.TotalsBalance | bin/src/stats.rs:409-425 | printed totals of settled generators: sent + lost + uncounted = answered + timed out + lost + overwritten |
| EndToEnd.EverythingReceivedBalances | bin/src/stats.rs:409-425 | the same at any moment, wherever the generators are in their runs: totals, open round, intervals in the channel and what the generators still hold balance |
| EndToEnd.TotalsWithinOneEach | bin/src/stats.rs:308-337 | undisturbed: sent <= answered + timed out <= sent + number of generators |
| EndToEnd.PrintedCountersExact | bin/src/stats.rs:334-336 | frames, responses, the count of each response code and the sums of bytes and latencies in the totals are exactly those of the history of all runs |
| EndToEnd.PrintedHistogramAgrees | bin/src/stats.rs:357-360 | the printed response codes add up to the matched responses |
| EndToEnd.PrintedExtremesExact | bin/src/stats.rs:317-322 | the printed maximum is the greatest of all latencies the generators reported, and the printed minimum the least of them if and only if none is below 1us |
| EndToEnd.SettledReportsAll | bin/src/gen.rs:129-141 | a settled generator has reported every answer of its run |
| EndToEnd.PrintedMaximum | bin/src/stats.rs:322 | the printed maximum is below two timeouts and the slack, whatever the responses |
| EndToEnd.PrintedLatencies | bin/src/stats.rs:317-325 | latencies being 1us or more: printed minimum <= average <= maximum |
| EndToEnd.ShutDownRunSettles | bin/src/gen.rs:122-166 | a generator whose sender stops before the final wait is over and who returns is settled if the last check came at most a timeout after the shutdown or the last clearing a timeout after the sender stopped; what it leaves otherwise was sent before the sender stopped and less than a timeout before that clearing; all instants are those of the action list |
| Rounds.DoneThenOpen | bin/src/stats.rs:410-419 | complete rounds are the longest prefix with a multiple of len intervals |
| Rounds.RoundRefinement | bin/src/stats.rs:188-222 | after every interval, totals are the sums over the complete rounds and the summary the sums over the open one |
| Rounds.RoundIsBlock | bin/src/stats.rs:409-420 | the k-th round absorbed holds the sums of the k-th len intervals |
| Rounds.RoundAverage | bin/src/stats.rs:159-165 | the average of the k-th round is, in whole microseconds, the floor of the summed latency of its len intervals over their matched responses |
| Rounds.OnlyCompleteRoundsCount | bin/src/stats.rs:415-419 | an open round leaves no trace in the totals |
| Rounds.ArrivalOrderIndependent | bin/src/stats.rs:309-336 | counters, response codes and maximum (and minimum from 1us up) are the same for every order of arrival |
| ArrivalOrder.MinimumOrderBlind | bin/src/stats.rs:317-321 | the printed minimum of complete rounds is the same for every order of arrival if and only if the unhidden minima do not fill a round, or none is below the sentinel, or more than S(len-1) intervals display the least, S being the hidden ones |
| ArrivalOrder.ShownExact | bin/src/stats.rs:149-155 | the printed minimum is the least displayed by any round, where a round holding a latency below 1us displays none |
| ArrivalOrder.Pigeonholes | bin/src/stats.rs:410-419 | if the least minimum is not shown, at most S(len-1) intervals display it |
| ArrivalOrder.OrderShows | bin/src/stats.rs:317-321 | when the condition fails, an order that shows the least minimum and one that does not |
| ArrivalOrder.ArrivalOrderMatters | bin/src/stats.rs:317-321 | two orders of four one-response intervals with different printed minima |
| Rounds.MinLatencyExact | bin/src/stats.rs:149-155 | the printed minimum is the true one if and only if no interval holds a latency below 1us |
| Rounds.MaxLatencyExact | bin/src/stats.rs:322 | the printed maximum is that of the complete rounds, and the summary's extremes are those of the open round |
| Rounds.LatencySandwich | bin/src/stats.rs:159-165 | minimum <= average <= maximum through truncation, division, empty intervals, aggregation and the running mean |
| Rounds.AvgLatencyIsMeanOfRounds | bin/src/stats.rs:323-325 | the average shown, times the number of rounds with a nonzero average, is the sum of the averages of all rounds; it is zero if there is none |
| Rounds.SizesOfBlocks | bin/src/stats.rs:326-333 | the sizes averaged are, for each block of len intervals that has both sums, the floor of its bytes of answered queries over its queries sent, and of its bytes received over its matched responses |
| Rounds.LastReceived | bin/src/stats.rs:206-207 | the summary has the duration and the number of the last interval received, the totals the duration of the last interval of the last complete round |
| Rounds.HistogramsAgree | bin/src/stats.rs:216-218 | agreement of histograms with counters survives aggregation and totals |
| Rounds.ElapsedAccumulates | bin/src/stats.rs:223-234 | the summary's elapsed time is never cleared: the totals have exactly the sum, over the ends of all rounds, of the time elapsed by then |
| Rounds.ElapsedConservedOnlyIfIdle | bin/src/stats.rs:311 | totals' elapsed equals the elapsed reported if and only if everything before the last round took no time |
| Stats.StatsTracker.Update | bin/src/stats.rs:64-74 | records a matched response: latency if the clock allows, code, sizes, count |
| Stats.StatsTracker.Snapshot | bin/src/stats.rs:76-106 | the report for any increments in the three gaps, and exactly what is left in the atomics |
| Stats.StatsTracker.Reset | bin/src/stats.rs:53-62 | all but the histogram and the interval number return to their initial values |
| Stats.MergeInto | bin/src/stats.rs:216-218 | merging entry by entry in any order gives the pointwise sum |
| Stats.StatsInterval.Add | bin/src/stats.rs:188-222 | the whole new summary after one more interval |
| Stats.StatsInterval.Reset | bin/src/stats.rs:223-234 | clears all but duration, elapsed, interval and histogram |
| Stats.StatsInterval.Log | bin/src/stats.rs:236-268 | returns the summary and clears it, histogram included |
| Stats.StatsTotals.Update | bin/src/stats.rs:309-337 | the whole new totals after one more round, with the three running averages those of all rounds |
| Stats.StatsRunner.Run | bin/src/stats.rs:409-425 | summary and totals after any sequence of intervals |
| Pool.Store.ClearTimeouts | bin/src/store.rs:32-50 | the expired queries, each once, leave flight for the end of the queue and are counted |
| Pool.AtomicStore.Reset | bin/src/store.rs:60-63 | two separate stores: what comes between them survives in the first counter only |
| Generator.Sender.CollectBatch | bin/src/sender.rs:41-49 | pops up to num identifiers and keeps those not in flight, in order |
| Generator.Sender.SendNext | bin/src/sender.rs:50-71 | the next query is in flight with the clock reading and its own length, and its frame is on the wire |
| Generator.Sender.CountSent | bin/src/sender.rs:72-74 | the query just sent is counted |
| Generator.Generator.OnItem | bin/src/gen.rs:90-109 | the identifier in the first two bytes goes back whatever it is; a query waiting under it leaves flight and is recorded; every item is counted |
| Generator.Generator.MakeReport | bin/src/gen.rs:110-118 | the interval sent each second and at the end |
| Generator.Generator.Cleanup | bin/src/gen.rs:180-185 | one tick of the cleanup task |
| Generator.Generator.WaitInFlight | bin/src/gen.rs:150-168 | ends at the first turn that empties the store or finds the timeout over, within (timeout + start - base)/10ms + 2 turns, base being when the interval was made; each query leaving flight returned and counted once in any interleaving with cleanup; what stays is exactly what was younger than the timeout at the last clearing |
| Generator.OneInstantEmpties | bin/src/gen.rs:159-162 | when clearing and check read the same instant nothing sent before the wait is left |
| Generator.TwoReadingsLeave | bin/src/gen.rs:159-162 | a query sent as the wait begins survives it if and only if its age passes the timeout between the two readings |
| Frames.Decode | bin/src/msg.rs:55-75 | consumes exactly one frame if a whole one is there, and nothing otherwise |
| Frames.ParseMeaning | bin/src/msg.rs:55-75 | parsing yields these frames and this residue if and only if they are a cut of the stream into whole frames and an incomplete rest |
| Frames.ParseExtend | bin/src/msg.rs:55-75 | bytes arriving later only concern the residue |
| Frames.ReadChunks | bin/src/msg.rs:55-75 | decoding in any chunks gives the frames and the residue of the whole stream |
| Frames.TcpWriter.Send | bin/src/sender.rs:97-101 | appends the length, cut to 16 bits, and the message |
| Frames.RoundTrip | bin/src/sender.rs:97-101 | reading what was written gives back the messages and nothing else if and only if each has at most 65535 bytes |
| Frames.FramingInjective | bin/src/sender.rs:97-101 | different lists of such messages are written differently |
| Frames.OversizeMessageIsMisread | bin/src/sender.rs:99 | a message of 65536 bytes is read as an empty one and more |
| Frames.IdComesFirst | bin/src/msg.rs:31-33 | the identifier is the first two bytes, high byte first, whatever follows |
| Frames.CodeInFourthByte | bin/src/msg.rs:36-38 | the response code is the low half of the fourth byte, whatever surrounds it |
| Frames.LengthComesFirst | bin/src/msg.rs:61-63 | a frame is its length, high byte first, and the message; the reader takes the same two bytes for it |
| Frames.MaskIsRemainder | bin/src/msg.rs:36-38 | the mask for the response code is the remainder the model uses |
| MovingAverage.MovingAvg.Next | bin/src/util.rs:21-25 | the fields after one more sample |
| MovingAverage.TruncationBound | bin/src/util.rs:21-25 | n*val <= sum of the samples <= n*val + n(n-1)/2 |
| MovingAverage.TruncationBoundAttained | bin/src/util.rs:21-25 | the samples c, c+1, c+2, ... keep the average at c, so the bound is attained for every n |
| MovingAverage.AverageWithinRange | bin/src/util.rs:21-25 | the average stays between the smallest and largest sample |
| MovingAverage.WordStepExact | bin/src/util.rs:23 | a step in 64-bit words is exact if and only if its intermediate value fits |
| MovingAverage.NoOverflow | bin/src/util.rs:21-25 | with samples at most B and n*B inside the word, the wrapped and the exact averages agree |
| MovingAverage.MovingMean.Next | bin/src/util.rs:21-25 | the same step over the reals |
| MovingAverage.MeanIsExact | bin/src/util.rs:21-25 | over the reals the mean times its count is the exact sum |

## Left out

- Sockets, UDP and DoH transports, TLS, channels and task scheduling: library behaviour; a message on the
  statistics channel is only known to arrive, in any interleaving.
- The endless loops of the sender, the cleanup task and the event loop as single methods: each stretch
  between two awaits is a method, and how stretches interleave is the state machine's.
- Message generation (`bin/src/query.rs`): a query is its bytes; running out of them is the sender stopping.
- Rate limiting: the limiter only delays a step, and any step may be delayed.
- The shuffle: any order of the pool is taken.
- Rounding of 32-bit floats: milliseconds are exact reals.
- Overflow of counters and durations; `MovingAvg` is modelled in machine words as well.
- Early returns of `Generator::run` when the reader ends or the statistics channel closes.
- The sender's unsent batch after it stops stays in the state: the pool is not used again.
- Generator.Generator.WaitInFlight: only the cleanup task acts between the turns; a sender that has not
  stopped yet is in the state machine.
- Generator.Generator.OnItem: requires two bytes of a frame, and four of a matched one, because the source
  panics on less.
- The average size sent is not that of the messages sent: the source divides bytes of answered queries by
  queries sent, and `Rounds.SizesOfBlocks` says so.
- The number in flight in totals: a gauge that the source adds up, and so does the model.
- Logging, the printed layout, the percentage of time-outs, argument parsing, configuration, signals.
