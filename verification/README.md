# Verified model of the benchmarking platform's measurement pipeline

The platform runs contestants' matching engines in a sandbox, drives them with a fleet of bots, and turns the answers
into scores. This project models the path a measurement takes and proves what the path keeps:

1. a bot's sender and receiver share a map of pending orders and turn each answer into at most one metric
   (`BotFleet`, whole runs in `BotRuns`, with the engine's messages in `Trading` and decimal ids in `Decimal`);
2. receivers push metrics into a lock-free ring buffer (`Telemetry.RingBuffer` as one goroutine sees it,
   `RingProtocol` with every load, compare-and-swap, slot store and slot copy as a step of its own);
3. the judge drains the ring into counts, percentiles and a score (`JudgeStats`);
4. `JudgeRun` puts 1 to 3 together: any number of bots, any interleaving, then the drain (`JudgeExample` shows that
   complete runs exist);
5. the ingester aggregates the same metrics per contestant and window (`Aggregation`, `Scoring`), flushes them in its
   collector loop (`Ingester`), and keeps a top-N leaderboard (`Leaderboard`, `SortedSets`, and
   `LeaderboardReads` for reads that run beside a flush);
6. the judge API queues submissions (`JudgeQueue`), and each run saves its result and uses one container (`Lifecycle`,
   with memory sizes in `Sizes`);
7. broker lists are parsed twice, by two parsers (`Csv`).

`Sequences` holds the facts about counting, permutations and slots that the others share.

## How things are modelled

- Concurrency is sequentially consistent interleaving. A run is a list of steps, each enabled when it is taken; results
  about runs hold for every such list, every number of bots and every choice of engine replies, draws and clock readings.
- Fields called history in a comment, and ghost fields, record what happened. No step reads them.
- Cursors are natural numbers; only the subtraction in the full test wraps at 2^64, as the code's uint64 does.
- float64 is `real`. The exponential and the histogram quantile are arbitrary functions; the exponential is assumed to be
  positive, monotone and 1 at 0 only where `ExpLike` says so. A histogram is the multiset of values handed to it.
- Redis and database commands succeed, and container removals succeed. The sorted set is a sequence in rank order; the
  theorems about it say which entries it holds and how they rank.
- sort.Slice is taken by its contract: it leaves the slice ascending.

## What was found

- A pop goes wrong when it overtakes a push that has won its ticket and not yet stored its metric.
  `RingProtocol.OvertakingLosesMetric` gives a run that loses a metric. `RingProtocol.CopyIsExact` says, under any
  interference, exactly when the first copy of an unwritten ticket goes wrong; `RingProtocol.DeliveredExactlyIfWritten`
  and `RingProtocol.DeliveredExactlyIfSound` give the exact condition for whole runs. It is enough that the tickets a pop
  covers are written when it loads `write` (`RingProtocol.PopsAreAcceptedInOrder`), though not necessary: a store may
  still come in time (`RingProtocol.StoreMayComeInTime`). In a judge run it always holds, because the drain starts after
  every bot has finished (`JudgeRun.SystemAlwaysOk`).
- The comment on `Push` says that false means full. `RingProtocol.RejectedThoughEmpty` gives a run in which it is
  returned on an empty ring; `RingProtocol.RejectionMeansFullOrStale` gives the exact condition, and while nothing has
  been popped false does mean full (`RingProtocol.FillingStep`).
- README.md line 111 of the repository says that correctness dominates the ranking. `JudgeStats.CorrectnessCanLose` shows
  that it need not, `JudgeStats.ScoreComparison` exactly when it does.
- The pending counter of the judge queue can be negative (`JudgeQueue.PendingCanBeNegative`);
  `JudgeQueue.QueueGuarantees` says exactly when.
- A size whose number fits an int64 but whose product does not is not an error; it wraps (`Sizes.ParsedPrinted`).
- The two broker-list parsers differ on blanks inside an item, on vertical tabs and form feeds around one, and on lists
  without items; `Csv.ParsersAgree` says exactly when they agree.
- A leaderboard read is two commands and a flush is not a transaction. A read may show a record newer than the score it
  was ranked by, and may miss one row if both its commands fall between the two commands that write it
  (`LeaderboardReads.ReadAcrossFlushes`, `LeaderboardReads.ReadWithinRow`).

## Model

| member | source | states |
|---|---|---|
| RingProtocol.SafeAlways | internal/telemetry/ringbuffer.go:43-77 | On every schedule read <= write <= read + size although Push tests stale values; exactly write pushes have won a ticket, each ticket has one owner, and a producer holding a ticket holds its own metric. |
| RingProtocol.SafeFromStart | internal/telemetry/ringbuffer.go:32-77 | The same from NewRingBuffer on, for any number of producers; the ring has the requested size, 1 for 0, throughout. |
| RingProtocol.TicketsDistinct | internal/telemetry/ringbuffer.go:50-51 | Two producers between winning a ticket and writing its slot hold different tickets. |
| RingProtocol.FailedSwapMeansProgress | internal/telemetry/ringbuffer.go:50 | A failed compare-and-swap retries with the same metric, and another producer has won the ticket since write was loaded. |
| RingProtocol.RejectionMeansFullOrStale | internal/telemetry/ringbuffer.go:45-49 | Push is turned away exactly if the ring was full when read was loaded or the loaded write had fallen below read so that the difference wrapped. |
| RingProtocol.RejectedThoughEmpty | internal/telemetry/ringbuffer.go:42-49 | A concrete run in which Push returns false on an empty ring. |
| RingProtocol.PopsAreAcceptedInOrder | internal/telemetry/ringbuffer.go:43-77 | If the tickets a pop covers are written when it loads write, the concatenation of all pops is the accepted metrics of tickets 0 to read, in order, none lost or repeated, even with pushes during the copy. |
| RingProtocol.CopyTakesSameSlot | internal/telemetry/ringbuffer.go:72-74 | On every schedule a copy of ticket t takes the metric of t or of a ticket whole laps before it, or the empty metric; never a later or a mixed one. |
| RingProtocol.DeliveredExactlyIfSound | internal/telemetry/ringbuffer.go:43-77 | On every schedule the metrics copied out are those accepted, in order, if and only if every copy takes what its own ticket, or one with an equal metric, stored last in the slot. |
| RingProtocol.CopyIsExact | internal/telemetry/ringbuffer.go:72-74 | As long as no unwritten ticket has been copied: whatever producers do meanwhile, a copy of ticket t delivers its metric if and only if t is written or the metric one lap before is equal. |
| RingProtocol.DeliveredExactlyIfWritten | internal/telemetry/ringbuffer.go:43-77 | If metrics differ from lap to lap, as those of different orders do: a run delivers if and only if no copy takes a ticket that is won but unwritten. |
| RingProtocol.WrittenRunDelivers | internal/telemetry/ringbuffer.go:43-77 | A run in which no copy takes an unwritten ticket delivers, pushes during the copies included. |
| RingProtocol.DeliveryFromStart | internal/telemetry/ringbuffer.go:32-77 | These guarantees from NewRingBuffer on. |
| RingProtocol.CopyNeverRacesWithStore | internal/telemetry/ringbuffer.go:51-74 | On such runs no producer can store into the slot the consumer is copying, so no metric is torn. |
| RingProtocol.UninterruptedPopIsExact | internal/telemetry/ringbuffer.go:59-77 | A pop nobody interrupts delivers exactly if each ticket it covers is written or repeats the metric a lap before. |
| RingProtocol.OvertakingLosesMetric | internal/telemetry/ringbuffer.go:50-74 | A concrete run in which the consumer passes a ticket that is won but unwritten and hands over an empty metric instead. |
| RingProtocol.StoreMayComeInTime | internal/telemetry/ringbuffer.go:50-74 | A concrete run that delivers although a ticket was unwritten when the pop loaded write. |
| RingProtocol.PopAlone | internal/telemetry/ringbuffer.go:59-77 | A pop with room for c that nobody interrupts, from its first load on, takes min(c, metrics held) slots, appends them and moves read past them. |
| RingProtocol.PopTakes | internal/telemetry/ringbuffer.go:59-77 | On every schedule a pop with room for c takes min(c, write as loaded - read as loaded) metrics and moves read by just as many. |
| RingProtocol.PopFindsNothing | internal/telemetry/ringbuffer.go:60-64 | On every schedule a pop that loads write equal to read takes nothing and changes nothing. |
| RingProtocol.PushAloneAppends | internal/telemetry/ringbuffer.go:43-55 | A push nobody interrupts on a ring with room appends its metric to what the ring holds, as the sequential Push does. |
| RingProtocol.PushAloneOnFullRing | internal/telemetry/ringbuffer.go:43-49 | A push nobody interrupts on a full ring is turned away and changes nothing else. |
| RingProtocol.ConservedStep | internal/telemetry/ringbuffer.go:43-55 | Every step keeps: metrics pushed = accepted + rejected + in flight, as multisets. |
| RingProtocol.FillingStep | internal/telemetry/ringbuffer.go:45-49 | While nothing has been popped, a push is turned away only by a full ring, which stays full. |
| RingProtocol.FilledCount | internal/telemetry/ringbuffer.go:43-55 | Once all producers are done, min(pushes, size) metrics are in; up to the size they are exactly those pushed. |
| Telemetry.RingBuffer.constructor | internal/telemetry/ringbuffer.go:32-40 | A new ring is empty and has the requested size, 1 for 0. |
| Telemetry.RingBuffer.Push | internal/telemetry/ringbuffer.go:43-55 | Appends the metric, or reports false and changes nothing if and only if the ring is full. |
| Telemetry.RingBuffer.PopInto | internal/telemetry/ringbuffer.go:59-77 | Moves the oldest metrics, as many as fit, into the front of dst, leaves the rest of dst and the later metrics alone. |
| Telemetry.Stats.AddLatency | internal/telemetry/stats.go:20-36 | Count, minimum, maximum and sum are those of everything added since the last reset. |
| Telemetry.Stats.AvgLatencyNs | internal/telemetry/stats.go:38-43 | The rounded mean of what was added, between the reported minimum and maximum; 0 after a reset. |
| Telemetry.RoundedMeanBounds | internal/telemetry/stats.go:42 | Rounding never takes a mean outside the extremes of its values. |
| Telemetry.RoundedMeanIsNearest | internal/telemetry/stats.go:42 | The rounded mean is a whole number nearest to the quotient, halves upwards. |
| BotFleet.OrderIdInjective | internal/botfleet/botfleet.go:97-302 | "bot-i-seq" determines the bot and the sequence number. |
| BotRuns.OrderIdReads | internal/botfleet/botfleet.go:97-302 | The parts of an order id read back as the bot's number, counted from 1, and the order's. |
| BotFleet.BuildOrder | internal/botfleet/botfleet.go:301-340 | A cancel probe is exactly an order for quantity 0 and exactly roll 9; market orders are exactly the rolls below 6 and carry no price; limit prices span 98 to 102; id, client and symbol are the bot's. |
| BotFleet.OrderMix | internal/botfleet/botfleet.go:299-339 | The order a bot's step uses meets that description, and nothing else does; limit prices are within 2% of 100. |
| BotRuns.OrderShares | internal/botfleet/botfleet.go:299-329 | Of the ten rolls six are market orders, three limit orders, one a cancel probe. |
| BotFleet.BotStepKeeps | internal/botfleet/botfleet.go:134-228 | Whatever the engine answers and however sends and replies interleave: each order id is in exactly one of pending, withdrawn and reported, is reported at most once, and each metric carries its own order's sent time, its answer's times and the verdict its kind calls for. |
| BotRuns.TickIssues | internal/botfleet/botfleet.go:205-216 | A ready sender can take any draw and clock reading; the order it issues is the drawn one, pending and sent at that time, and nothing else changes. |
| BotRuns.AnythingMayHappen | internal/botfleet/botfleet.go:142-203 | The engine may answer anything and the stream and the run may end at any time; what is pending then stays so, and the receiver goes on until the stream ends. |
| BotRuns.MetricOrigin | internal/botfleet/botfleet.go:134-228 | Over whole runs from a bot's start: every metric has the time of the very tick that issued its order and of the reply received for it, and is correct exactly if a probe was REJECTED or another order FILLED or PARTIALLY_FILLED. |
| BotRuns.UnaryIssues | internal/botfleet/botfleet.go:253-260 | A unary order is the drawn one and its metric has the times read around the call. |
| BotRuns.WithdrawnOrigin | internal/botfleet/botfleet.go:218-226 | A run withdraws at most its latest order, and only after a send has failed and the sender has closed. |
| BotFleet.FailedSendWithdraws | internal/botfleet/botfleet.go:218-226 | After a failed send the sender is closed and its order is pending no longer: withdrawn, unless its reply had been taken. |
| BotFleet.RepliesTaken | internal/botfleet/botfleet.go:142-187 | Over any list of replies, in any order and with repetitions: exactly the pending orders among their ids are recorded, once each, and no longer pending. |
| BotFleet.OrdersConserved | internal/botfleet/botfleet.go:134-228 | Orders inserted = metrics taken + still pending + withdrawn by a failed send. |
| BotFleet.ForeignReplyIgnored | internal/botfleet/botfleet.go:150-159 | A reply with an unknown id, an id already answered or another bot's id changes nothing. |
| BotFleet.UnaryKeeps | internal/botfleet/botfleet.go:246-293 | The unary fallback reports every order exactly once, a failed call as incorrect. |
| BotFleet.ReferenceVerdict | internal/botfleet/botfleet.go:161-169 | The reference engine's answer to any order a bot builds earns the verdict correct. |
| BotFleet.StreamIsFromReferenceEngine | cmd/mock_matcher_go/main.go:64-78 | Every response StreamOrders sends over requests a bot has issued is a reply of the reference engine in the sense of the end-to-end theorem. |
| Trading.StreamOrders | cmd/mock_matcher_go/main.go:64-78 | One answer per request, in order, each PlaceOrder's, up to the first turn that is cancelled or cannot be sent. |
| Trading.EngineAnswers | cmd/mock_matcher_go/main.go:33-61 | Complete orders are filled in full, limit orders at their own price and market orders at the drawn one; incomplete ones are rejected at no price. |
| JudgeStats.Percentiles | internal/judge/judge.go:382-395 | Each result is in the data, and the position pct percent of the way from the first to the last, counted in hundredths, is one of its own; 0 without data; ascending; the data left alone. |
| JudgeStats.PercentileIsNearestRank | internal/judge/judge.go:388-394 | A percentile v is in the data and 100 * (elements below v) <= (n-1)*pct < 100 * (elements not above v). |
| JudgeStats.PercentileIsOrderStatistic | internal/judge/judge.go:388-394 | A percentile is in the data, has at most k elements below it and at least k + 1 not above it, k the rank read. |
| JudgeStats.LatencyIsMeasured | internal/judge/judge.go:355-361 | A metric contributes a latency exactly if it was received no earlier than sent: the whole microseconds between its time stamps, at least 1. |
| JudgeStats.OrderStatisticUnique | internal/judge/judge.go:388-394 | That description determines the value. |
| JudgeStats.PercentilePermutation | internal/judge/judge.go:382-395 | A percentile does not depend on the order of the data. |
| JudgeStats.DominatedPercentile | internal/judge/judge.go:382-395 | Data no larger position by position has no larger percentiles, though each side is sorted on its own. |
| JudgeStats.DrainRingBuffer | internal/judge/judge.go:340-380 | Empties the ring; the report counts its metrics, its percentiles are latencies of some of them at the due rank by their own time stamps, its ratio is correct over all, its score a million times the ratio less p99. |
| JudgeStats.ReportDetermined | internal/judge/judge.go:340-380 | No two different reports fit the same metrics. |
| JudgeStats.DrainInBatches | internal/judge/judge.go:341-364 | The report is the same for every batch size. |
| JudgeStats.SummaryPermutation | internal/judge/judge.go:340-380 | The report depends only on the multiset of metrics. |
| JudgeStats.ScoreMonotone | internal/judge/judge.go:350-379 | Making latencies no larger and verdicts no worse never lowers the score. |
| JudgeStats.ScoreComparison | internal/judge/judge.go:366-379 | Of any two runs, of any lengths, the first scores more exactly when its p99 excess, times both lengths, is less than a million times its lead in correct answers weighted by the other's length. |
| JudgeStats.CorrectnessCanLose | internal/judge/judge.go:370-379 | A run with more correct answers can score less. |
| JudgeStats.AllCorrectScore | internal/judge/judge.go:370-379 | A run without a wrong verdict has ratio 1 and scores a million less p99. |
| JudgeRun.SystemAlwaysOk | internal/judge/judge.go:213-228 | On every interleaving of the fleet and the drain all parts keep their invariants, the ring delivers, nothing is popped before every bot is done, and the metrics offered to the ring are exactly those published. |
| JudgeRun.DrainIsComplete | internal/judge/judge.go:213-228 | The drain hands over every accepted metric in ticket order, min(published, size) of them, and exactly the published ones if they fit. |
| JudgeRun.CountIsPublishedUpToCapacity | internal/judge/judge.go:213-236 | The reported count is min(metrics published, capacity). |
| JudgeRun.ScheduleIndependence | internal/judge/judge.go:213-242 | Two complete runs that published the same metrics are reported identically, whatever the schedules, if the metrics fit the ring. |
| JudgeRun.AcceptedDetermineReport | internal/judge/judge.go:340-380 | If they do not fit, the report still depends only on which metrics were accepted. |
| JudgeRun.SequentialDrainAgrees | internal/judge/judge.go:227-228 | When the drain starts, the sequential ring over the same slots holds exactly the accepted metrics. |
| JudgeRun.OneMetricPerOrder | internal/botfleet/botfleet.go:93-192 | Across the whole fleet the drained metrics report pairwise different orders, each published by a bot. |
| JudgeRun.DrainedMetricMeasuresOrder | internal/botfleet/botfleet.go:150-228 | Every drained metric of a complete run is traced to the bot, to the step at which it issued the order and to the step at which it received the answer, with the times and verdict due to them. |
| JudgeRun.RunIsReported | internal/judge/judge.go:213-242 | At the end of a complete run the report is about min(published, 500000) metrics, and exactly the published ones if these are not more. |
| JudgeRun.ReferenceEngineScoresFullMarks | cmd/mock_matcher_go/main.go:32-78 | Behind the reference engine every non-empty drain of stream bots has ratio 1 and scores a million less p99, for any draws, timing and interleaving. |
| JudgeExample.CompleteHonestRunExists | internal/judge/judge.go:213-228 | Such runs exist: one bot, one order, one answer, one metric drained. |
| Scoring.ScoreBounds | internal/ingest/aggregator.go:49-59 | The live score lies between 0 and 100. |
| Scoring.ScoreMonotone | internal/ingest/aggregator.go:49-59 | It never falls when percentiles fall or ratio or throughput rise. |
| Scoring.ScoreWeights | internal/ingest/aggregator.go:42-58 | Latency, throughput and correctness count four, three and three tenths. |
| Scoring.CorrectnessShape | internal/ingest/aggregator.go:55-56 | Halving the ratio divides its score by 16; all correct is worth 100. |
| Scoring.ThroughputShape | internal/ingest/aggregator.go:53 | Throughput counts in proportion up to its target and 100 from there on. |
| Scoring.LatencyShape | internal/ingest/aggregator.go:50-51 | The trade-offs between p50, p90 and p99, no cost up to the target latency and the exponential cost beyond it. |
| Aggregation.Aggregator.constructor | internal/ingest/aggregator.go:114-127 | A new aggregator has nothing added and the given window. |
| Aggregation.Aggregator.Add | internal/ingest/aggregator.go:140-166 | Records one sample, "" as "unknown" and 0 as 1, and keeps the six maps equal to what the samples since the last flush give. |
| Aggregation.TracksMore | internal/ingest/aggregator.go:151-165 | The running totals of a contestant stay those of its samples, the zero-sentinel minimum included. |
| Aggregation.Aggregator.FlushAndReset | internal/ingest/aggregator.go:168-235 | Returns exactly the group-by of the samples since the last flush, one window per contestant, and forgets them. |
| Aggregation.SubScores | internal/ingest/aggregator.go:195-200 | The score and sub-scores computed in line are those of ComputeScore. |
| Aggregation.WindowBounds | internal/ingest/aggregator.go:186-187 | In every window min <= average <= max, correct <= count and the ratio is in [0, 1]. |
| Aggregation.WindowRate | internal/ingest/aggregator.go:193 | The rate times the window's seconds is the count. |
| Aggregation.WindowRatio | internal/ingest/aggregator.go:186 | The ratio times the count is the correct count. |
| Aggregation.WindowScoresAddUp | internal/ingest/aggregator.go:195-221 | The score is four, three and three tenths of the sub-scores shown beside it. |
| Aggregation.WindowStamps | internal/ingest/aggregator.go:187-205 | A window is stamped with the whole seconds of its start and end; its average is the nearest whole number. |
| Aggregation.WindowPercentilesOrdered | internal/ingest/aggregator.go:189-191 | p50 <= p90 <= p99 if a higher quantile of a histogram is never lower. |
| Aggregation.WindowScoreBounds | internal/ingest/aggregator.go:186-200 | The score of every flushed window lies between 0 and 100. |
| Aggregation.CountsSumToBatch | internal/ingest/aggregator.go:177-221 | The counts of a flush add up to the number of samples it covers. |
| Ingester.Collector.Collect | cmd/telemetry_ingester/main.go:177-190 | Takes one record: aggregates its latency, at least 1, and appends it to the batch beside its offset. |
| Ingester.Collector.CommitAndFlush | cmd/telemetry_ingester/main.go:167-246 | Flushes the batch once: the windows of the closing time window, which are its group-by, to the leaderboard, the raw records beside them; then an empty batch and a new time window start. |
| Ingester.Collector.OnMessage | cmd/telemetry_ingester/main.go:177-201 | Fewer than 200000 records are pending at the loop head; a message is added to them, or flushed with them if it is the 200000th. |
| Ingester.Collector.Handle | cmd/telemetry_ingester/main.go:154-204 | A tick and a shutdown flush whatever is pending, a message only a full batch; every collected offset is committed once, in order. |
| Ingester.Collector.Run | cmd/telemetry_ingester/main.go:154-204 | Over any events every collected record is in at most one flush, in order, and in exactly one after a shutdown; there is a flush for each tick, shutdown and full batch and no other. |
| Ingester.Collector.EveryRecordCounted | internal/ingest/aggregator.go:154-157 | Per contestant, the counts of all flushes plus the live count are the records collected that bear its id, for "unknown" also those that bear none; likewise the correct ones. |
| Ingester.WindowsDescribeBatch | cmd/telemetry_ingester/main.go:181-189 | Every flushed window counts its contestant's records of the batch and the correct ones, and its minimum and maximum are those of the records' own time stamps. |
| Ingester.RecordHasWindow | cmd/telemetry_ingester/main.go:189-218 | Every record of a batch is in the window of its contestant. |
| Ingester.FlushOverrides | cmd/telemetry_ingester/main.go:218-224 | A flush overrides the scores of exactly the contestants with records in its batch. |
| SortedSets.ZAddCorrect | cmd/telemetry_ingester/main.go:221 | Setting a score replaces the member's entry and keeps the ranking by score and member. |
| SortedSets.DropLowestIsTop | cmd/telemetry_ingester/main.go:230-235 | Removing the lowest ranks leaves the top: each member dropped scores less than each kept, or as much with its member first. |
| Leaderboard.MergedMembers | cmd/telemetry_ingester/main.go:220-224 | After the pipeline the set holds the new scores and, of the old, those without a new one. |
| Leaderboard.MergedCoherent | cmd/telemetry_ingester/main.go:220-224 | Every ranked member has its own detail record with the score it is ranked by. |
| Leaderboard.WrittenDetail | cmd/telemetry_ingester/main.go:222 | A flushed window becomes its contestant's detail record. |
| Leaderboard.UnwrittenDetail | cmd/telemetry_ingester/main.go:222 | Other contestants keep theirs. |
| Leaderboard.FlushKeepsBest | cmd/telemetry_ingester/main.go:217-236 | Whoever stands on the board after a flush has its new score or kept the old one; whoever is dropped scores less than everyone kept, or as much and comes first; nobody is dropped while there is room. |
| Leaderboard.Board.Flush | cmd/telemetry_ingester/main.go:217-236 | The set becomes the topN best scores of old overridden by new, and stays in agreement with the detail records. |
| Leaderboard.Board.Read | cmd/leaderboard_api/main.go:94-121 | With no flush between its two commands: min(limit, members) rows of different contestants, none skipped, scores descending and equal scores by descending member, each the detail record of its member. |
| LeaderboardReads.AlwaysNearlyCoherent | cmd/telemetry_ingester/main.go:219-235 | After every single command of the flushes the set is ranked, and every member but that of a half-written row has its own record with its score. |
| LeaderboardReads.ReadAcrossFlushes | cmd/leaderboard_api/main.go:94-121 | With any commands of flushes between its two: one row per best member of the first moment, in that order, with the record ranked or a newer one, none skipped unless both fall inside one row. |
| LeaderboardReads.ReadWithinRow | cmd/leaderboard_api/main.go:94-121 | In that case exactly one row is missing, and only if the half-written row is its contestant's first and within the limit. |
| LeaderboardReads.PipelineIsWrite | cmd/telemetry_ingester/main.go:219-227 | The commands of a flush, one at a time, do what `Board.Write` does at once. |
| LeaderboardReads.CommandsAreFlush | cmd/telemetry_ingester/main.go:217-236 | With the trim that follows them they leave what `Board.Flush` leaves. |
| Leaderboard.ReadIsDescending | cmd/leaderboard_api/main.go:94-121 | Rows read by rank have descending scores, equal scores by descending member. |
| Leaderboard.LexByFirstDifference | cmd/telemetry_ingester/main.go:221 | Members compare as strings: the first difference decides. |
| Leaderboard.RequestedLimit | cmd/leaderboard_api/main.go:87-92 | The limit is between 1 and 1000, and is 50 or the number the query spells. |
| Leaderboard.RequestedLimitOfNumeral | cmd/leaderboard_api/main.go:87-92 | Every number from 1 to 1000 is honoured, however written; any other number gives 50. |
| JudgeQueue.QueueAlwaysOk | cmd/judge_api/main.go:264-296 | Over every interleaving of handlers and worker: pending = queue length + decrement outstanding - increments outstanding, at most 20 are queued, running is 1 exactly during a run, and started + queued = enqueued in order. |
| JudgeQueue.QueueGuarantees | cmd/judge_api/main.go:264-296 | At most one submission runs; those judged are a prefix of those enqueued; pending is negative exactly when the outstanding increments outnumber the queue and the outstanding decrement. |
| JudgeQueue.AdmittedUpToTwenty | cmd/judge_api/main.go:265-271 | After any run a handler's submission is enqueued if fewer than 20 wait and turned away if 20 do; those enqueued are the ones handlers put in, in order. |
| JudgeQueue.WorkerTakesOldest | cmd/judge_api/main.go:285-295 | A waiting worker can take the oldest submission through and then waits again, with pending one lower and running as before. |
| JudgeQueue.QuiescentPending | cmd/judge_api/main.go:265-286 | With nothing outstanding pending is the queue length, between 0 and 20. |
| JudgeQueue.PendingCanBeNegative | cmd/judge_api/main.go:266-286 | A concrete run in which pending is -1. |
| Lifecycle.Judge.Run | internal/judge/judge.go:131-247 | Saves RUNNING first and the returned terminal result last; the run ends at the first step that fails, with its error, or completes with the report of its metrics; a container that starts is stopped and removed after the result is saved. |
| Lifecycle.Judge.RunSandbox | internal/sandbox/docker.go:92-188 | Creates and starts one container, and removes it again if it does not start; the first failure is the outcome. |
| Lifecycle.FleetStats | internal/judge/judge.go:213-228 | The judge's report is about the first 500000 metrics that reach the ring. |
| Lifecycle.AtMostOneLive | internal/judge/judge.go:173-185 | In a trace without a clash at most one container is live at any time. |
| Lifecycle.JudgeAll | cmd/judge_api/main.go:280-296 | Every submission is run once, in order, to the end due to it; no container is live between runs and every one created is removed. |
| Sizes.ParseBytes | internal/sandbox/docker.go:282-308 | Accepts exactly an optional sign, digits and an optional k, m or g whose number fits int64, giving number times unit modulo 2^64; each error tells exactly its kind of text. |
| Sizes.ParsedPrinted | internal/sandbox/docker.go:282-308 | A printed number with a unit, in either case and with blanks around it, reads back as number times unit exactly when that is below 2^63; it is an error exactly when the number alone does not fit. |
| Sizes.UnitsNest | internal/sandbox/docker.go:290-299 | 1024 of a unit are one of the next. |
| Sizes.WrapIsCongruent | internal/sandbox/docker.go:307 | The result is the int64 congruent to the product modulo 2^64. |
| Decimal.ValueOfPrint | internal/sandbox/docker.go:303 | Reading a printed number gives the number back. |
| Decimal.PrintIsShortest | internal/botfleet/botfleet.go:302 | A number below 10^k prints in at most k digits, without leading zeros. |
| Csv.SplitCSV | cmd/telemetry_ingester/main.go:256-280 | The comma-separated fields without blanks, the empty ones dropped, or the default broker if none is left. |
| Csv.SplitJoin | cmd/telemetry_ingester/main.go:256-280 | Splitting undoes joining, for every non-empty list of non-empty items without commas and blanks. |
| Csv.SplitItemsArePlain | cmd/telemetry_ingester/main.go:256-280 | The result is never empty and no item is empty or holds a comma, space, tab, line feed or carriage return. |
| Csv.SplitOfNothing | cmd/telemetry_ingester/main.go:276-278 | Text of these characters alone stands for localhost:9092. |
| Csv.BrokersFromCSV | internal/kafka/producer.go:40-50 | The comma-separated fields trimmed, the empty ones dropped. |
| Csv.ParsersAgree | internal/kafka/producer.go:40-50 | On every text the two parsers agree if and only if it has an item, the white space at the edges of items is space, tab, LF or CR, and none of these is inside an item. |

## Left out

- HTTP routing, CORS, server-sent events, JSON, flags and signals: plumbing around the modelled operations.
- gRPC dialing, the readiness and validation probes, Docker calls beyond create, start, stop and remove: foreign calls
  whose outcomes are inputs.
- The Kafka client, TimescaleDB queries and HdrHistogram internals: unseen libraries. Publishing a bot's metric to Kafka
  and a contestant's id to subscribers changes nothing the model follows.
- internal/registry, the admin endpoints, the Python matcher, the frontend and the deployment files: thin wrappers and
  configuration without state of their own.
- BotFleet.BotStepKeeps: the pending map is a value inside a protocol state, not an object updated in place, because
  sender and receiver update it concurrently; each locked section is one step.
- Telemetry.RingBuffer.Push: has no retry loop, because one goroutine's compare-and-swap succeeds at once; the loop is in
  `RingProtocol`.
- RingProtocol.SafeAlways: cursors do not wrap at 2^64, which a ring would reach after that many pushes.
- Aggregation.Aggregator.Add: counters and latency sums are unbounded, where the code's uint64 would wrap at 2^64.
- JudgeStats.Percentiles: the rank is computed in integers; float64 gives the same index at realistic sizes.
- Ingester.Collector.Run: offsets are committed before the flush, so a crash between the two loses records; crashes are
  not modelled, and nothing here claims that every Kafka record is ingested.
- Leaderboard.Board.Read: one ingester and no failing command. A record that does not decode, which the code skips, does
  not occur, because only flushes write records.
- Scoring.ScoreBounds: a throughput target of 0 gives the full throughput score, as +Inf does in the code. A target of
  negative zero, and no throughput against a target of 0, which is NaN there, are not modelled; every window that is
  flushed counts a sample.
- Csv.SplitCSV: bytes outside ASCII, which the code re-encodes one by one, are not modelled.
- Sizes.ParseBytes: lower-casing and trimming cover ASCII only, not Unicode letters and spaces.
