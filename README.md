# rtcstats dump importer: quality report and connection verdict

This project models the two report generators of the rtcstats dump importer.
Both work on an already-imported WebRTC statistics dump.

- **Quality report** (`dump-importer/report.js`). For each peer connection it
  finds the most recent `getStats` event. It sorts that snapshot's records into
  inbound-rtp, outbound-rtp and data-channel buckets. It aggregates them into
  packet loss %, jitter mean (ms), outbound bitrate (kbps), frame drop %,
  retransmission % and a pause count, and scores them with five capped
  penalties, rounded and clamped at 0. The score is at most 100 unless packet
  loss is negative (a signed `packetsLost` total can make it so), in which
  case the loss penalty becomes a bonus. Then all connections are reduced into one overall record:
  bitrate and pauses are summed, the other four figures averaged. That record
  is scored too.
- **Connection verdict** (`dump-importer/main.js`). For each connection it
  collects the ICE/connection state changes with double quotes stripped. A
  connection passes when it reached `connected` or `completed` and never
  `failed`. The dump passes when every connection passes.

The dump comes in two shapes:
- the rtcstats event-log format, with `peerConnections` mapping an id to a list
  of events;
- the webrtc-internals format, with `PeerConnections` mapping an id to an
  update log and a statistics dictionary.

`Traces.Dump` tags which shape is present. `Traces.ConnectionTraces` is the
format switch that picks each connection's event list.

Modules, one per file:

| file | module | source |
|---|---|---|
| `wrappers.dfy` | `Wrappers` | `Option` (a value that may be absent) |
| `traces.dfy` | `Traces` | records, events, the two dump shapes, the format switch |
| `snapshot.dfy` | `Snapshot` | `findLastGetStats`, `computeMetricsFromSnapshot` |
| `metrics.dfy` | `Metrics` | `aggregate` |
| `score.dfy` | `Score` | `computeScore` |
| `quality_report.dfy` | `QualityReport` | the per-connection loop and the overall reduction |
| `verdict.dfy` | `Verdict` | the per-connection state loop and the PASS/FAIL fold |

The source's loops are modelled as `method`s with `while` loops. Each is proved
equal to a specification function over its input:
- `FindLastGetStats` is proved equal to `LastGetStats`;
- `Classify` to `Classified`;
- `SumInbound`, `SumOutbound` and `Aggregate` to `Aggregated`;
- `CombineMetrics` to `Combined`;
- `GenerateReport` to `ReportOf`;
- `ConnectionVerdict` to `States` and `Passes`;
- `TestReport` to `VerdictRows`.

The lemmas then state what those functions mean.

Some values in the source are JavaScript `typeof === 'number'` checks. They are
`Option<real>` fields of `Traces.StatsRecord`. `Math.round` is
`floor(x + 0.5)`. A snapshot's records appear in `Object.keys` order, as a
sequence.

The source's frame-drop percentage is guarded by the received-frames total
alone, not by the sum of received and dropped frames. The model follows the
source here. So a connection that received no frames and dropped some reports
0% frame drop (`QualityReport.AllFramesDroppedScenario`).

## Model

| member | source | states |
|---|---|---|
| Traces.ConnectionTraces | dump-importer/report.js:147-150 | For the event-log shape each connection's event list is its trace. For the internals shape it is its update log, with ids and order kept. With neither shape there are no connections. |
| Snapshot.LastGetStats | dump-importer/report.js:13-18 | The result, if any, is an event of the trace whose type is `getStats`. The result is absent if and only if no event of the trace has that type. |
| Snapshot.LastGetStatsIsLast | dump-importer/report.js:13-18 | The event found sits at an index of the trace after which no `getStats` event follows, so it is the most recent one. |
| Snapshot.FindLastGetStats | dump-importer/report.js:13-18 | The backward scan returns exactly `LastGetStats` of the trace, or nothing. |
| Snapshot.RecordsOf | dump-importer/report.js:21-21 | The records of a statistics payload, and none when there is no snapshot or its value is not a statistics map. |
| Snapshot.Classify | dump-importer/report.js:20-42 | The pushing loop fills the three buckets with exactly `Classified` of the snapshot's records. No snapshot, or a payload that is not a statistics map, counts as no records. |
| Snapshot.OfTypeAppend | dump-importer/report.js:27-40 | Bucketing distributes over concatenation, so records keep their snapshot order inside each bucket. |
| Snapshot.OfTypeCount | dump-importer/report.js:27-40 | A record occurs in a bucket as often as in the snapshot if its type is the bucket's type, and never otherwise. |
| Snapshot.ClassifiedPartition | dump-importer/report.js:29-39 | Classification partitions the three bucketed types. Every inbound-rtp, outbound-rtp and data-channel record lands in its own bucket with its multiplicity. Records of any other type land in none. |
| Snapshot.NoSnapshotEmptyBuckets | dump-importer/report.js:21-26 | A missing snapshot, or one whose value is not a statistics map, gives three empty buckets. |
| Metrics.SumInbound | dump-importer/report.js:61-74 | After the inbound pass, each running total is the sum of its field over the inbound records where that field is a number. The jitter count is the number of such records, and jitter is summed in ms. The pause counter and inbound track list cover every inbound record. |
| Metrics.SumOutbound | dump-importer/report.js:75-86 | The outbound pass sums sent, retransmitted and bytes-per-second over the numeric outbound records. It extends the pause counter and track list it is given and leaves the inbound totals unchanged. |
| Metrics.Aggregate | dump-importer/report.js:44-95 | The returned metrics equal `Aggregated` of the buckets. Each zero denominator is guarded to 0 as the source does, and frame drop is also 0 when received plus dropped is 0 (see Left out). |
| Metrics.TotalAppend | dump-importer/report.js:61-86 | Each running total and numeric count over concatenated records is the sum of the parts. |
| Metrics.JitterIsMean | dump-importer/report.js:61-88 | The jitter figure is 0 when no inbound record has numeric jitter. Otherwise it times the count equals the jitter total in ms: it is the mean jitter in ms. |
| Metrics.JitterBounds | dump-importer/report.js:61-88 | With at least one numeric jitter, the jitter figure lies between the smallest and largest jitter times 1000. |
| Metrics.PacketLossRange | dump-importer/report.js:89-90 | Packet loss is 0 when lost plus received is 0. It is between 0 and 100 when the counters are non-negative. |
| Metrics.FrameDropRange | dump-importer/report.js:91-91 | Frame drop is 0 whenever the received-frames total is 0, whatever was dropped. It is between 0 and 100 for non-negative counters. |
| Metrics.RetransmitRange | dump-importer/report.js:92-92 | Retransmission is 0 when nothing was sent and non-negative for non-negative counters. It is at most 100 when no more packets were retransmitted than sent. |
| Metrics.PauseCountBound | dump-importer/report.js:70-84 | The pause count is the per-record pauses (`active === false`, a limitation reason other than none) summed over inbound and outbound records. It is at most twice their number. |
| Metrics.TracksLayout | dump-importer/report.js:73-85 | There is one track per inbound record, then one per outbound record, each carrying its record's kind, mid and codec id and its direction. |
| Metrics.BitrateSums | dump-importer/report.js:78-93 | The bitrate is the kbps sum of the outbound records' own rates. Adding outbound records adds their rates. Records without the rate field add nothing. |
| Metrics.EmptyBucketsZero | dump-importer/report.js:45-53 | Empty buckets give all-zero figures and no tracks. |
| Score.Round | dump-importer/report.js:109-109 | `Math.round` gives the integer within half of its argument, with halves going up. |
| Score.ComputeScore | dump-importer/report.js:97-110 | The score is never negative. It is the raw penalised score rounded when that is non-negative, and 0 when it is negative. |
| Score.RoundMonotone | dump-importer/report.js:109-109 | Rounding is monotone. |
| Score.ScoreAtMost100 | dump-importer/report.js:97-110 | The score is at most 100 when packet loss is not negative. |
| Score.NegativeLossExceeds100 | dump-importer/report.js:100-109 | Only the bottom is clamped: -5% packet loss alone scores 110. |
| Score.PerfectScore | dump-importer/report.js:97-110 | No loss, jitter, drops, retransmissions or pauses give exactly 100. |
| Score.ScoreMonotone | dump-importer/report.js:97-110 | Worsening any of the five penalised figures never raises the score. |
| Score.HeavyLossScore | dump-importer/report.js:100-100 | 25% packet loss or more, with nothing else wrong, hits the 50-point cap: score 50. |
| Score.JitterScenario | dump-importer/report.js:102-102 | 50 ms of jitter alone costs (50 - 30) / 2 = 10 points: score 90. |
| QualityReport.Divisor | dump-importer/report.js:181-181 | The divisor of the averages is at least 1, even with no connections. |
| QualityReport.CombineMetrics | dump-importer/report.js:172-182 | The `reduce` followed by the division by n gives exactly `Combined` of all connection metrics. |
| QualityReport.SumFiguresAppend | dump-importer/report.js:172-180 | The field-wise sums over concatenated connection lists add. |
| QualityReport.OverallSums | dump-importer/report.js:172-183 | The overall bitrate and pause count are plain sums across connections. |
| QualityReport.OverallAverages | dump-importer/report.js:181-182 | Overall packet loss, jitter, frame drop and retransmission are the sum divided by the number of connections. Each lies between the smallest and largest per-connection value. |
| QualityReport.NoConnectionsOverall | dump-importer/report.js:172-184 | With no connections the overall record is all zeros and scores 100. |
| QualityReport.SingleConnectionOverall | dump-importer/report.js:172-182 | With one connection the overall record is that connection's figures. |
| QualityReport.PairCombined | dump-importer/report.js:172-182 | With two connections, the four averaged figures are halved sums, and bitrate and pause count add. |
| QualityReport.TwoConnectionsOverall | dump-importer/report.js:172-183 | Connections with 10% and 20% loss average to 15%, and their bitrates add. |
| QualityReport.OverallScoreIsNotMeanScore | dump-importer/report.js:184-184 | The overall score scores the combined record, not the mean score. 0% and 60% loss score 100 and 50, but overall 50. |
| QualityReport.ConnectionReport | dump-importer/report.js:149-155 | One connection's row has its id, the metrics of its last snapshot, and their score. |
| QualityReport.GenerateReport | dump-importer/report.js:147-184 | The report equals `ReportOf` the dump: one row per connection in order, the combined overall record and its score. There is no report when the importer holds no data. |
| QualityReport.RowsAt | dump-importer/report.js:147-156 | There is one row per connection, and row k is the row of connection k. |
| QualityReport.RowMetricsAt | dump-importer/report.js:156-156 | The metrics collected for the reduction are the rows' metrics, in row order. |
| QualityReport.ReportRows | dump-importer/report.js:147-172 | A report has one row per connection, in order, with its id, the metrics of its events and their score. The reduction receives exactly those metrics. |
| QualityReport.ReportOverallBetween | dump-importer/report.js:172-182 | A report's overall packet loss, jitter, frame drop and retransmission lie between the smallest and largest per-connection value. |
| QualityReport.NoSnapshotScoresPerfect | dump-importer/report.js:149-154 | A connection without any `getStats` event gets all-zero metrics and score 100. |
| QualityReport.InternalsIgnoresStatsDictionary | dump-importer/report.js:150-150 | In the internals shape only the update logs decide the report, never the statistics dictionaries. |
| QualityReport.LossAndJitterScenario | dump-importer/report.js:44-110 | One inbound record with 5 lost, 95 received and 10 ms of jitter gives 5% loss, 10 ms and score 90. |
| QualityReport.PauseScenario | dump-importer/report.js:83-108 | One outbound record that is inactive and limited by "cpu" counts two pauses and scores 96. |
| QualityReport.AllFramesDroppedScenario | dump-importer/report.js:91-91 | A record with dropped frames but no numeric received frames reports 0% frame drop. |
| Verdict.StateText | dump-importer/main.js:38-38 | A text value is kept as it is; a missing value or a statistics object gives a quote-free text that is none of connected, completed or failed. |
| Verdict.NonTextStateIsNeutral | dump-importer/main.js:38-44 | A state-change event without a text value never sets the connected, completed or failed flag. |
| Verdict.StripQuotes | dump-importer/main.js:38-38 | The stripped state text holds no double quote and is no longer than its input. |
| Verdict.StripQuotesRemovesQuotes | dump-importer/main.js:38-38 | Exactly the quotes are removed: every other character keeps its count, and the text is shorter by the number of quotes. |
| Verdict.StripQuotesQuoted | dump-importer/main.js:38-38 | A state wrapped in one pair of quotes comes out as the bare state. |
| Verdict.ConnectionVerdict | dump-importer/main.js:34-45 | The loop records exactly `States` of the trace. The connection passes if and only if a state is connected or completed and none is failed. |
| Verdict.TestReport | dump-importer/main.js:28-76 | There is one row per connection of the dump in order, each with its states and verdict. Overall passes if and only if every row passes. |
| Verdict.StripQuotesAppend | dump-importer/main.js:38-38 | Stripping quotes distributes over concatenation. |
| Verdict.StripQuotesUnquoted | dump-importer/main.js:38-38 | Text without quotes is left unchanged. |
| Verdict.StripQuotesIdempotent | dump-importer/main.js:38-38 | Stripping twice is stripping once. |
| Verdict.StatesAppend | dump-importer/main.js:36-44 | Recorded states over concatenated traces are concatenated, so they are kept in trace order. |
| Verdict.StatesMembership | dump-importer/main.js:36-44 | A state is recorded if and only if some state-change event of the format carries it once quotes are stripped. |
| Verdict.OtherEventsIgnored | dump-importer/main.js:37-37 | Inserting an event of any other type leaves the recorded states unchanged. |
| Verdict.VerdictOrderIndependent | dump-importer/main.js:35-45 | Rearranging a trace's events never changes its verdict. |
| Verdict.FailedForcesFail | dump-importer/main.js:42-45 | A single failed state change anywhere fails the connection. |
| Verdict.OneFailureFailsOverall | dump-importer/main.js:28-76 | A failed state change in any connection fails that connection's row, and so the overall verdict. |
| Verdict.NoConnectionsPass | dump-importer/main.js:28-30 | With no connections, or neither data shape, there are no rows, so overall is PASS. |

## Left out

- The DOM: tables, score bars, `toFixed(2)` formatting and the early return when the report element is missing.
- The file import handler in `dump-importer/main.js` (reading, gunzip, format detection, importer construction). It is asynchronous I/O. The detectors and importer classes are not part of this model. `Traces.Dump` is their tagged output.
- IEEE-754 floating point is modelled as exact reals, so rounding error, NaN and Infinity are not modelled. In particular, when the received-frames total is non-zero but received plus dropped is 0, JavaScript produces a non-finite frame drop. `Metrics.Aggregated` gives 0 there.
- JavaScript's dynamic typing: fields are either numbers or absent, state values are strings, absent, or a statistics object (which prints as `[object Object]`). Numeric strings, booleans and other values in those places are not modelled.
- A dump carrying both `peerConnections` and `PeerConnections`. The quality report then takes the event-log connections but reads each one's `updateLog`, which is undefined on an event list, so finding the last getStats event throws a TypeError and the report aborts whenever there is a connection. The connection verdict takes the event-log branch. `Traces.Dump` admits only one shape.
- The `bytesSent`/`timestamp` fallback branch of the outbound pass. It does nothing in the source.
- The `metrics.score` field written onto each connection's metrics. The overall reduction never reads it, and the score is kept in the row instead.
- `Object.keys` key ordering (integer-like keys first) is not modelled. Records and connections are sequences in the order the importer presents them.
