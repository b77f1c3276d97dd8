/**
 * The quality-report driver (report.js `generateReport` without its DOM):
 * per connection, find the last getStats snapshot, classify, aggregate and
 * score; then combine all connections into one overall record and score it.
 */
module QualityReport {
  import opened Wrappers
  import opened Traces
  import opened Snapshot
  import opened Metrics
  import opened Score

  // ---------------------------------------------------------------------------
  // The overall reduction

  function AddFigures(acc: Figures, m: Figures): Figures {
    Figures(acc.packetLossPct + m.packetLossPct, acc.jitterMsAvg + m.jitterMsAvg,
            acc.bitrateKbps + m.bitrateKbps, acc.frameDropPct + m.frameDropPct,
            acc.retransmitPct + m.retransmitPct, acc.pauseCount + m.pauseCount)
  }

  /** Field-wise sums over the connections, as the `reduce` accumulates them. */
  function SumFigures(ms: seq<ConnectionMetrics>): Figures
    decreases |ms|
  {
    if ms == [] then ZeroFigures else AddFigures(SumFigures(ms[..|ms| - 1]), ms[|ms| - 1].figures)
  }

  /** Divisor of the averages: the number of connections, or 1 when there are none. */
  function Divisor(ms: seq<ConnectionMetrics>): (n: real)
    ensures n >= 1.0
  {
    if |ms| == 0 then 1.0 else |ms| as real
  }

  /** The combined record: bitrate and pause count summed, the other four averaged. */
  function Combined(ms: seq<ConnectionMetrics>): Figures {
    var s := SumFigures(ms);
    var n := Divisor(ms);
    Figures(s.packetLossPct / n, s.jitterMsAvg / n, s.bitrateKbps, s.frameDropPct / n,
            s.retransmitPct / n, s.pauseCount)
  }

  /** The `reduce` over all connection metrics followed by the in-place division by `n`. */
  method CombineMetrics(ms: seq<ConnectionMetrics>) returns (overall: Figures)
    ensures overall == Combined(ms)
  {
    var acc := ZeroFigures;
    var i := 0;
    while i < |ms|
      invariant 0 <= i <= |ms|
      invariant acc == SumFigures(ms[..i])
    {
      assert ms[..i + 1][..i] == ms[..i];
      acc := AddFigures(acc, ms[i].figures);
      i := i + 1;
    }
    assert ms[..|ms|] == ms;
    var n := if |ms| == 0 then 1.0 else |ms| as real;
    overall := acc.(packetLossPct := acc.packetLossPct / n, jitterMsAvg := acc.jitterMsAvg / n,
                    frameDropPct := acc.frameDropPct / n, retransmitPct := acc.retransmitPct / n);
  }

  /** The four averaged figures, for stating properties of all of them at once. */
  datatype Averaged = PacketLoss | JitterAvg | FrameDrop | Retransmit

  function Pick(f: Figures, a: Averaged): real {
    match a
    case PacketLoss => f.packetLossPct
    case JitterAvg => f.jitterMsAvg
    case FrameDrop => f.frameDropPct
    case Retransmit => f.retransmitPct
  }

  lemma {:induction false} SumFiguresAppend(a: seq<ConnectionMetrics>, b: seq<ConnectionMetrics>)
    ensures SumFigures(a + b) == AddFigures(SumFigures(a), SumFigures(b))
    decreases |b|
  {
    if b == [] {
      assert a + b == a;
      assert SumFigures(b) == ZeroFigures;
      assert AddFigures(SumFigures(a), ZeroFigures) == SumFigures(a);
    } else {
      var b' := b[..|b| - 1];
      var x := b[|b| - 1].figures;
      assert (a + b)[..|a + b| - 1] == a + b';
      assert (a + b)[|a + b| - 1].figures == x;
      SumFiguresAppend(a, b');
      var sa, sb', sab' := SumFigures(a), SumFigures(b'), SumFigures(a + b');
      assert sab' == AddFigures(sa, sb');
      calc {
        SumFigures(a + b);
        AddFigures(sab', x);
        AddFigures(AddFigures(sa, sb'), x);
        { AddFiguresAssociative(sa, sb', x); }
        AddFigures(sa, AddFigures(sb', x));
        AddFigures(sa, SumFigures(b));
      }
    }
  }

  lemma AddFiguresAssociative(p: Figures, q: Figures, r: Figures)
    ensures AddFigures(AddFigures(p, q), r) == AddFigures(p, AddFigures(q, r))
  {
  }

  /**
   * Bitrate and pause count are plain sums: combining two groups of connections
   * adds their combined bitrates and pause counts.
   */
  lemma OverallSums(a: seq<ConnectionMetrics>, b: seq<ConnectionMetrics>)
    ensures Combined(a + b).bitrateKbps == Combined(a).bitrateKbps + Combined(b).bitrateKbps
    ensures Combined(a + b).pauseCount == Combined(a).pauseCount + Combined(b).pauseCount
  {
    SumFiguresAppend(a, b);
  }

  lemma {:induction false} SumBetween(ms: seq<ConnectionMetrics>, a: Averaged, lo: real, hi: real)
    requires forall k :: 0 <= k < |ms| ==> lo <= Pick(ms[k].figures, a) <= hi
    ensures Scaled(lo, |ms|) <= Pick(SumFigures(ms), a) <= Scaled(hi, |ms|)
    decreases |ms|
  {
    if ms != [] {
      SumBetween(ms[..|ms| - 1], a, lo, hi);
    }
  }

  /**
   * Packet loss, jitter, frame drop and retransmission are averages over the
   * connections: the sum divided by the connection count, so between the
   * smallest and largest per-connection value.
   */
  lemma OverallAverages(ms: seq<ConnectionMetrics>, a: Averaged, lo: real, hi: real)
    requires |ms| > 0
    requires forall k :: 0 <= k < |ms| ==> lo <= Pick(ms[k].figures, a) <= hi
    ensures Pick(Combined(ms), a) == Pick(SumFigures(ms), a) / |ms| as real
    ensures lo <= Pick(Combined(ms), a) <= hi
  {
    var s, avg := Pick(SumFigures(ms), a), Pick(Combined(ms), a);
    assert avg == s / |ms| as real by {
      PickCombined(ms, a);
    }
    SumBetween(ms, a, lo, hi);
    AverageBounds(s, |ms|, lo, hi);
  }

  lemma PickCombined(ms: seq<ConnectionMetrics>, a: Averaged)
    ensures Pick(Combined(ms), a) == Pick(SumFigures(ms), a) / Divisor(ms)
    ensures |ms| > 0 ==> Divisor(ms) == |ms| as real
  {
  }

  /** A sum of `n` values in [lo, hi], divided by `n`, lies in [lo, hi]. */
  lemma AverageBounds(s: real, n: nat, lo: real, hi: real)
    requires n > 0 && Scaled(lo, n) <= s <= Scaled(hi, n)
    ensures lo <= s / n as real <= hi
  {
    ScaledIsProduct(lo, n);
    ScaledIsProduct(hi, n);
    MulCancel(lo, s / n as real, n as real);
    MulCancel(s / n as real, hi, n as real);
  }

  /** With no connections the overall record is all zeros (divided by 1) and scores 100. */
  lemma NoConnectionsOverall()
    ensures Combined([]) == ZeroFigures
    ensures ComputeScore(Combined([])) == 100
  {
    PerfectScore(ZeroFigures);
  }

  /** A single connection's overall record is its own figures. */
  lemma SingleConnectionOverall(m: ConnectionMetrics)
    ensures Combined([m]) == m.figures
  {
    SumFiguresSingle(m);
  }

  lemma SumFiguresSingle(m: ConnectionMetrics)
    ensures SumFigures([m]) == m.figures
  {
    assert [m][..0] == [];
    assert SumFigures([m]) == AddFigures(SumFigures([]), m.figures);
  }

  lemma SumFiguresPair(m1: ConnectionMetrics, m2: ConnectionMetrics)
    ensures SumFigures([m1, m2]) == AddFigures(m1.figures, m2.figures)
  {
    assert [m1, m2][..1] == [m1];
    SumFiguresSingle(m1);
    assert SumFigures([m1, m2]) == AddFigures(SumFigures([m1]), m2.figures);
  }

  /** Two connections: the four averaged figures are halved sums, bitrate and pauses add. */
  lemma PairCombined(m1: ConnectionMetrics, m2: ConnectionMetrics)
    ensures var f1, f2 := m1.figures, m2.figures;
      Combined([m1, m2]) == Figures(
        (f1.packetLossPct + f2.packetLossPct) / 2.0, (f1.jitterMsAvg + f2.jitterMsAvg) / 2.0,
        f1.bitrateKbps + f2.bitrateKbps, (f1.frameDropPct + f2.frameDropPct) / 2.0,
        (f1.retransmitPct + f2.retransmitPct) / 2.0, f1.pauseCount + f2.pauseCount)
  {
    SumFiguresPair(m1, m2);
    assert Divisor([m1, m2]) == 2.0;
  }

  /** Two connections with 10% and 20% packet loss average to 15%; their bitrates add. */
  lemma TwoConnectionsOverall(m1: ConnectionMetrics, m2: ConnectionMetrics)
    requires m1.figures.packetLossPct == 10.0 && m2.figures.packetLossPct == 20.0
    ensures Combined([m1, m2]).packetLossPct == 15.0
    ensures Combined([m1, m2]).bitrateKbps == m1.figures.bitrateKbps + m2.figures.bitrateKbps
  {
    PairCombined(m1, m2);
  }

  /**
   * The overall score scores the combined record, not the mean of the
   * per-connection scores: 0% and 60% loss score 100 and 50 (mean 75), while
   * their 30% average loss scores 50.
   */
  lemma OverallScoreIsNotMeanScore(m1: ConnectionMetrics, m2: ConnectionMetrics)
    requires m1.figures == Figures(0.0, 0.0, 0.0, 0.0, 0.0, 0)
    requires m2.figures == Figures(60.0, 0.0, 0.0, 0.0, 0.0, 0)
    ensures ComputeScore(m1.figures) == 100 && ComputeScore(m2.figures) == 50
    ensures ComputeScore(Combined([m1, m2])) == 50
  {
    PairCombined(m1, m2);
    PerfectScore(m1.figures);
    HeavyLossScore(m2.figures);
    HeavyLossScore(Combined([m1, m2]));
  }

  // ---------------------------------------------------------------------------
  // The per-connection pipeline and the whole report

  /** The metrics of one connection's event list: last snapshot, classified, aggregated. */
  function MetricsOf(trace: seq<TraceEvent>): ConnectionMetrics {
    Aggregated(Classified(RecordsOf(LastGetStats(trace))))
  }

  datatype ConnectionRow = ConnectionRow(id: string, metrics: ConnectionMetrics, score: int)

  datatype Report = Report(rows: seq<ConnectionRow>, overall: Figures, overallScore: int)

  function RowOf(c: (string, seq<TraceEvent>)): ConnectionRow {
    var m := MetricsOf(c.1);
    ConnectionRow(c.0, m, ComputeScore(m.figures))
  }

  /** One row per connection, in connection order. */
  function Rows(cs: seq<(string, seq<TraceEvent>)>): (rows: seq<ConnectionRow>) {
    Mapped(cs, RowOf)
  }

  /** `f` applied to each element, in order. */
  function Mapped<A, B>(xs: seq<A>, f: A -> B): seq<B>
    decreases |xs|
  {
    if xs == [] then [] else Mapped(xs[..|xs| - 1], f) + [f(xs[|xs| - 1])]
  }

  lemma {:induction false} MappedAt<A, B>(xs: seq<A>, f: A -> B)
    ensures |Mapped(xs, f)| == |xs|
    ensures forall k :: 0 <= k < |xs| ==> Mapped(xs, f)[k] == f(xs[k])
    decreases |xs|
  {
    if xs != [] {
      var p := xs[..|xs| - 1];
      MappedAt(p, f);
      forall k | 0 <= k < |p|
        ensures Mapped(xs, f)[k] == f(xs[k])
      {
        assert xs[k] == p[k];
      }
    }
  }

  function RowMetrics(rows: seq<ConnectionRow>): seq<ConnectionMetrics>
    decreases |rows|
  {
    if rows == [] then [] else RowMetrics(rows[..|rows| - 1]) + [rows[|rows| - 1].metrics]
  }

  lemma RowsStep(cs: seq<(string, seq<TraceEvent>)>, i: nat)
    requires i < |cs|
    ensures Rows(cs[..i + 1]) == Rows(cs[..i]) + [RowOf((cs[i].0, cs[i].1))]
  {
    assert cs[..i + 1][..i] == cs[..i];
  }

  lemma RowMetricsAppend(rows: seq<ConnectionRow>, row: ConnectionRow)
    ensures RowMetrics(rows + [row]) == RowMetrics(rows) + [row.metrics]
  {
    assert (rows + [row])[..|rows|] == rows;
  }

  /** The report of a dump; there is none when the importer holds no data. */
  function ReportOf(d: Dump): Option<Report> {
    if d.NoData? then None
    else
      var rows := Rows(ConnectionTraces(d));
      var overall := Combined(RowMetrics(rows));
      Some(Report(rows, overall, ComputeScore(overall)))
  }

  /** The body of the per-connection loop: snapshot, buckets, metrics, score. */
  method ConnectionReport(id: string, traceEvents: seq<TraceEvent>) returns (row: ConnectionRow)
    ensures row == RowOf((id, traceEvents))
  {
    var snapshot := FindLastGetStats(traceEvents);
    var metricsRaw := Classify(snapshot);
    var metrics := Aggregate(metricsRaw);
    var score := ComputeScore(metrics.figures);
    row := ConnectionRow(id, metrics, score);
  }

  /** Runs the pipeline over every connection in order, then the overall reduction. */
  method GenerateReport(d: Dump) returns (report: Option<Report>)
    ensures report == ReportOf(d)
  {
    if d.NoData? {
      return None;
    }
    var connections := ConnectionTraces(d);
    var rows: seq<ConnectionRow> := [];
    var allConnectionMetrics: seq<ConnectionMetrics> := [];
    var i := 0;
    while i < |connections|
      invariant 0 <= i <= |connections|
      invariant rows == Rows(connections[..i])
      invariant allConnectionMetrics == RowMetrics(rows)
    {
      var row := ConnectionReport(connections[i].0, connections[i].1);
      RowsStep(connections, i);
      RowMetricsAppend(rows, row);
      rows := rows + [row];
      allConnectionMetrics := allConnectionMetrics + [row.metrics];
      i := i + 1;
    }
    assert connections[..|connections|] == connections;
    var overall := CombineMetrics(allConnectionMetrics);
    report := Some(Report(rows, overall, ComputeScore(overall)));
  }

  /** Row `k` is the row of connection `k`: one row per connection, in connection order. */
  lemma RowsAt(cs: seq<(string, seq<TraceEvent>)>)
    ensures |Rows(cs)| == |cs|
    ensures forall k :: 0 <= k < |cs| ==> Rows(cs)[k] == RowOf(cs[k])
  {
    MappedAt(cs, RowOf);
  }

  /** The metrics handed to the overall reduction are the rows' metrics, in row order. */
  lemma {:induction false} RowMetricsAt(rows: seq<ConnectionRow>)
    ensures |RowMetrics(rows)| == |rows|
    ensures forall k :: 0 <= k < |rows| ==> RowMetrics(rows)[k] == rows[k].metrics
    decreases |rows|
  {
    if rows != [] {
      RowMetricsAt(rows[..|rows| - 1]);
    }
  }

  /**
   * The report has one row per connection, in order, carrying its id, the
   * metrics of its events and their score; the overall reduction receives
   * exactly those metrics.
   */
  lemma ReportRows(d: Dump)
    requires !d.NoData?
    ensures var cs, r := ConnectionTraces(d), ReportOf(d).value;
      && |r.rows| == |cs|
      && (forall k :: 0 <= k < |cs| ==>
            r.rows[k].id == cs[k].0 && r.rows[k].metrics == MetricsOf(cs[k].1)
            && r.rows[k].score == ComputeScore(MetricsOf(cs[k].1).figures))
      && |RowMetrics(r.rows)| == |cs|
      && (forall k :: 0 <= k < |cs| ==> RowMetrics(r.rows)[k] == MetricsOf(cs[k].1))
  {
    var cs := ConnectionTraces(d);
    RowsAt(cs);
    RowMetricsAt(Rows(cs));
  }

  /**
   * The overall packet loss, jitter, frame drop and retransmission of a report
   * lie between the smallest and largest per-connection value.
   */
  lemma ReportOverallBetween(d: Dump, a: Averaged, lo: real, hi: real)
    requires !d.NoData? && |ConnectionTraces(d)| > 0
    requires forall k :: 0 <= k < |ConnectionTraces(d)| ==> lo <= Pick(MetricsOf(ConnectionTraces(d)[k].1).figures, a) <= hi
    ensures lo <= Pick(ReportOf(d).value.overall, a) <= hi
  {
    var cs := ConnectionTraces(d);
    var rows := Rows(cs);
    var ms := RowMetrics(rows);
    RowsAt(cs);
    RowMetricsAt(rows);
    forall k | 0 <= k < |ms|
      ensures lo <= Pick(ms[k].figures, a) <= hi
    {
      assert ms[k] == rows[k].metrics == MetricsOf(cs[k].1);
    }
    OverallAverages(ms, a, lo, hi);
    assert ReportOf(d).value.overall == Combined(ms);
  }

  /**
   * A connection whose events hold no getStats event gets all-zero metrics and
   * the perfect score 100: absence of data reads as perfect quality.
   */
  lemma NoSnapshotScoresPerfect(trace: seq<TraceEvent>)
    requires forall k :: 0 <= k < |trace| ==> trace[k].eventType != GetStats
    ensures MetricsOf(trace) == ConnectionMetrics(ZeroFigures, [])
    ensures RowOf(("", trace)).score == 100
  {
    NoSnapshotEmptyBuckets(LastGetStats(trace));
    EmptyBucketsZero();
    PerfectScore(ZeroFigures);
  }

  /**
   * For the internals format only the update log is searched for getStats
   * events: the sparse statistics dictionary never changes the report.
   */
  lemma InternalsIgnoresStatsDictionary(pcs: seq<(string, InternalsConnection)>, pcs': seq<(string, InternalsConnection)>)
    requires |pcs| == |pcs'|
    requires forall k :: 0 <= k < |pcs| ==> pcs[k].0 == pcs'[k].0 && pcs[k].1.updateLog == pcs'[k].1.updateLog
    ensures ReportOf(InternalsDump(pcs)) == ReportOf(InternalsDump(pcs'))
  {
    assert ConnectionTraces(InternalsDump(pcs)) == ConnectionTraces(InternalsDump(pcs'));
  }

  /** One inbound record with 5 lost, 95 received and 10 ms of jitter: 5% loss, 10 ms, score 90. */
  lemma LossAndJitterScenario(r: StatsRecord)
    requires r == StatsRecord(InboundRtp, Some(0.01), Some(5.0), Some(95.0), None, None, None, None, None,
                              None, None, None, None, None)
    ensures Aggregated(Classified([r])).figures == Figures(5.0, 10.0, 0.0, 0.0, 0.0, 0)
    ensures ComputeScore(Aggregated(Classified([r])).figures) == 90
  {
    SingleInbound(r);
    assert RawScore(Figures(5.0, 10.0, 0.0, 0.0, 0.0, 0)) == 90.0;
  }

  /** One outbound record with `active === false` and reason "cpu": two pauses, score 96. */
  lemma PauseScenario(r: StatsRecord)
    requires r.statsType == OutboundRtp && r.active == Some(false) && r.qualityLimitationReason == Some("cpu")
    requires r.packetsSent.None? && r.retransmittedPacketsSent.None? && r.bytesSentPerSecond.None?
    ensures Aggregated(Classified([r])).figures == Figures(0.0, 0.0, 0.0, 0.0, 0.0, 2)
    ensures ComputeScore(Aggregated(Classified([r])).figures) == 96
  {
    SingleOutbound(r);
    assert RawScore(Figures(0.0, 0.0, 0.0, 0.0, 0.0, 2)) == 96.0;
  }

  /** All frames dropped and none received still reports 0% frame drop. */
  lemma AllFramesDroppedScenario(r: StatsRecord)
    requires r.statsType == InboundRtp && r.framesReceived.None? && r.framesDropped == Some(10.0)
    ensures Aggregated(Classified([r])).figures.frameDropPct == 0.0
  {
    SingleInbound(r);
  }

  /** Totals over a single record are that record's own values. */
  lemma SingleRecord(r: StatsRecord)
    ensures forall f :: Total([r], f) == Get(r, f).GetOr(0.0)
    ensures forall f :: Numeric([r], f) == if Get(r, f).Some? then 1 else 0
    ensures PauseTotal([r]) == PausesOf(r)
    ensures forall t :: OfType([r], t) == if r.statsType == t then [r] else []
  {
    assert [r][..0] == [];
  }

  lemma SingleInbound(r: StatsRecord)
    requires r.statsType == InboundRtp
    ensures Classified([r]) == Buckets([r], [], [])
    ensures forall f :: Total([r], f) == Get(r, f).GetOr(0.0)
    ensures forall f :: Numeric([r], f) == if Get(r, f).Some? then 1 else 0
    ensures PauseTotal([r]) == PausesOf(r)
  {
    SingleRecord(r);
  }

  lemma SingleOutbound(r: StatsRecord)
    requires r.statsType == OutboundRtp
    ensures Classified([r]) == Buckets([], [r], [])
    ensures forall f :: Total([r], f) == Get(r, f).GetOr(0.0)
    ensures PauseTotal([r]) == PausesOf(r)
  {
    SingleRecord(r);
  }
}
