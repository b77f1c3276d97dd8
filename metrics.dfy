/**
 * Per-connection aggregation (report.js `aggregate`): running totals over the
 * inbound and outbound buckets, folded into percentages, a jitter mean, an
 * outbound bitrate, a pause counter and a list of track descriptors.
 */
module Metrics {
  import opened Wrappers
  import opened Traces
  import opened Snapshot

  /** The numeric record fields the aggregator sums. */
  datatype Field =
    | Jitter | PacketsLost | PacketsReceived | FramesReceived | FramesDropped
    | PacketsSent | RetransmittedPacketsSent | BytesSentPerSecond

  function Get(r: StatsRecord, f: Field): Option<real> {
    match f
    case Jitter => r.jitter
    case PacketsLost => r.packetsLost
    case PacketsReceived => r.packetsReceived
    case FramesReceived => r.framesReceived
    case FramesDropped => r.framesDropped
    case PacketsSent => r.packetsSent
    case RetransmittedPacketsSent => r.retransmittedPacketsSent
    case BytesSentPerSecond => r.bytesSentPerSecond
  }

  /** Sum of field `f` over the records where it is a number; the others add nothing. */
  function Total(rs: seq<StatsRecord>, f: Field): real
    decreases |rs|
  {
    if rs == [] then 0.0 else Total(rs[..|rs| - 1], f) + Get(rs[|rs| - 1], f).GetOr(0.0)
  }

  /** Number of records where field `f` is a number. */
  function Numeric(rs: seq<StatsRecord>, f: Field): nat
    decreases |rs|
  {
    if rs == [] then 0 else Numeric(rs[..|rs| - 1], f) + (if Get(rs[|rs| - 1], f).Some? then 1 else 0)
  }

  /** `qualityLimitationReason` is present, non-empty and not "none". */
  predicate Limited(r: StatsRecord) {
    r.qualityLimitationReason.Some? && r.qualityLimitationReason.value != "" &&
    r.qualityLimitationReason.value != "none"
  }

  /** What one record adds to the pause counter: one for `active === false`, one for a limitation. */
  function PausesOf(r: StatsRecord): nat {
    (if r.active == Some(false) then 1 else 0) + (if Limited(r) then 1 else 0)
  }

  function PauseTotal(rs: seq<StatsRecord>): nat
    decreases |rs|
  {
    if rs == [] then 0 else PauseTotal(rs[..|rs| - 1]) + PausesOf(rs[|rs| - 1])
  }

  datatype Direction = Inbound | Outbound

  /** A track descriptor copied from a record: direction, media kind, mid and codec id. */
  datatype Track = Track(direction: Direction, kind: Option<string>, mid: Option<string>, codecId: Option<string>)

  function TrackOf(r: StatsRecord, d: Direction): Track {
    Track(d, r.kind, r.mid, r.codecId)
  }

  function Tracks(rs: seq<StatsRecord>, d: Direction): seq<Track>
    decreases |rs|
  {
    if rs == [] then [] else Tracks(rs[..|rs| - 1], d) + [TrackOf(rs[|rs| - 1], d)]
  }

  /** The five numbers the scorer reads, plus the outbound bitrate. */
  datatype Figures = Figures(
    packetLossPct: real,
    jitterMsAvg: real,
    bitrateKbps: real,
    frameDropPct: real,
    retransmitPct: real,
    pauseCount: nat)

  const ZeroFigures := Figures(0.0, 0.0, 0.0, 0.0, 0.0, 0)

  datatype ConnectionMetrics = ConnectionMetrics(figures: Figures, tracks: seq<Track>)

  /** `part / whole * 100`, and 0 when `whole` is 0. */
  function Percent(part: real, whole: real): real {
    if whole == 0.0 then 0.0 else part / whole * 100.0
  }

  /** What `aggregate` returns for the given buckets. */
  function Aggregated(b: Buckets): ConnectionMetrics {
    var lost := Total(b.inbound, PacketsLost);
    var received := Total(b.inbound, PacketsReceived);
    var framesReceived := Total(b.inbound, FramesReceived);
    var framesDropped := Total(b.inbound, FramesDropped);
    var count := Numeric(b.inbound, Jitter);
    ConnectionMetrics(
      Figures(
        packetLossPct := Percent(lost, lost + received),
        jitterMsAvg := if count != 0 then Total(b.inbound, Jitter) * 1000.0 / count as real else 0.0,
        bitrateKbps := Total(b.outbound, BytesSentPerSecond) / 1000.0,
        frameDropPct := if framesReceived != 0.0 then Percent(framesDropped, framesReceived + framesDropped) else 0.0,
        retransmitPct := Percent(Total(b.outbound, RetransmittedPacketsSent), Total(b.outbound, PacketsSent)),
        pauseCount := PauseTotal(b.inbound) + PauseTotal(b.outbound)),
      Tracks(b.inbound, Inbound) + Tracks(b.outbound, Outbound))
  }

  /** The running totals `aggregate` keeps while it walks the buckets. */
  datatype RunningTotals = RunningTotals(
    inboundCount: nat, jitterSum: real,
    packetsLostTotal: real, packetsReceivedTotal: real,
    framesReceivedTotal: real, framesDroppedTotal: real,
    packetsSentTotal: real, retransmittedPacketsSentTotal: real,
    bytesSentPerSecondTotalBits: real,
    pauseCount: nat, tracks: seq<Track>)

  /** The `metrics.inbound.forEach` pass: adds each inbound record to the inbound totals. */
  method SumInbound(inbound: seq<StatsRecord>) returns (t: RunningTotals)
    ensures t.inboundCount == Numeric(inbound, Jitter)
    ensures t.jitterSum == Total(inbound, Jitter) * 1000.0
    ensures t.packetsLostTotal == Total(inbound, PacketsLost)
    ensures t.packetsReceivedTotal == Total(inbound, PacketsReceived)
    ensures t.framesReceivedTotal == Total(inbound, FramesReceived)
    ensures t.framesDroppedTotal == Total(inbound, FramesDropped)
    ensures t.packetsSentTotal == 0.0 && t.retransmittedPacketsSentTotal == 0.0
    ensures t.bytesSentPerSecondTotalBits == 0.0
    ensures t.pauseCount == PauseTotal(inbound)
    ensures t.tracks == Tracks(inbound, Inbound)
  {
    var pauseCount: nat := 0;
    var tracks: seq<Track> := [];
    var inboundCount: nat, jitterSum := 0, 0.0;
    var packetsLostTotal, packetsReceivedTotal := 0.0, 0.0;
    var framesReceivedTotal, framesDroppedTotal := 0.0, 0.0;
    var i := 0;
    while i < |inbound|
      invariant 0 <= i <= |inbound|
      invariant inboundCount == Numeric(inbound[..i], Jitter)
      invariant jitterSum == Total(inbound[..i], Jitter) * 1000.0
      invariant packetsLostTotal == Total(inbound[..i], PacketsLost)
      invariant packetsReceivedTotal == Total(inbound[..i], PacketsReceived)
      invariant framesReceivedTotal == Total(inbound[..i], FramesReceived)
      invariant framesDroppedTotal == Total(inbound[..i], FramesDropped)
      invariant pauseCount == PauseTotal(inbound[..i])
      invariant tracks == Tracks(inbound[..i], Inbound)
    {
      var r := inbound[i];
      PrefixStep(inbound, i);
      if r.jitter.Some? {
        jitterSum := jitterSum + r.jitter.value * 1000.0;  // seconds to milliseconds
        inboundCount := inboundCount + 1;
      }
      if r.packetsLost.Some? { packetsLostTotal := packetsLostTotal + r.packetsLost.value; }
      if r.packetsReceived.Some? { packetsReceivedTotal := packetsReceivedTotal + r.packetsReceived.value; }
      if r.framesReceived.Some? { framesReceivedTotal := framesReceivedTotal + r.framesReceived.value; }
      if r.framesDropped.Some? { framesDroppedTotal := framesDroppedTotal + r.framesDropped.value; }
      if r.active == Some(false) { pauseCount := pauseCount + 1; }
      if Limited(r) { pauseCount := pauseCount + 1; }
      tracks := tracks + [TrackOf(r, Inbound)];
      i := i + 1;
    }
    assert inbound[..|inbound|] == inbound;
    t := RunningTotals(inboundCount, jitterSum, packetsLostTotal, packetsReceivedTotal,
                       framesReceivedTotal, framesDroppedTotal, 0.0, 0.0, 0.0, pauseCount, tracks);
  }

  /**
   * The `metrics.outbound.forEach` pass: adds each outbound record to the
   * outbound totals, continuing the pause counter and track list it is given.
   */
  method SumOutbound(outbound: seq<StatsRecord>, t0: RunningTotals) returns (t: RunningTotals)
    requires t0.packetsSentTotal == 0.0 && t0.retransmittedPacketsSentTotal == 0.0
    requires t0.bytesSentPerSecondTotalBits == 0.0
    ensures t.inboundCount == t0.inboundCount && t.jitterSum == t0.jitterSum
    ensures t.packetsLostTotal == t0.packetsLostTotal && t.packetsReceivedTotal == t0.packetsReceivedTotal
    ensures t.framesReceivedTotal == t0.framesReceivedTotal && t.framesDroppedTotal == t0.framesDroppedTotal
    ensures t.packetsSentTotal == Total(outbound, PacketsSent)
    ensures t.retransmittedPacketsSentTotal == Total(outbound, RetransmittedPacketsSent)
    ensures t.bytesSentPerSecondTotalBits == Total(outbound, BytesSentPerSecond)
    ensures t.pauseCount == t0.pauseCount + PauseTotal(outbound)
    ensures t.tracks == t0.tracks + Tracks(outbound, Outbound)
  {
    var pauseCount := t0.pauseCount;
    var tracks := t0.tracks;
    var packetsSentTotal, retransmittedPacketsSentTotal := 0.0, 0.0;
    var bytesSentPerSecondTotalBits := 0.0;
    var j := 0;
    while j < |outbound|
      invariant 0 <= j <= |outbound|
      invariant packetsSentTotal == Total(outbound[..j], PacketsSent)
      invariant retransmittedPacketsSentTotal == Total(outbound[..j], RetransmittedPacketsSent)
      invariant bytesSentPerSecondTotalBits == Total(outbound[..j], BytesSentPerSecond)
      invariant pauseCount == t0.pauseCount + PauseTotal(outbound[..j])
      invariant tracks == t0.tracks + Tracks(outbound[..j], Outbound)
    {
      var r := outbound[j];
      PrefixStep(outbound, j);
      if r.packetsSent.Some? { packetsSentTotal := packetsSentTotal + r.packetsSent.value; }
      if r.retransmittedPacketsSent.Some? {
        retransmittedPacketsSentTotal := retransmittedPacketsSentTotal + r.retransmittedPacketsSent.value;
      }
      if r.bytesSentPerSecond.Some? {
        // the derived rate field is already in bits per second
        bytesSentPerSecondTotalBits := bytesSentPerSecondTotalBits + r.bytesSentPerSecond.value;
      }
      if r.active == Some(false) { pauseCount := pauseCount + 1; }
      if Limited(r) { pauseCount := pauseCount + 1; }
      tracks := tracks + [TrackOf(r, Outbound)];
      j := j + 1;
    }
    assert outbound[..|outbound|] == outbound;
    t := t0.(packetsSentTotal := packetsSentTotal,
             retransmittedPacketsSentTotal := retransmittedPacketsSentTotal,
             bytesSentPerSecondTotalBits := bytesSentPerSecondTotalBits,
             pauseCount := pauseCount, tracks := tracks);
  }

  /** Runs both passes and turns the totals into the metrics record, guarding every zero denominator. */
  method Aggregate(b: Buckets) returns (m: ConnectionMetrics)
    ensures m == Aggregated(b)
  {
    var t := SumInbound(b.inbound);
    t := SumOutbound(b.outbound, t);
    var jitterMsAvg := if t.inboundCount != 0 then t.jitterSum / t.inboundCount as real else 0.0;
    var packetLossPct := Percent(t.packetsLostTotal, t.packetsLostTotal + t.packetsReceivedTotal);
    var frameDropPct := 0.0;
    if t.framesReceivedTotal != 0.0 {
      frameDropPct := Percent(t.framesDroppedTotal, t.framesReceivedTotal + t.framesDroppedTotal);
    }
    var retransmitPct := Percent(t.retransmittedPacketsSentTotal, t.packetsSentTotal);
    var bitrateKbps := if t.bytesSentPerSecondTotalBits != 0.0 then t.bytesSentPerSecondTotalBits / 1000.0 else 0.0;
    m := ConnectionMetrics(
      Figures(packetLossPct, jitterMsAvg, bitrateKbps, frameDropPct, retransmitPct, t.pauseCount),
      t.tracks);
  }

  /** How each running total changes when the prefix grows by one record. */
  lemma PrefixStep(rs: seq<StatsRecord>, i: nat)
    requires i < |rs|
    ensures forall f :: Total(rs[..i + 1], f) == Total(rs[..i], f) + Get(rs[i], f).GetOr(0.0)
    ensures forall f :: Numeric(rs[..i + 1], f) == Numeric(rs[..i], f) + (if Get(rs[i], f).Some? then 1 else 0)
    ensures PauseTotal(rs[..i + 1]) == PauseTotal(rs[..i]) + PausesOf(rs[i])
    ensures forall d :: Tracks(rs[..i + 1], d) == Tracks(rs[..i], d) + [TrackOf(rs[i], d)]
  {
    assert rs[..i + 1][..i] == rs[..i];
  }

  // ---------------------------------------------------------------------------
  // Properties of the totals

  lemma {:induction false} TotalAppend(a: seq<StatsRecord>, b: seq<StatsRecord>, f: Field)
    ensures Total(a + b, f) == Total(a, f) + Total(b, f)
    ensures Numeric(a + b, f) == Numeric(a, f) + Numeric(b, f)
    decreases |b|
  {
    if b == [] {
      assert a + b == a;
    } else {
      var b' := b[..|b| - 1];
      assert (a + b)[..|a + b| - 1] == a + b';
      TotalAppend(a, b', f);
    }
  }

  /** `c` added to itself `n` times; kept linear so that the solver never multiplies two unknowns. */
  function Scaled(c: real, n: nat): real {
    if n == 0 then 0.0 else Scaled(c, n - 1) + c
  }

  lemma {:induction false} ScaledIsProduct(c: real, n: nat)
    ensures Scaled(c, n) == c * n as real
  {
    if n != 0 {
      ScaledIsProduct(c, n - 1);
    }
  }

  /** If every numeric value of `f` is at least `lo`, the total is at least `lo` times their count. */
  lemma {:induction false} TotalAtLeast(rs: seq<StatsRecord>, f: Field, lo: real)
    requires forall k :: 0 <= k < |rs| && Get(rs[k], f).Some? ==> lo <= Get(rs[k], f).value
    ensures Scaled(lo, Numeric(rs, f)) <= Total(rs, f)
    decreases |rs|
  {
    if rs != [] {
      TotalAtLeast(rs[..|rs| - 1], f, lo);
    }
  }

  /** If every numeric value of `f` is at most `hi`, the total is at most `hi` times their count. */
  lemma {:induction false} TotalAtMost(rs: seq<StatsRecord>, f: Field, hi: real)
    requires forall k :: 0 <= k < |rs| && Get(rs[k], f).Some? ==> Get(rs[k], f).value <= hi
    ensures Total(rs, f) <= Scaled(hi, Numeric(rs, f))
    decreases |rs|
  {
    if rs != [] {
      TotalAtMost(rs[..|rs| - 1], f, hi);
    }
  }

  /** Records where `f` is absent add nothing to its total or its count. */
  lemma {:induction false} TotalOfAbsent(rs: seq<StatsRecord>, f: Field)
    requires forall r :: r in rs ==> Get(r, f).None?
    ensures Total(rs, f) == 0.0 && Numeric(rs, f) == 0
    decreases |rs|
  {
    if rs != [] {
      var rs' := rs[..|rs| - 1];
      assert forall r :: r in rs' ==> r in rs;
      TotalOfAbsent(rs', f);
    }
  }

  lemma {:induction false} TotalNonNegative(rs: seq<StatsRecord>, f: Field)
    requires forall r :: r in rs && Get(r, f).Some? ==> Get(r, f).value >= 0.0
    ensures Total(rs, f) >= 0.0
    decreases |rs|
  {
    if rs != [] {
      var rs' := rs[..|rs| - 1];
      assert forall r :: r in rs' ==> r in rs;
      TotalNonNegative(rs', f);
    }
  }

  // ---------------------------------------------------------------------------
  // Properties of the aggregated metrics

  /**
   * The jitter figure is the mean, in milliseconds, over the inbound records
   * that carry a numeric jitter, and 0 when there are none.
   */
  lemma JitterIsMean(b: Buckets)
    ensures Numeric(b.inbound, Jitter) == 0 ==> Aggregated(b).figures.jitterMsAvg == 0.0
    ensures Numeric(b.inbound, Jitter) != 0 ==>
      Aggregated(b).figures.jitterMsAvg * Numeric(b.inbound, Jitter) as real == Total(b.inbound, Jitter) * 1000.0
  {
    var n := Numeric(b.inbound, Jitter);
    if n != 0 {
      var t := Total(b.inbound, Jitter);
      assert Aggregated(b).figures.jitterMsAvg == t * 1000.0 / n as real;
      assert t * 1000.0 / n as real * n as real == t * 1000.0;
    }
  }

  /**
   * When at least one inbound record carries a numeric jitter, the jitter
   * figure lies between the smallest and largest such jitter times 1000.
   */
  lemma JitterBounds(b: Buckets, lo: real, hi: real)
    requires forall k :: 0 <= k < |b.inbound| && b.inbound[k].jitter.Some? ==> lo <= b.inbound[k].jitter.value <= hi
    ensures Numeric(b.inbound, Jitter) != 0 ==>
      lo * 1000.0 <= Aggregated(b).figures.jitterMsAvg <= hi * 1000.0
  {
    var n := Numeric(b.inbound, Jitter);
    if n != 0 {
      var t := Total(b.inbound, Jitter);
      assert lo * n as real <= t <= hi * n as real by {
        TotalAtLeast(b.inbound, Jitter, lo);
        TotalAtMost(b.inbound, Jitter, hi);
        ScaledIsProduct(lo, n);
        ScaledIsProduct(hi, n);
      }
      assert Aggregated(b).figures.jitterMsAvg == t * 1000.0 / n as real;
      MeanBounds(t, n as real, lo, hi);
    }
  }

  /** A mean of values in [lo, hi], scaled to milliseconds, lies in [lo * 1000, hi * 1000]. */
  lemma MeanBounds(t: real, n: real, lo: real, hi: real)
    requires n > 0.0 && lo * n <= t <= hi * n
    ensures t * 1000.0 / n * n == t * 1000.0
    ensures lo * 1000.0 <= t * 1000.0 / n <= hi * 1000.0
  {
    var avg := t * 1000.0 / n;
    assert avg * n == t * 1000.0;
    MulCancel(lo * 1000.0, avg, n);
    MulCancel(avg, hi * 1000.0, n);
  }

  lemma MulCancel(x: real, y: real, n: real)
    requires n > 0.0 && x * n <= y * n
    ensures x <= y
  {
  }

  /** `part / (part + rest)` as a percentage lies in [0, 100] for non-negative parts. */
  lemma PercentOfWhole(part: real, rest: real)
    requires part >= 0.0 && rest >= 0.0
    ensures 0.0 <= Percent(part, part + rest) <= 100.0
  {
    if part + rest != 0.0 {
      var q := part / (part + rest);
      assert q * (part + rest) == part;
      MulCancel(q, 1.0, part + rest);
      MulCancel(0.0, q, part + rest);
    }
  }

  /**
   * Packet loss is 0 when no packet was lost or received, and a percentage in
   * [0, 100] when the numeric counters are non-negative.
   */
  lemma PacketLossRange(b: Buckets)
    ensures Total(b.inbound, PacketsLost) + Total(b.inbound, PacketsReceived) == 0.0 ==>
      Aggregated(b).figures.packetLossPct == 0.0
    ensures (forall r :: r in b.inbound && r.packetsLost.Some? ==> r.packetsLost.value >= 0.0) &&
            (forall r :: r in b.inbound && r.packetsReceived.Some? ==> r.packetsReceived.value >= 0.0) ==>
      0.0 <= Aggregated(b).figures.packetLossPct <= 100.0
  {
    if (forall r :: r in b.inbound && r.packetsLost.Some? ==> r.packetsLost.value >= 0.0) &&
       (forall r :: r in b.inbound && r.packetsReceived.Some? ==> r.packetsReceived.value >= 0.0)
    {
      TotalNonNegative(b.inbound, PacketsLost);
      TotalNonNegative(b.inbound, PacketsReceived);
      PercentOfWhole(Total(b.inbound, PacketsLost), Total(b.inbound, PacketsReceived));
    }
  }

  /**
   * Frame drop is guarded by the received-frames total alone: it is 0 whenever
   * no frame was received, however many were dropped, and a percentage in
   * [0, 100] when the numeric counters are non-negative.
   */
  lemma FrameDropRange(b: Buckets)
    ensures Total(b.inbound, FramesReceived) == 0.0 ==> Aggregated(b).figures.frameDropPct == 0.0
    ensures (forall r :: r in b.inbound && r.framesReceived.Some? ==> r.framesReceived.value >= 0.0) &&
            (forall r :: r in b.inbound && r.framesDropped.Some? ==> r.framesDropped.value >= 0.0) ==>
      0.0 <= Aggregated(b).figures.frameDropPct <= 100.0
  {
    if (forall r :: r in b.inbound && r.framesReceived.Some? ==> r.framesReceived.value >= 0.0) &&
       (forall r :: r in b.inbound && r.framesDropped.Some? ==> r.framesDropped.value >= 0.0)
    {
      TotalNonNegative(b.inbound, FramesReceived);
      TotalNonNegative(b.inbound, FramesDropped);
      PercentOfWhole(Total(b.inbound, FramesDropped), Total(b.inbound, FramesReceived));
      assert Total(b.inbound, FramesReceived) + Total(b.inbound, FramesDropped)
          == Total(b.inbound, FramesDropped) + Total(b.inbound, FramesReceived);
    }
  }

  /**
   * Retransmission is 0 when nothing was sent, non-negative for non-negative
   * counters, and at most 100 when no more packets were retransmitted than sent.
   */
  lemma RetransmitRange(b: Buckets)
    ensures Total(b.outbound, PacketsSent) == 0.0 ==> Aggregated(b).figures.retransmitPct == 0.0
    ensures (forall r :: r in b.outbound && r.packetsSent.Some? ==> r.packetsSent.value >= 0.0) &&
            (forall r :: r in b.outbound && r.retransmittedPacketsSent.Some? ==> r.retransmittedPacketsSent.value >= 0.0) ==>
      0.0 <= Aggregated(b).figures.retransmitPct
    ensures 0.0 <= Total(b.outbound, RetransmittedPacketsSent) <= Total(b.outbound, PacketsSent) ==>
      Aggregated(b).figures.retransmitPct <= 100.0
  {
    var sent := Total(b.outbound, PacketsSent);
    var rtx := Total(b.outbound, RetransmittedPacketsSent);
    if (forall r :: r in b.outbound && r.packetsSent.Some? ==> r.packetsSent.value >= 0.0) &&
       (forall r :: r in b.outbound && r.retransmittedPacketsSent.Some? ==> r.retransmittedPacketsSent.value >= 0.0)
    {
      TotalNonNegative(b.outbound, PacketsSent);
      TotalNonNegative(b.outbound, RetransmittedPacketsSent);
    }
    if 0.0 <= rtx <= sent {
      PercentOfWhole(rtx, sent - rtx);
    }
  }

  lemma {:induction false} PauseTotalBound(rs: seq<StatsRecord>)
    ensures PauseTotal(rs) <= 2 * |rs|
    decreases |rs|
  {
    if rs != [] {
      PauseTotalBound(rs[..|rs| - 1]);
    }
  }

  /**
   * The pause counter adds, over every inbound and outbound record, one for
   * `active === false` and one for a limitation reason, so it is at most twice
   * the number of such records.
   */
  lemma PauseCountBound(b: Buckets)
    ensures Aggregated(b).figures.pauseCount == PauseTotal(b.inbound) + PauseTotal(b.outbound)
    ensures Aggregated(b).figures.pauseCount <= 2 * (|b.inbound| + |b.outbound|)
  {
    PauseTotalBound(b.inbound);
    PauseTotalBound(b.outbound);
  }

  lemma {:induction false} TracksAt(rs: seq<StatsRecord>, d: Direction)
    ensures |Tracks(rs, d)| == |rs|
    ensures forall k :: 0 <= k < |rs| ==> Tracks(rs, d)[k] == TrackOf(rs[k], d)
    decreases |rs|
  {
    if rs != [] {
      TracksAt(rs[..|rs| - 1], d);
    }
  }

  /**
   * `tracks` holds one descriptor per inbound record, then one per outbound
   * record, each copied from its record and tagged with its direction.
   */
  lemma TracksLayout(b: Buckets)
    ensures |Aggregated(b).tracks| == |b.inbound| + |b.outbound|
    ensures forall k :: 0 <= k < |b.inbound| ==>
      Aggregated(b).tracks[k] == Track(Inbound, b.inbound[k].kind, b.inbound[k].mid, b.inbound[k].codecId)
    ensures forall k :: |b.inbound| <= k < |b.inbound| + |b.outbound| ==>
      var r := b.outbound[k - |b.inbound|];
      Aggregated(b).tracks[k] == Track(Outbound, r.kind, r.mid, r.codecId)
  {
    TracksAt(b.inbound, Inbound);
    TracksAt(b.outbound, Outbound);
  }

  /**
   * The bitrate is the kbps sum of each outbound record's own rate: appending
   * outbound records adds their rates, and records without the rate field add 0.
   */
  lemma BitrateSums(b: Buckets, more: seq<StatsRecord>)
    ensures Aggregated(b.(outbound := b.outbound + more)).figures.bitrateKbps
         == Aggregated(b).figures.bitrateKbps + Total(more, BytesSentPerSecond) / 1000.0
    ensures (forall r :: r in more ==> r.bytesSentPerSecond.None?) ==>
      Aggregated(b.(outbound := b.outbound + more)).figures.bitrateKbps == Aggregated(b).figures.bitrateKbps
  {
    var b' := b.(outbound := b.outbound + more);
    var added := Total(more, BytesSentPerSecond);
    assert Aggregated(b').figures.bitrateKbps == Aggregated(b).figures.bitrateKbps + added / 1000.0 by {
      assert Aggregated(b').figures.bitrateKbps == Total(b.outbound + more, BytesSentPerSecond) / 1000.0;
      assert Aggregated(b).figures.bitrateKbps == Total(b.outbound, BytesSentPerSecond) / 1000.0;
      TotalAppend(b.outbound, more, BytesSentPerSecond);
    }
    if forall r :: r in more ==> r.bytesSentPerSecond.None? {
      TotalOfAbsent(more, BytesSentPerSecond);
    }
  }

  /** Empty buckets give all-zero metrics and no tracks. */
  lemma EmptyBucketsZero()
    ensures Aggregated(Buckets([], [], [])) == ConnectionMetrics(ZeroFigures, [])
  {
  }
}
