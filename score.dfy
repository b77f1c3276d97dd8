/**
 * The penalty-based quality score (report.js `computeScore`): 100 minus five
 * capped penalties, rounded as JavaScript's `Math.round` does and clamped at 0.
 */
module Score {
  import opened Metrics

  function Min(a: real, b: real): real {
    if a <= b then a else b
  }

  /** `Math.round`: the nearest integer, halves rounded toward +infinity. */
  function Round(x: real): (n: int)
    ensures n as real - 0.5 <= x < n as real + 0.5
  {
    (x + 0.5).Floor
  }

  function LossPenalty(packetLossPct: real): real {
    Min(50.0, packetLossPct * 2.0)
  }

  /** Jitter above 30 ms costs half a point per ms, at most 25. */
  function JitterPenalty(jitterMsAvg: real): real {
    if jitterMsAvg > 30.0 then Min(25.0, (jitterMsAvg - 30.0) / 2.0) else 0.0
  }

  /** Frame drop above 5% costs two points per percent, at most 15. */
  function FrameDropPenalty(frameDropPct: real): real {
    if frameDropPct > 5.0 then Min(15.0, (frameDropPct - 5.0) * 2.0) else 0.0
  }

  /** Retransmission above 2% costs two points per percent, at most 10. */
  function RetransmitPenalty(retransmitPct: real): real {
    if retransmitPct > 2.0 then Min(10.0, (retransmitPct - 2.0) * 2.0) else 0.0
  }

  /** Each pause costs two points, at most 10. */
  function PausePenalty(pauseCount: nat): real {
    if pauseCount != 0 then Min(10.0, pauseCount as real * 2.0) else 0.0
  }

  /** The score before rounding and clamping. */
  function RawScore(f: Figures): real {
    100.0 - LossPenalty(f.packetLossPct) - JitterPenalty(f.jitterMsAvg) - FrameDropPenalty(f.frameDropPct)
          - RetransmitPenalty(f.retransmitPct) - PausePenalty(f.pauseCount)
  }

  /** The integer score: never negative, and otherwise the raw score rounded to the nearest integer. */
  function ComputeScore(f: Figures): (s: int)
    ensures s >= 0
    ensures s > 0 ==> s as real - 0.5 <= RawScore(f) < s as real + 0.5
    ensures RawScore(f) >= 0.0 ==> s as real - 0.5 <= RawScore(f) < s as real + 0.5
    ensures RawScore(f) < 0.0 ==> s == 0
  {
    var r := Round(RawScore(f));
    if r < 0 then 0 else r
  }

  lemma RoundMonotone(x: real, y: real)
    requires x <= y
    ensures Round(x) <= Round(y)
  {
  }

  /** The score never exceeds 100 unless the packet-loss figure is negative. */
  lemma ScoreAtMost100(f: Figures)
    requires f.packetLossPct >= 0.0
    ensures ComputeScore(f) <= 100
  {
    assert RawScore(f) <= 100.0;
    RoundMonotone(RawScore(f), 100.0);
  }

  /**
   * A negative packet-loss figure (a signed `packetsLost` can make one) turns
   * the loss penalty into a bonus: -5% loss alone scores 110.
   */
  lemma NegativeLossExceeds100()
    ensures ComputeScore(Figures(-5.0, 0.0, 0.0, 0.0, 0.0, 0)) == 110
  {
    assert RawScore(Figures(-5.0, 0.0, 0.0, 0.0, 0.0, 0)) == 110.0;
  }

  /** All-zero figures (no loss, jitter, drops, retransmissions or pauses) score exactly 100. */
  lemma PerfectScore(f: Figures)
    requires f.packetLossPct == 0.0 && f.jitterMsAvg == 0.0 && f.frameDropPct == 0.0
    requires f.retransmitPct == 0.0 && f.pauseCount == 0
    ensures ComputeScore(f) == 100
  {
    assert RawScore(f) == 100.0;
  }

  /** `g` is at least as bad as `f` in each of the five penalised figures. */
  predicate NoBetter(g: Figures, f: Figures) {
    && g.packetLossPct >= f.packetLossPct
    && g.jitterMsAvg >= f.jitterMsAvg
    && g.frameDropPct >= f.frameDropPct
    && g.retransmitPct >= f.retransmitPct
    && g.pauseCount >= f.pauseCount
  }

  /**
   * The score is monotone non-increasing in packet loss, jitter, frame drop,
   * retransmission and pause count together, and so in each one alone.
   */
  lemma ScoreMonotone(f: Figures, g: Figures)
    requires NoBetter(g, f)
    ensures ComputeScore(g) <= ComputeScore(f)
  {
    assert LossPenalty(g.packetLossPct) >= LossPenalty(f.packetLossPct);
    assert JitterPenalty(g.jitterMsAvg) >= JitterPenalty(f.jitterMsAvg);
    assert FrameDropPenalty(g.frameDropPct) >= FrameDropPenalty(f.frameDropPct);
    assert RetransmitPenalty(g.retransmitPct) >= RetransmitPenalty(f.retransmitPct);
    assert PausePenalty(g.pauseCount) >= PausePenalty(f.pauseCount);
    RoundMonotone(RawScore(g), RawScore(f));
  }

  /** Packet loss of 25% or more, with nothing else wrong, hits the loss cap: score 50. */
  lemma HeavyLossScore(f: Figures)
    requires f.packetLossPct >= 25.0 && f.jitterMsAvg == 0.0 && f.frameDropPct == 0.0
    requires f.retransmitPct == 0.0 && f.pauseCount == 0
    ensures ComputeScore(f) == 50
  {
    assert RawScore(f) == 50.0;
  }

  /** 50 ms of jitter alone costs (50 - 30) / 2 = 10 points. */
  lemma JitterScenario()
    ensures ComputeScore(Figures(0.0, 50.0, 0.0, 0.0, 0.0, 0)) == 90
  {
    assert RawScore(Figures(0.0, 50.0, 0.0, 0.0, 0.0, 0)) == 90.0;
  }
}
