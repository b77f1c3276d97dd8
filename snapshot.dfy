/**
 * Snapshot extraction and classification (report.js `findLastGetStats` and
 * `computeMetricsFromSnapshot`): find the most recent getStats event of a
 * connection and sort its records into typed buckets.
 */
module Snapshot {
  import opened Wrappers
  import opened Traces

  const GetStats := "getStats"
  const InboundRtp := "inbound-rtp"
  const OutboundRtp := "outbound-rtp"
  const DataChannel := "data-channel"

  /** The most recent getStats event of a trace, if there is one. */
  function LastGetStats(trace: seq<TraceEvent>): (r: Option<TraceEvent>)
    ensures r.Some? ==> r.value.eventType == GetStats && r.value in trace
    ensures r.None? <==> forall i :: 0 <= i < |trace| ==> trace[i].eventType != GetStats
    decreases |trace|
  {
    if trace == [] then None
    else if trace[|trace| - 1].eventType == GetStats then Some(trace[|trace| - 1])
    else LastGetStats(trace[..|trace| - 1])
  }

  /** The event found is the last getStats event: no getStats event follows it. */
  lemma {:induction false} LastGetStatsIsLast(trace: seq<TraceEvent>)
    ensures LastGetStats(trace).Some? ==>
              exists i :: 0 <= i < |trace| && trace[i] == LastGetStats(trace).value &&
                          forall j :: i < j < |trace| ==> trace[j].eventType != GetStats
    decreases |trace|
  {
    if trace != [] {
      var n := |trace| - 1;
      if trace[n].eventType == GetStats {
        assert trace[n] == LastGetStats(trace).value;
      } else if LastGetStats(trace).Some? {
        var prefix := trace[..n];
        LastGetStatsIsLast(prefix);
        var i :| 0 <= i < |prefix| && prefix[i] == LastGetStats(prefix).value &&
                 forall j :: i < j < |prefix| ==> prefix[j].eventType != GetStats;
        assert trace[i] == prefix[i] == LastGetStats(trace).value;
        forall j | i < j < |trace|
          ensures trace[j].eventType != GetStats
        {
          if j < n {
            assert trace[j] == prefix[j];
          }
        }
      }
    }
  }

  /** Scans the trace from its end for a getStats event, as the source's decrementing loop does. */
  method FindLastGetStats(trace: seq<TraceEvent>) returns (r: Option<TraceEvent>)
    ensures r == LastGetStats(trace)
  {
    var i := |trace| - 1;
    assert trace[..i + 1] == trace;
    while i >= 0
      invariant -1 <= i < |trace|
      invariant LastGetStats(trace) == LastGetStats(trace[..i + 1])
    {
      assert trace[..i + 1][..i] == trace[..i];
      if trace[i].eventType == GetStats {
        return Some(trace[i]);
      }
      i := i - 1;
    }
    return None;
  }

  /**
   * The records of a snapshot event (`snapshot?.value || {}`): no event, or a
   * payload that is not a statistics map, gives no records.
   */
  function RecordsOf(snapshot: Option<TraceEvent>): (rs: seq<StatsRecord>)
    ensures snapshot.Some? && snapshot.value.value.Stats? ==> rs == snapshot.value.value.records
    ensures snapshot.None? || !snapshot.value.value.Stats? ==> rs == []
  {
    match snapshot
    case None => []
    case Some(e) => if e.value.Stats? then e.value.records else []
  }

  /** The records of `rs` whose type is `t`, in their order in `rs`. */
  function OfType(rs: seq<StatsRecord>, t: string): (r: seq<StatsRecord>)
    ensures |r| <= |rs|
    decreases |rs|
  {
    if rs == [] then []
    else OfType(rs[..|rs| - 1], t) + (if rs[|rs| - 1].statsType == t then [rs[|rs| - 1]] else [])
  }

  /** The bucketed record types are pairwise distinct. */
  lemma BucketTypesDistinct()
    ensures InboundRtp != OutboundRtp && InboundRtp != DataChannel && OutboundRtp != DataChannel
  {
    assert InboundRtp[0] == 'i' && OutboundRtp[0] == 'o' && DataChannel[0] == 'd';
  }

  /** The three buckets the report fills; every other record type is dropped. */
  datatype Buckets = Buckets(inbound: seq<StatsRecord>, outbound: seq<StatsRecord>, datachannel: seq<StatsRecord>)

  function Classified(rs: seq<StatsRecord>): Buckets {
    Buckets(OfType(rs, InboundRtp), OfType(rs, OutboundRtp), OfType(rs, DataChannel))
  }

  /** Pushes each record of the snapshot onto the bucket its type names. */
  method Classify(snapshot: Option<TraceEvent>) returns (b: Buckets)
    ensures b == Classified(RecordsOf(snapshot))
  {
    var stats := RecordsOf(snapshot);
    var inbound, outbound, datachannel := [], [], [];
    var i := 0;
    BucketTypesDistinct();
    while i < |stats|
      invariant 0 <= i <= |stats|
      invariant inbound == OfType(stats[..i], InboundRtp)
      invariant outbound == OfType(stats[..i], OutboundRtp)
      invariant datachannel == OfType(stats[..i], DataChannel)
    {
      var r := stats[i];
      OfTypeStep(stats, i, InboundRtp);
      OfTypeStep(stats, i, OutboundRtp);
      OfTypeStep(stats, i, DataChannel);
      if r.statsType == InboundRtp {
        inbound := inbound + [r];
      } else if r.statsType == OutboundRtp {
        outbound := outbound + [r];
      } else if r.statsType == DataChannel {
        datachannel := datachannel + [r];
      }
      i := i + 1;
    }
    assert stats[..|stats|] == stats;
    b := Buckets(inbound, outbound, datachannel);
  }

  lemma OfTypeStep(rs: seq<StatsRecord>, i: nat, t: string)
    requires i < |rs|
    ensures OfType(rs[..i + 1], t) == OfType(rs[..i], t) + (if rs[i].statsType == t then [rs[i]] else [])
  {
    assert rs[..i + 1][..i] == rs[..i];
  }

  /** Selecting by type distributes over concatenation, so snapshot order is kept. */
  lemma {:induction false} OfTypeAppend(a: seq<StatsRecord>, b: seq<StatsRecord>, t: string)
    ensures OfType(a + b, t) == OfType(a, t) + OfType(b, t)
    decreases |b|
  {
    if b == [] {
      assert a + b == a;
    } else {
      var b' := b[..|b| - 1];
      assert (a + b)[..|a + b| - 1] == a + b';
      OfTypeAppend(a, b', t);
    }
  }

  /** A record occurs in `OfType(rs, t)` as often as in `rs` if its type is `t`, and never otherwise. */
  lemma {:induction false} OfTypeCount(rs: seq<StatsRecord>, t: string, x: StatsRecord)
    ensures multiset(OfType(rs, t))[x] == if x.statsType == t then multiset(rs)[x] else 0
    decreases |rs|
  {
    if rs != [] {
      var rs' := rs[..|rs| - 1];
      assert rs == rs' + [rs[|rs| - 1]];
      OfTypeCount(rs', t, x);
    }
  }

  /**
   * Classification is a partition of the bucketed types: each record lands in
   * exactly the bucket its type names, as often as it occurs in the snapshot,
   * and a record of any other type lands in none.
   */
  lemma ClassifiedPartition(rs: seq<StatsRecord>, x: StatsRecord)
    ensures var b := Classified(rs);
      && multiset(b.inbound)[x] == (if x.statsType == InboundRtp then multiset(rs)[x] else 0)
      && multiset(b.outbound)[x] == (if x.statsType == OutboundRtp then multiset(rs)[x] else 0)
      && multiset(b.datachannel)[x] == (if x.statsType == DataChannel then multiset(rs)[x] else 0)
  {
    OfTypeCount(rs, InboundRtp, x);
    OfTypeCount(rs, OutboundRtp, x);
    OfTypeCount(rs, DataChannel, x);
  }

  /** A missing snapshot, or one that is not a statistics map, gives three empty buckets. */
  lemma NoSnapshotEmptyBuckets(snapshot: Option<TraceEvent>)
    requires snapshot.None? || !snapshot.value.value.Stats?
    ensures Classified(RecordsOf(snapshot)) == Buckets([], [], [])
  {
  }
}
