/**
 * The already-parsed dump that both report generators read: statistics records,
 * trace events and the two dump shapes (the rtcstats event-log format and the
 * webrtc-internals format), tagged once by the format detectors upstream.
 */
module Traces {
  import opened Wrappers

  /**
   * One statistics record of a getStats snapshot. Each numeric field is `Some`
   * exactly when the JavaScript value has `typeof === 'number'`; `statsType` is
   * the record's `type` string.
   */
  datatype StatsRecord = StatsRecord(
    statsType: string,
    jitter: Option<real>,
    packetsLost: Option<real>,
    packetsReceived: Option<real>,
    framesReceived: Option<real>,
    framesDropped: Option<real>,
    packetsSent: Option<real>,
    retransmittedPacketsSent: Option<real>,
    bytesSentPerSecond: Option<real>,            // the derived '[bytesSent/s]' field
    active: Option<bool>,
    qualityLimitationReason: Option<string>,
    kind: Option<string>,
    mid: Option<string>,
    codecId: Option<string>)

  /**
   * The payload of a trace event: a getStats snapshot (its records in
   * `Object.keys` order), a plain string, or nothing (undefined, null).
   */
  datatype EventValue = Stats(records: seq<StatsRecord>) | Text(text: string) | Absent

  datatype TraceEvent = TraceEvent(eventType: string, value: EventValue)

  /**
   * One connection of a webrtc-internals dump: its update log and its sparse
   * statistics dictionary (encoded key to encoded readings), which neither
   * report generator reads.
   */
  datatype InternalsConnection = InternalsConnection(updateLog: seq<TraceEvent>, stats: map<string, string>)

  /**
   * A dump as the importers hand it over: `peerConnections` (event-log format),
   * `PeerConnections` (internals format), data with neither key, or no data.
   */
  datatype Dump =
    | EventLogDump(peerConnections: seq<(string, seq<TraceEvent>)>)
    | InternalsDump(internalsConnections: seq<(string, InternalsConnection)>)
    | UnknownShape
    | NoData

  /**
   * The format switch: each connection's id and the event list that is searched,
   * which is the update log for the internals format and the trace itself otherwise.
   */
  function ConnectionTraces(d: Dump): (cs: seq<(string, seq<TraceEvent>)>)
    ensures d.EventLogDump? ==> cs == d.peerConnections
    ensures d.InternalsDump? ==> |cs| == |d.internalsConnections|
    ensures d.InternalsDump? ==> forall k :: 0 <= k < |cs| ==>
      cs[k] == (d.internalsConnections[k].0, d.internalsConnections[k].1.updateLog)
    ensures !d.EventLogDump? && !d.InternalsDump? ==> cs == []
  {
    match d
    case EventLogDump(pcs) => pcs
    case InternalsDump(pcs) =>
      seq(|pcs|, k requires 0 <= k < |pcs| => (pcs[k].0, pcs[k].1.updateLog))
    case UnknownShape => []
    case NoData => []
  }
}
