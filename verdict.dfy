/**
 * The connection test verdict (main.js `generateReport` without its DOM): each
 * connection's ICE/connection state changes are collected, and the connection
 * passes when it reached "connected" or "completed" and never "failed"; the
 * dump passes when every connection does.
 */
module Verdict {
  import opened Traces

  /** State-change event types of the rtcstats event-log format. */
  const RtcStatsStateEvents: set<string> := {"oniceconnectionstatechange", "onconnectionstatechange"}
  /** State-change event types of the webrtc-internals update log. */
  const InternalsStateEvents: set<string> := {"iceconnectionstatechange", "connectionstatechange"}

  const Connected := "connected"
  const Completed := "completed"
  const Failed := "failed"

  /** The event types that record a state change in the dump's format. */
  function StateEvents(d: Dump): set<string> {
    if d.InternalsDump? then InternalsStateEvents else RtcStatsStateEvents
  }

  /**
   * `String(ev.value || '')`: a missing value is the empty string and a
   * statistics object prints as "[object Object]".
   */
  function StateText(v: EventValue): (r: string)
    ensures v.Text? ==> r == v.text
    ensures !v.Text? ==> '"' !in r && r != Connected && r != Completed && r != Failed
  {
    match v
    case Text(s) => s
    case Absent => ""
    case Stats(_) => "[object Object]"
  }

  /** `replace(/"/g, '')`: every double quote removed, the other characters kept in order. */
  function StripQuotes(s: string): (r: string)
    ensures '"' !in r
    ensures |r| <= |s|
    decreases |s|
  {
    if s == [] then []
    else (if s[0] == '"' then [] else [s[0]]) + StripQuotes(s[1..])
  }

  /** The recorded states: the quote-stripped values of the state-change events, in trace order. */
  function States(trace: seq<TraceEvent>, kinds: set<string>): seq<string>
    decreases |trace|
  {
    if trace == [] then []
    else
      var e := trace[|trace| - 1];
      States(trace[..|trace| - 1], kinds) + (if e.eventType in kinds then [StripQuotes(StateText(e.value))] else [])
  }

  /** A connection passes iff it reached connected or completed and never failed. */
  predicate Passes(states: seq<string>) {
    (Connected in states || Completed in states) && Failed !in states
  }

  /** The per-connection loop: records each state and sets the three flags. */
  method ConnectionVerdict(trace: seq<TraceEvent>, kinds: set<string>) returns (states: seq<string>, pass: bool)
    ensures states == States(trace, kinds)
    ensures pass <==> (Connected in states || Completed in states) && Failed !in states
  {
    states := [];
    var connected, completed, failed := false, false, false;
    var i := 0;
    while i < |trace|
      invariant 0 <= i <= |trace|
      invariant states == States(trace[..i], kinds)
      invariant connected <==> Connected in states
      invariant completed <==> Completed in states
      invariant failed <==> Failed in states
    {
      var ev := trace[i];
      assert trace[..i + 1][..i] == trace[..i];
      if ev.eventType in kinds {
        var v := StripQuotes(StateText(ev.value));
        states := states + [v];
        if v == Connected { connected := true; }
        if v == Completed { completed := true; }
        if v == Failed { failed := true; }
      }
      i := i + 1;
    }
    assert trace[..|trace|] == trace;
    pass := (connected || completed) && !failed;
  }

  datatype VerdictRow = VerdictRow(id: string, states: seq<string>, pass: bool)

  function RowOf(c: (string, seq<TraceEvent>), kinds: set<string>): VerdictRow {
    var states := States(c.1, kinds);
    VerdictRow(c.0, states, Passes(states))
  }

  function Rows(cs: seq<(string, seq<TraceEvent>)>, kinds: set<string>): seq<VerdictRow>
    decreases |cs|
  {
    if cs == [] then [] else Rows(cs[..|cs| - 1], kinds) + [RowOf(cs[|cs| - 1], kinds)]
  }

  /** One row per connection of the dump; none when it holds neither data shape. */
  function VerdictRows(d: Dump): seq<VerdictRow> {
    Rows(ConnectionTraces(d), StateEvents(d))
  }

  predicate AllPass(rows: seq<VerdictRow>) {
    forall k :: 0 <= k < |rows| ==> rows[k].pass
  }

  lemma RowsStep(cs: seq<(string, seq<TraceEvent>)>, i: nat, kinds: set<string>)
    requires i < |cs|
    ensures Rows(cs[..i + 1], kinds) == Rows(cs[..i], kinds) + [RowOf((cs[i].0, cs[i].1), kinds)]
  {
    assert cs[..i + 1][..i] == cs[..i];
  }

  lemma AllPassAppend(rows: seq<VerdictRow>, row: VerdictRow)
    ensures AllPass(rows + [row]) <==> AllPass(rows) && row.pass
  {
    assert forall k :: 0 <= k < |rows| ==> (rows + [row])[k] == rows[k];
    assert (rows + [row])[|rows|] == row;
  }

  /** Walks the connections in order, folding each verdict into `overallPass`. */
  method TestReport(d: Dump) returns (rows: seq<VerdictRow>, overallPass: bool)
    ensures rows == VerdictRows(d)
    ensures overallPass <==> forall k :: 0 <= k < |rows| ==> rows[k].pass
  {
    overallPass := true;
    rows := [];
    var connections := ConnectionTraces(d);
    var kinds := StateEvents(d);
    var i := 0;
    while i < |connections|
      invariant 0 <= i <= |connections|
      invariant rows == Rows(connections[..i], kinds)
      invariant overallPass <==> AllPass(rows)
    {
      var states, pass := ConnectionVerdict(connections[i].1, kinds);
      var row := VerdictRow(connections[i].0, states, pass);
      RowsStep(connections, i, kinds);
      AllPassAppend(rows, row);
      overallPass := overallPass && pass;
      rows := rows + [row];
      i := i + 1;
    }
    assert connections[..|connections|] == connections;
  }

  // ---------------------------------------------------------------------------
  // Quote stripping

  lemma {:induction false} StripQuotesAppend(a: string, b: string)
    ensures StripQuotes(a + b) == StripQuotes(a) + StripQuotes(b)
    decreases |a|
  {
    if a != [] {
      assert (a + b)[1..] == a[1..] + b;
      StripQuotesAppend(a[1..], b);
    } else {
      assert a + b == b;
    }
  }

  /** A string without quotes is left as it is. */
  lemma {:induction false} StripQuotesUnquoted(s: string)
    requires '"' !in s
    ensures StripQuotes(s) == s
    decreases |s|
  {
    if s != [] {
      StripQuotesUnquoted(s[1..]);
    }
  }

  /**
   * Exactly the quotes are removed: every other character keeps its count,
   * so the result is shorter by the number of quotes.
   */
  lemma {:induction false} StripQuotesRemovesQuotes(s: string)
    ensures multiset(StripQuotes(s)) == multiset(s)['"' := 0]
    ensures |StripQuotes(s)| == |s| - multiset(s)['"']
    decreases |s|
  {
    if s != [] {
      assert s == [s[0]] + s[1..];
      StripQuotesRemovesQuotes(s[1..]);
    }
  }

  /** A quoted state, as the event-log format records it, loses exactly its two quotes. */
  lemma StripQuotesQuoted(s: string)
    requires '"' !in s
    ensures StripQuotes("\"" + s + "\"") == s
  {
    StripQuotesAppend("\"" + s, "\"");
    StripQuotesAppend("\"", s);
    StripQuotesUnquoted(s);
    assert StripQuotes("\"") == [] + StripQuotes([]);
  }

  /** Stripping twice is stripping once. */
  lemma StripQuotesIdempotent(s: string)
    ensures StripQuotes(StripQuotes(s)) == StripQuotes(s)
  {
    StripQuotesUnquoted(StripQuotes(s));
  }

  // ---------------------------------------------------------------------------
  // Recorded states

  /** Recording distributes over concatenation: states appear in trace order. */
  lemma {:induction false} StatesAppend(a: seq<TraceEvent>, b: seq<TraceEvent>, kinds: set<string>)
    ensures States(a + b, kinds) == States(a, kinds) + States(b, kinds)
    decreases |b|
  {
    if b == [] {
      assert a + b == a;
    } else {
      var b' := b[..|b| - 1];
      assert (a + b)[..|a + b| - 1] == a + b';
      StatesAppend(a, b', kinds);
    }
  }

  /** A state is recorded iff some state-change event carries it once quotes are stripped. */
  lemma {:induction false} StatesMembership(trace: seq<TraceEvent>, kinds: set<string>, s: string)
    ensures s in States(trace, kinds) <==>
      exists k :: 0 <= k < |trace| && trace[k].eventType in kinds && StripQuotes(StateText(trace[k].value)) == s
    decreases |trace|
  {
    if trace != [] {
      var t' := trace[..|trace| - 1];
      StatesMembership(t', kinds, s);
      if s in States(t', kinds) {
        var k :| 0 <= k < |t'| && t'[k].eventType in kinds && StripQuotes(StateText(t'[k].value)) == s;
        assert trace[k] == t'[k];
      }
      if exists k :: 0 <= k < |trace| && trace[k].eventType in kinds && StripQuotes(StateText(trace[k].value)) == s {
        var k :| 0 <= k < |trace| && trace[k].eventType in kinds && StripQuotes(StateText(trace[k].value)) == s;
        if k < |t'| {
          assert t'[k] == trace[k];
        }
      }
    }
  }

  /** Events of any other type leave the recorded states, and so the verdict, unchanged. */
  lemma OtherEventsIgnored(a: seq<TraceEvent>, e: TraceEvent, b: seq<TraceEvent>, kinds: set<string>)
    requires e.eventType !in kinds
    ensures States(a + [e] + b, kinds) == States(a + b, kinds)
  {
    StatesAppend(a + [e], b, kinds);
    StatesAppend(a, [e], kinds);
    StatesAppend(a, b, kinds);
    assert [e][..0] == [];
  }

  /** The verdict does not depend on the order of the events: any rearrangement gives the same one. */
  lemma VerdictOrderIndependent(t1: seq<TraceEvent>, t2: seq<TraceEvent>, kinds: set<string>)
    requires multiset(t1) == multiset(t2)
    ensures Passes(States(t1, kinds)) == Passes(States(t2, kinds))
  {
    forall s | s in [Connected, Completed, Failed]
      ensures s in States(t1, kinds) <==> s in States(t2, kinds)
    {
      StatesMembership(t1, kinds, s);
      StatesMembership(t2, kinds, s);
      if exists k :: 0 <= k < |t1| && t1[k].eventType in kinds && StripQuotes(StateText(t1[k].value)) == s {
        var k :| 0 <= k < |t1| && t1[k].eventType in kinds && StripQuotes(StateText(t1[k].value)) == s;
        assert t1[k] in multiset(t2);
        var j :| 0 <= j < |t2| && t2[j] == t1[k];
      }
      if exists k :: 0 <= k < |t2| && t2[k].eventType in kinds && StripQuotes(StateText(t2[k].value)) == s {
        var k :| 0 <= k < |t2| && t2[k].eventType in kinds && StripQuotes(StateText(t2[k].value)) == s;
        assert t2[k] in multiset(t1);
        var j :| 0 <= j < |t1| && t1[j] == t2[k];
      }
    }
  }

  /**
   * A state-change event without a text value (missing, or a statistics
   * object) records a state that is none of connected, completed or failed.
   */
  lemma NonTextStateIsNeutral(v: EventValue)
    requires !v.Text?
    ensures var s := StripQuotes(StateText(v)); s != Connected && s != Completed && s != Failed
  {
    StripQuotesUnquoted(StateText(v));
  }

  /** A single "failed" state change anywhere in a trace fails the connection. */
  lemma FailedForcesFail(trace: seq<TraceEvent>, kinds: set<string>, k: nat)
    requires k < |trace| && trace[k].eventType in kinds
    requires StripQuotes(StateText(trace[k].value)) == Failed
    ensures !Passes(States(trace, kinds))
  {
    StatesMembership(trace, kinds, Failed);
  }

  lemma {:induction false} RowsAt(cs: seq<(string, seq<TraceEvent>)>, kinds: set<string>)
    ensures |Rows(cs, kinds)| == |cs|
    ensures forall k :: 0 <= k < |cs| ==> Rows(cs, kinds)[k] == RowOf(cs[k], kinds)
    decreases |cs|
  {
    if cs != [] {
      RowsAt(cs[..|cs| - 1], kinds);
    }
  }

  /**
   * The overall verdict fails as soon as one connection's trace holds a
   * "failed" state change.
   */
  lemma OneFailureFailsOverall(d: Dump, c: nat, k: nat)
    requires c < |ConnectionTraces(d)|
    requires var trace := ConnectionTraces(d)[c].1;
      k < |trace| && trace[k].eventType in StateEvents(d) && StripQuotes(StateText(trace[k].value)) == Failed
    ensures c < |VerdictRows(d)| && !VerdictRows(d)[c].pass
  {
    RowsAt(ConnectionTraces(d), StateEvents(d));
    FailedForcesFail(ConnectionTraces(d)[c].1, StateEvents(d), k);
  }

  /** With no connections, or with neither data shape, the overall verdict is PASS. */
  lemma NoConnectionsPass(d: Dump)
    requires ConnectionTraces(d) == []
    ensures VerdictRows(d) == []
  {
  }
}
