/** The core's own messages as the viewer reads them. */
module CoreMessages {
  import opened Bytes
  import opened Wrappers
  import opened DebugCore

  /** What the viewer shows for the core's message types. */
  datatype Shown =
    | ShownHeartbeat(timestamp: u32)
    | ShownPrint(timestamp: u32, id: u16, arg0: u32, arg1: u32)
    | ShownEvent(timestamp: u32, id: u16, level: byte, arg0: u32)
    | ShownWatch(timestamp: u32, id: u16, value: u32)
    | ShownStatus(timestamp: u32, report: Report)

  /** The branches of `decodeFrame` for these types; shorter payloads are not shown. */
  function Show(kind: byte, payload: seq<byte>): Option<Shown> {
    if kind == 0x01 && 4 <= |payload| then Some(ShownHeartbeat(ReadU32(payload, 0)))
    else if kind == 0x02 && 14 <= |payload| then
      Some(ShownPrint(ReadU32(payload, 0), ReadU16(payload, 4), ReadU32(payload, 6), ReadU32(payload, 10)))
    else if kind == 0x03 && 11 <= |payload| then
      Some(ShownEvent(ReadU32(payload, 0), ReadU16(payload, 4), payload[6], ReadU32(payload, 7)))
    else if kind == 0x04 && 10 <= |payload| then
      Some(ShownWatch(ReadU32(payload, 0), ReadU16(payload, 4), ReadU32(payload, 6)))
    else if kind == 0x05 && 10 <= |payload| then
      Some(ShownStatus(ReadU32(payload, 0), Report(ReadU16(payload, 4), ReadU16(payload, 6), ReadU16(payload, 8))))
    else None
  }

  /** What a source asked the core to report. */
  function Asked(i: Inputs, s: Source, report: Report): Option<Shown> {
    match s
    case Heartbeat => Some(ShownHeartbeat(i.timestamp))
    case Print =>
      if i.print_.None? then None
      else Some(ShownPrint(i.timestamp, i.print_.value.id, i.print_.value.arg0, i.print_.value.arg1))
    case Event =>
      if i.event.None? then None
      else Some(ShownEvent(i.timestamp, i.event.value.id, i.event.value.level, i.event.value.arg0))
    case Watch =>
      if i.watch.None? then None else Some(ShownWatch(i.timestamp, i.watch.value.id, i.watch.value.value))
    case Status => Some(ShownStatus(i.timestamp, report))
    case _ => None
  }

  lemma HeartbeatIsShown(timestamp: u32)
    ensures Show(HEARTBEAT, U32(timestamp)) == Some(ShownHeartbeat(timestamp))
  {
    ReadU32At([], timestamp, []);
    assert [] + U32(timestamp) + [] == U32(timestamp);
  }

  lemma EventIsShown(timestamp: u32, id: u16, level: byte, arg0: u32)
    ensures Show(EVENT, U32(timestamp) + U16(id) + [level] + U32(arg0)) == Some(ShownEvent(timestamp, id, level, arg0))
  {
    var t, n, l, a := U32(timestamp), U16(id), [level], U32(arg0);
    var p := t + n + l + a;
    ReadU32At([], timestamp, n + l + a);
    assert [] + t + (n + l + a) == p;
    ReadU16At(t, id, l + a);
    assert t + n + (l + a) == p;
    ReadU32At(t + n + l, arg0, []);
    assert t + n + l + a + [] == p;
  }

  lemma WatchIsShown(timestamp: u32, id: u16, value: u32)
    ensures Show(WATCH, U32(timestamp) + U16(id) + U32(value)) == Some(ShownWatch(timestamp, id, value))
  {
    var t, n, v := U32(timestamp), U16(id), U32(value);
    var p := t + n + v;
    ReadU32At([], timestamp, n + v);
    assert [] + t + (n + v) == p;
    ReadU16At(t, id, v);
    ReadU32At(t + n, value, []);
    assert t + n + v + [] == p;
  }

  lemma PrintIsShown(timestamp: u32, id: u16, arg0: u32, arg1: u32)
    ensures Show(DEBUG_PRINT, U32(timestamp) + U16(id) + U32(arg0) + U32(arg1)) ==
            Some(ShownPrint(timestamp, id, arg0, arg1))
  {
    var t, n, a, b := U32(timestamp), U16(id), U32(arg0), U32(arg1);
    var p := t + n + a + b;
    ReadU32At([], timestamp, n + a + b);
    assert [] + t + (n + a + b) == p;
    ReadU16At(t, id, a + b);
    assert t + n + (a + b) == p;
    ReadU32At(t + n, arg0, b);
    ReadU32At(t + n + a, arg1, []);
    assert t + n + a + b + [] == p;
  }

  lemma StatusIsShown(timestamp: u32, report: Report)
    ensures Show(STATUS, U32(timestamp) + U16(report.bufferUsed) + U16(report.dropCount) + U16(report.packetCount)) ==
            Some(ShownStatus(timestamp, report))
  {
    var t, u, d, c := U32(timestamp), U16(report.bufferUsed), U16(report.dropCount), U16(report.packetCount);
    var p := t + u + d + c;
    ReadU32At([], timestamp, u + d + c);
    assert [] + t + (u + d + c) == p;
    ReadU16At(t, report.bufferUsed, d + c);
    assert t + u + (d + c) == p;
    ReadU16At(t + u, report.dropCount, c);
    ReadU16At(t + u + d, report.packetCount, []);
    assert t + u + d + c + [] == p;
  }

  /** Whatever pulse the arbiter selects: the payload of the message it enqueues is shown by the viewer with
      exactly the timestamp, identifier and arguments of that pulse, or the counters of that cycle. */
  lemma PulsesAreShownAsGiven(i: Inputs, streamReady: bool, report: Report)
    requires Arbitrate(i, streamReady, report).Some?
    requires Arbitrate(i, streamReady, report).value.0 !in {Monitor, Trace, Analyzer, Profiler}
    ensures var (s, m) := Arbitrate(i, streamReady, report).value;
            Fits(m) && Show(m.kind, m.payload[..m.len]) == Asked(i, s, report) && Asked(i, s, report).Some?
  {
    if i.event.Some? {
      EventIsShown(i.timestamp, i.event.value.id, i.event.value.level, i.event.value.arg0);
    } else if i.watch.Some? {
      WatchIsShown(i.timestamp, i.watch.value.id, i.watch.value.value);
    } else if i.print_.Some? {
      PrintIsShown(i.timestamp, i.print_.value.id, i.print_.value.arg0, i.print_.value.arg1);
    } else if i.heartbeat {
      HeartbeatIsShown(i.timestamp);
    } else {
      StatusIsShown(i.timestamp, report);
    }
  }

  /** A status message shows the occupancy of the queue, the drops and the packets of its cycle, the counters
      modulo 2^16. */
  lemma StatusShowsTheCounters(c: Core, i: Inputs)
    requires Sound(c) && Enqueued(c, i).Some? && Enqueued(c, i).value.0 == Status
    ensures var m := Enqueued(c, i).value.1;
            Show(m.kind, m.payload[..m.len]) ==
            Some(ShownStatus(i.timestamp, Report(|c.queue|, Dropped(c) % U16_MODULUS, |c.accepted| % U16_MODULUS)))
  {
    PulsesAreShownAsGiven(i, StreamReady(c), ReportOf(c));
    Low16IsRemainder(Dropped(c));
    Low16IsRemainder(|c.accepted|);
  }

  lemma {:induction false} Low16IsRemainder(n: nat)
    ensures Low16(n) == n % U16_MODULUS
  {
    if U16_MODULUS <= n {
      Low16IsRemainder(n - U16_MODULUS);
    }
  }

  // ------------------------------------------------------------------------ priority

  /** The place of a source in the order of priority. */
  function Rank(s: Source): nat {
    match s
    case Monitor => 0
    case Event => 1
    case Watch => 2
    case Print => 3
    case Heartbeat => 4
    case Status => 5
    case Trace => 6
    case Analyzer => 7
    case Profiler => 8
  }

  /** The source has a message, and for a stream the queue has headroom. */
  predicate Wants(i: Inputs, streamReady: bool, s: Source) {
    match s
    case Monitor => i.monitor.Some?
    case Event => i.event.Some?
    case Watch => i.watch.Some?
    case Print => i.print_.Some?
    case Heartbeat => i.heartbeat
    case Status => i.status
    case Trace => i.trace.Some? && streamReady
    case Analyzer => i.la.Some? && streamReady
    case Profiler => i.profiler.Some? && streamReady
  }

  /** The arbiter selects the first source in the order of priority that wants a place, and none only if
      none does. */
  lemma FirstInOrderWins(i: Inputs, streamReady: bool, report: Report, s: Source)
    ensures Wants(i, streamReady, s) ==> Arbitrate(i, streamReady, report).Some?
    ensures Arbitrate(i, streamReady, report).Some? ==>
              var winner := Arbitrate(i, streamReady, report).value.0;
              Wants(i, streamReady, winner) && (Wants(i, streamReady, s) ==> Rank(winner) <= Rank(s))
  {
  }

  /** There is a place in the queue for a message of the source: for a stream two more stay free, for any other one
      place is enough, or one that is freed in the same cycle. */
  predicate HasPlace(c: Core, s: Source)
    requires Sound(c)
  {
    if s == Trace || s == Analyzer || s == Profiler then |c.queue| + 2 < c.depth
    else |c.queue| < c.depth || (c.packetizer.pending == [] && c.queue[0].len <= 32)
  }

  /** Exactly when a source gets its message into the queue: it has one, no source of higher priority has, and there
      is a place. */
  lemma IsAdmittedIff(c: Core, i: Inputs, s: Source)
    requires Sound(c)
    ensures Enqueued(c, i).Some? && Enqueued(c, i).value.0 == s <==>
              && Wants(i, true, s) && HasPlace(c, s)
              && forall t: Source | Rank(t) < Rank(s) :: !Wants(i, true, t)
  {
    var ready, report := StreamReady(c), ReportOf(c);
    FirstInOrderWins(i, ready, report, s);
    forall t: Source
      ensures Wants(i, ready, t) ==> Arbitrate(i, ready, report).Some? && Rank(Arbitrate(i, ready, report).value.0) <= Rank(t)
    {
      FirstInOrderWins(i, ready, report, t);
    }
  }
}
