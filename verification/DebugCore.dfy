/** The debug core between its message sources and the byte stream: arbitration, message queue and
    packetizer, one clock step at a time. */
module DebugCore {
  import opened Bytes
  import opened Wrappers
  import opened DebugProtocol

  /** A message as it is queued: 32 payload bytes of which the first `len` count. */
  datatype Msg = Msg(kind: byte, len: byte, payload: seq<byte>)

  const PAYLOAD_BYTES := 32

  predicate WellSized(m: Msg) {
    |m.payload| == PAYLOAD_BYTES
  }

  predicate Fits(m: Msg) {
    WellSized(m) && m.len <= MAX_PAYLOAD
  }

  /** The frame of a message. */
  function FrameOf(m: Msg): seq<byte> {
    if Fits(m) then Frame(m.kind, m.payload[..m.len]) else []
  }

  function FramesOf(messages: seq<Msg>): seq<byte> {
    if messages == [] then [] else FrameOf(messages[0]) + FramesOf(messages[1..])
  }

  lemma {:induction false} FramesOfAppend(a: seq<Msg>, b: seq<Msg>)
    ensures FramesOf(a + b) == FramesOf(a) + FramesOf(b)
    decreases |a|
  {
    if a == [] {
      assert a + b == b;
    } else {
      assert (a + b)[1..] == a[1..] + b;
      FramesOfAppend(a[1..], b);
      Associate(FrameOf(a[0]), FramesOf(a[1..]), FramesOf(b));
    }
  }

  // ------------------------------------------------------------------------- inputs

  /** Everything the core sees in one clock cycle besides its own registers. The handshaked sources and
      the trace adapter's drop pulse come from modules outside this model. */
  datatype Inputs = Inputs(
    timestamp: u32,
    heartbeat: bool,
    status: bool,
    event: Option<EventInput>,
    watch: Option<WatchInput>,
    print_: Option<PrintInput>,
    monitor: Option<Msg>,
    trace: Option<Msg>,
    traceDropped: bool,
    la: Option<Msg>,
    profiler: Option<Msg>,
    byteReady: bool)

  datatype EventInput = EventInput(id: u16, level: byte, arg0: u32)
  datatype WatchInput = WatchInput(id: u16, value: u32)
  datatype PrintInput = PrintInput(id: u16, arg0: u32, arg1: u32)

  predicate ValidInputs(i: Inputs) {
    && (i.monitor.Some? ==> WellSized(i.monitor.value))
    && (i.trace.Some? ==> WellSized(i.trace.value))
    && (i.la.Some? ==> WellSized(i.la.value))
    && (i.profiler.Some? ==> WellSized(i.profiler.value))
  }

  function Padded(bytes: seq<byte>): (payload: seq<byte>)
    requires |bytes| <= PAYLOAD_BYTES
    ensures |payload| == PAYLOAD_BYTES && payload[..|bytes|] == bytes
  {
    bytes + seq(PAYLOAD_BYTES - |bytes|, _ => 0)
  }

  const HEARTBEAT: byte := 0x01
  const DEBUG_PRINT: byte := 0x02
  const EVENT: byte := 0x03
  const WATCH: byte := 0x04
  const STATUS: byte := 0x05

  function Message(kind: byte, bytes: seq<byte>): (m: Msg)
    requires |bytes| <= PAYLOAD_BYTES
    ensures Fits(m)
  {
    Msg(kind, |bytes|, Padded(bytes))
  }

  // --------------------------------------------------------------------- arbitration

  datatype Source = Monitor | Event | Watch | Print | Heartbeat | Status | Trace | Analyzer | Profiler

  predicate IsLegacy(s: Source) {
    s == Event || s == Watch || s == Print || s == Heartbeat || s == Status
  }

  predicate LegacyValid(i: Inputs) {
    i.event.Some? || i.watch.Some? || i.print_.Some? || i.heartbeat || i.status
  }

  /** A pulse of the source in this cycle; the handshaked sources have none. */
  predicate HasPulse(i: Inputs, s: Source) {
    match s
    case Event => i.event.Some?
    case Watch => i.watch.Some?
    case Print => i.print_.Some?
    case Heartbeat => i.heartbeat
    case Status => i.status
    case _ => false
  }

  function LegacyPulses(i: Inputs): nat {
    (if i.event.Some? then 1 else 0) + (if i.watch.Some? then 1 else 0) + (if i.print_.Some? then 1 else 0)
    + (if i.heartbeat then 1 else 0) + (if i.status then 1 else 0)
  }

  /** The registers the STATUS message reports. */
  datatype Report = Report(bufferUsed: u16, dropCount: u16, packetCount: u16)

  /** The message written to the queue in this cycle, if the queue takes it, and whose it is. */
  function Arbitrate(i: Inputs, streamReady: bool, report: Report): Option<(Source, Msg)> {
    if i.monitor.Some? then Some((Monitor, i.monitor.value))
    else if i.event.Some? then
      var e := i.event.value;
      Some((Event, Message(EVENT, U32(i.timestamp) + U16(e.id) + [e.level] + U32(e.arg0))))
    else if i.watch.Some? then
      var w := i.watch.value;
      Some((Watch, Message(WATCH, U32(i.timestamp) + U16(w.id) + U32(w.value))))
    else if i.print_.Some? then
      var p := i.print_.value;
      Some((Print, Message(DEBUG_PRINT, U32(i.timestamp) + U16(p.id) + U32(p.arg0) + U32(p.arg1))))
    else if i.heartbeat then Some((Heartbeat, Message(HEARTBEAT, U32(i.timestamp))))
    else if i.status then
      Some((Status, Message(STATUS, U32(i.timestamp) + U16(report.bufferUsed) + U16(report.dropCount) + U16(report.packetCount))))
    else if i.trace.Some? && streamReady then Some((Trace, i.trace.value))
    else if i.la.Some? && streamReady then Some((Analyzer, i.la.value))
    else if i.profiler.Some? && streamReady then Some((Profiler, i.profiler.value))
    else None
  }

  // ------------------------------------------------------------------- the packetizer

  /** Bytes of the current frame that were not taken yet; `loaded` says whether the first of them is
      already offered. */
  datatype Packetizer = Packetizer(pending: seq<byte>, loaded: bool)

  predicate Takes(p: Packetizer, m: Msg) {
    p.pending == [] && m.len <= MAX_PAYLOAD
  }

  function PacketizerNext(p: Packetizer, offered: Option<Msg>, ready: bool): Packetizer {
    if p.pending == [] then
      if offered.Some? && Takes(p, offered.value) then Packetizer(FrameOf(offered.value), false) else Packetizer([], false)
    else if !p.loaded then Packetizer(p.pending, true)
    else if !ready then p
    else Packetizer(p.pending[1..], p.pending[1..] != [])
  }

  /** The byte taken by the receiver in this cycle. */
  function Taken(p: Packetizer, ready: bool): seq<byte> {
    if p.loaded && ready && p.pending != [] then [p.pending[0]] else []
  }

  // ------------------------------------------------------------------------ the core

  /** Queue, packetizer, and unbounded counts of everything since reset; the hardware counters are
      remainders of these. */
  datatype Core = Core(
    depth: nat, queue: seq<Msg>, packetizer: Packetizer,
    accepted: seq<Msg>, transferred: seq<byte>,
    legacyPulses: nat, legacyAccepted: nat, traceDrops: nat)

  function Low16(n: nat): u16 {
    if n < U16_MODULUS then n else Low16(n - U16_MODULUS)
  }

  function Dropped(c: Core): int {
    c.legacyPulses - c.legacyAccepted + c.traceDrops
  }

  ghost predicate Sound(c: Core) {
    && 4 <= c.depth < U16_MODULUS
    && |c.queue| <= c.depth
    && (forall m | m in c.queue :: WellSized(m))
    && c.legacyAccepted <= c.legacyPulses
    && (c.packetizer.loaded ==> c.packetizer.pending != [])
  }

  function AfterReset(depth: nat): Core {
    Core(depth, [], Packetizer([], false), [], [], 0, 0, 0)
  }

  function Offered(c: Core): Option<Msg> {
    if c.queue == [] then None else Some(c.queue[0])
  }

  /** The packetizer takes the head of the queue in this cycle. */
  predicate Reads(c: Core) {
    c.queue != [] && Takes(c.packetizer, c.queue[0])
  }

  /** The queue can take a message, in a full queue only because one leaves at the same time. */
  predicate WriteReady(c: Core) {
    |c.queue| < c.depth || Reads(c)
  }

  predicate StreamReady(c: Core) {
    WriteReady(c) && |c.queue| < c.depth - 2
  }

  function ReportOf(c: Core): Report
    requires Sound(c)
  {
    Report(|c.queue|, Low16(Dropped(c)), Low16(|c.accepted|))
  }

  /** Who gets a message into the queue in this cycle. */
  function Enqueued(c: Core, i: Inputs): Option<(Source, Msg)>
    requires Sound(c)
  {
    var candidate := Arbitrate(i, StreamReady(c), ReportOf(c));
    if WriteReady(c) then candidate else None
  }

  function Next(c: Core, i: Inputs): (d: Core)
    requires Sound(c) && ValidInputs(i)
    ensures Sound(d)
  {
    var e := Enqueued(c, i);
    var written := if e.Some? then [e.value.1] else [];
    var left := if Reads(c) then c.queue[1..] else c.queue;
    c.(queue := left + written,
       packetizer := PacketizerNext(c.packetizer, Offered(c), i.byteReady),
       accepted := c.accepted + written,
       transferred := c.transferred + Taken(c.packetizer, i.byteReady),
       legacyPulses := c.legacyPulses + LegacyPulses(i),
       legacyAccepted := c.legacyAccepted + (if e.Some? && IsLegacy(e.value.0) then 1 else 0),
       traceDrops := c.traceDrops + (if i.traceDropped then 1 else 0))
  }

  predicate AllValid(inputs: seq<Inputs>) {
    forall k | 0 <= k < |inputs| :: ValidInputs(inputs[k])
  }

  function Run(c: Core, inputs: seq<Inputs>): (d: Core)
    requires Sound(c) && AllValid(inputs)
    ensures Sound(d)
    decreases |inputs|
  {
    if inputs == [] then c else Run(Next(c, inputs[0]), inputs[1..])
  }

  // ------------------------------------------------------- the sources' ready signals

  predicate MonitorReady(c: Core) {
    WriteReady(c)
  }

  predicate TraceReady(c: Core, i: Inputs) {
    StreamReady(c) && i.monitor.None? && !LegacyValid(i)
  }

  predicate AnalyzerReady(c: Core, i: Inputs) {
    StreamReady(c) && i.monitor.None? && !LegacyValid(i) && i.trace.None?
  }

  predicate ProfilerReady(c: Core, i: Inputs) {
    StreamReady(c) && i.monitor.None? && !LegacyValid(i) && i.trace.None? && i.la.None?
  }
}
