/** The FPGA's parser of Monitor requests: frames in, one held request out. */
module CommandParser {
  import opened Bytes
  import opened Wrappers
  import opened DebugProtocol
  import opened StreamScan

  datatype Request = Request(sequence: u16, address: u16, write: bool, width: byte, data: u32, mask: u32)

  datatype Reason = ChecksumError | BadLength | Unsupported

  datatype Event =
    | Skipped(value: byte)                      // not the start of a frame
    | Refused(raw: seq<byte>, reason: Reason)   // a frame, or its header, that is no request
    | Requested(request: Request)

  predicate IsWidth(width: byte) {
    width == 1 || width == 2 || width == 4
  }

  /** What a complete frame with the given parts means. */
  function Judge(kind: byte, payload: seq<byte>, checksum: byte, raw: seq<byte>): Event
    requires |payload| < 256
  {
    if checksum != XorFold(0, Body(kind, payload)) then Refused(raw, ChecksumError)
    else if kind != MONITOR_READ_REQ && kind != MONITOR_WRITE_REQ then Refused(raw, Unsupported)
    else if |payload| != (if kind == MONITOR_READ_REQ then 5 else 13) || !IsWidth(payload[4]) then Refused(raw, BadLength)
    else if kind == MONITOR_READ_REQ then
      Requested(Request(ReadU16(payload, 0), ReadU16(payload, 2), false, payload[4], 0, 0))
    else
      Requested(Request(ReadU16(payload, 0), ReadU16(payload, 2), true, payload[4], ReadU32(payload, 5), ReadU32(payload, 9)))
  }

  /** What the parser does with the bytes since it last expected a start byte. */
  function Next(b: seq<byte>): Verdict<Event> {
    if |b| == 0 then Wait
    else if b[0] != SOF then Take(1, Skipped(b[0]))
    else if |b| == 1 then Wait
    else if b[1] != VERSION then Take(1, Skipped(SOF))
    else if |b| < 4 then Wait
    else if b[3] > MAX_PAYLOAD then Take(4, Refused(b[..4], BadLength))
    else
      var total := b[3] as int + 5;
      if |b| < total then Wait else Take(total, Judge(b[2], b[4..total - 1], b[total - 1], b[..total]))
  }

  /** The frame that carries a request. */
  function RequestFrame(r: Request): seq<byte> {
    if r.write then
      Frame(MONITOR_WRITE_REQ, U16(r.sequence) + U16(r.address) + [r.width] + U32(r.data) + U32(r.mask))
    else
      Frame(MONITOR_READ_REQ, U16(r.sequence) + U16(r.address) + [r.width])
  }

  function Spelling(e: Event): seq<byte> {
    match e
    case Skipped(value) => [value]
    case Refused(raw, _) => raw
    case Requested(r) => RequestFrame(r)
  }

  function RequestsIn(events: seq<Event>): seq<Request> {
    if events == [] then []
    else (if events[0].Requested? then [events[0].request] else []) + RequestsIn(events[1..])
  }

  function ReasonsIn(events: seq<Event>): seq<Reason> {
    if events == [] then []
    else (if events[0].Refused? then [events[0].reason] else []) + ReasonsIn(events[1..])
  }

  // ----------------------------------------------------------------- clock by clock

  /** Byte arriving in this cycle, if any, and whether the Monitor takes a request. */
  datatype Inputs = Inputs(arriving: Option<byte>, ready: bool)

  /** `kept` are the bytes since the last start was expected, `held` is the request on offer, `reported`
      are the error pulses of this cycle; the rest records what happened since reset. */
  datatype Parser = Parser(
    kept: seq<byte>, held: Option<Request>, reported: seq<Reason>,
    consumed: seq<byte>, lost: nat, delivered: seq<Request>)

  const AFTER_RESET := Parser([], None, [], [], 0, [])

  /** A request is on offer and not taken in this cycle. */
  predicate Blocked(p: Parser, ready: bool) {
    p.held.Some? && !ready
  }

  function OnOffer(held: Option<Request>): seq<Request> {
    if held.Some? then [held.value] else []
  }

  function Step(p: Parser, i: Inputs): Parser {
    var taken := if i.ready then OnOffer(p.held) else [];
    var held := if i.ready then None else p.held;
    if i.arriving.None? then p.(held := held, reported := [], delivered := p.delivered + taken)
    else if Blocked(p, i.ready) then p.(reported := [], lost := p.lost + 1)
    else
      var scan := Scan(Next, p.kept + [i.arriving.value]);
      var raised := RequestsIn(scan.events);
      Parser(scan.rest, Latest(held, raised), ReasonsIn(scan.events),
             p.consumed + [i.arriving.value], p.lost, p.delivered + taken)
  }

  /** The output register after `raised` was written to it. */
  function Latest(held: Option<Request>, raised: seq<Request>): Option<Request> {
    if raised == [] then held else Some(raised[|raised| - 1])
  }

  function Run(p: Parser, inputs: seq<Inputs>): Parser
    decreases |inputs|
  {
    if inputs == [] then p else Run(Step(p, inputs[0]), inputs[1..])
  }

  /** The bytes that arrive in a run. */
  function Arriving(inputs: seq<Inputs>): seq<byte> {
    if inputs == [] then []
    else (if inputs[0].arriving.Some? then [inputs[0].arriving.value] else []) + Arriving(inputs[1..])
  }
}
