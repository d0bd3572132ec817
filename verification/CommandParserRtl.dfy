/** The registers of the command parser and its clock edge. */
module CommandParserRtl {
  import opened Bytes
  import opened Wrappers
  import opened DebugProtocol
  import opened StreamScan
  import opened CommandParser

  datatype State = ExpectSof | ExpectVersion | ExpectType | ExpectLen | InPayload | ExpectChecksum

  const REGISTER_BYTES := 32

  /** Scanning one complete event. */
  lemma ScanTakesAll(b: seq<byte>, e: Event)
    requires b != [] && Next(b) == Take(|b|, e)
    ensures Scan(Next, b) == Scanned([e], [])
    ensures RequestsIn([e]) == if e.Requested? then [e.request] else []
    ensures ReasonsIn([e]) == if e.Refused? then [e.reason] else []
  {
    assert b[|b|..] == [];
    assert Scan(Next, []) == Scanned([], []);
    assert [e][1..] == [];
  }

  /** A start byte that is not followed by the version: the second byte may itself be a start. */
  lemma FalseStart(x: byte)
    requires x != VERSION
    ensures var scan := Scan(Next, [SOF, x]);
            && scan.rest == (if x == SOF then [SOF] else [])
            && RequestsIn(scan.events) == [] && ReasonsIn(scan.events) == []
  {
    var b := [SOF, x];
    assert b[1..] == [x];
    var tail := Scan(Next, [x]);
    if x == SOF {
      assert tail == Scanned([], [SOF]);
    } else {
      ScanTakesAll([x], Skipped(x));
    }
    assert Scan(Next, b).events == [Skipped(SOF)] + tail.events;
    assert ([Skipped(SOF)] + tail.events)[1..] == tail.events;
  }

  lemma XorFoldOneMore(seed: byte, s: seq<byte>, x: byte)
    ensures XorFold(seed, s + [x]) == Xor(XorFold(seed, s), x)
  {
    XorFoldAppend(seed, s, [x]);
    assert [x][1..] == [];
  }

  /** The registers followed the scan of one more byte. */
  ghost predicate Absorbed(
    kept: seq<byte>, x: byte, after: seq<byte>, held: Option<Request>, latest: Option<Request>, reported: seq<Reason>)
  {
    var scan := Scan(Next, kept + [x]);
    && after == scan.rest
    && latest == Latest(held, RequestsIn(scan.events))
    && reported == ReasonsIn(scan.events)
  }

  lemma StepAbsorbs(p: Parser, i: Inputs, after: seq<byte>, latest: Option<Request>, reported: seq<Reason>)
    requires i.arriving.Some? && !Blocked(p, i.ready)
    requires Absorbed(p.kept, i.arriving.value, after, if i.ready then None else p.held, latest, reported)
    ensures Step(p, i).kept == after && Step(p, i).held == latest && Step(p, i).reported == reported
  {
  }

  lemma Waiting(kept: seq<byte>, x: byte, held: Option<Request>)
    requires Next(kept + [x]).Wait?
    ensures Absorbed(kept, x, kept + [x], held, held, [])
  {
  }

  lemma Finished(kept: seq<byte>, x: byte, held: Option<Request>, e: Event)
    requires Next(kept + [x]) == Take(|kept| + 1, e)
    ensures Absorbed(kept, x, [], held, if e.Requested? then Some(e.request) else held,
                     if e.Refused? then [e.reason] else [])
  {
  }

  // ---------------------------------------------------------------- the registers

  datatype Registers = Registers(
    state: State, frameType: byte, frameLen: byte, payloadIndex: nat, checksum: byte, payload: seq<byte>)

  /** The bytes since the last start was expected, as far as the state has come. */
  function KeptIn(r: Registers): seq<byte>
    requires r.payloadIndex <= |r.payload| && (r.state == ExpectChecksum ==> r.frameLen <= |r.payload|)
  {
    match r.state
    case ExpectSof => []
    case ExpectVersion => [SOF]
    case ExpectType => [SOF, VERSION]
    case ExpectLen => [SOF, VERSION, r.frameType]
    case InPayload => [SOF, VERSION, r.frameType, r.frameLen] + r.payload[..r.payloadIndex]
    case ExpectChecksum => [SOF, VERSION, r.frameType, r.frameLen] + r.payload[..r.frameLen]
  }

  /** The registers hold exactly the bytes `kept`, and the running checksum covers those after the start. */
  ghost predicate Represents(r: Registers, kept: seq<byte>) {
    && |r.payload| == REGISTER_BYTES && r.payloadIndex <= MAX_PAYLOAD
    && (r.state == InPayload || r.state == ExpectChecksum ==> r.frameLen <= MAX_PAYLOAD)
    && (r.state == InPayload ==> r.payloadIndex < r.frameLen)
    && kept == KeptIn(r)
    && (2 <= |kept| ==> r.checksum == XorFold(0, kept[1..]))
  }

  lemma StartArrives(r: Registers, x: byte, held: Option<Request>)
    requires Represents(r, []) && r.state == ExpectSof
    ensures Absorbed([], x, if x == SOF then [SOF] else [], held, held, [])
    ensures x == SOF ==> Represents(r.(state := ExpectVersion, checksum := 0, payload := Blank()), [SOF])
  {
  }

  function Blank(): (payload: seq<byte>)
    ensures |payload| == REGISTER_BYTES
  {
    seq(REGISTER_BYTES, _ => 0)
  }

  lemma VersionArrives(r: Registers, held: Option<Request>)
    requires Represents(r, [SOF]) && r.state == ExpectVersion
    ensures Absorbed([SOF], VERSION, [SOF, VERSION], held, held, [])
    ensures Represents(r.(state := ExpectType, checksum := VERSION), [SOF, VERSION])
  {
    assert [SOF] + [VERSION] == [SOF, VERSION];
    Waiting([SOF], VERSION, held);
    VersionChecksum();
    assert [SOF, VERSION][1..] == [VERSION];
  }

  lemma VersionChecksum()
    ensures XorFold(0, [VERSION]) == VERSION
  {
  }

  lemma StartRepeats(r: Registers, x: byte, held: Option<Request>)
    requires Represents(r, [SOF]) && r.state == ExpectVersion && x != VERSION
    ensures Absorbed([SOF], x, if x == SOF then [SOF] else [], held, held, [])
    ensures if x == SOF then Represents(r.(checksum := 0), [SOF]) else Represents(r.(state := ExpectSof), [])
  {
    FalseStart(x);
    assert [SOF] + [x] == [SOF, x];
  }

  lemma KindArrives(r: Registers, x: byte, held: Option<Request>)
    requires Represents(r, [SOF, VERSION]) && r.state == ExpectType
    ensures Absorbed([SOF, VERSION], x, [SOF, VERSION, x], held, held, [])
    ensures Represents(r.(state := ExpectLen, frameType := x, checksum := Xor(r.checksum, x)), [SOF, VERSION, x])
  {
    assert [SOF, VERSION] + [x] == [SOF, VERSION, x];
    Waiting([SOF, VERSION], x, held);
    XorFoldOneMore(0, [VERSION], x);
    assert [SOF, VERSION][1..] == [VERSION];
    assert [SOF, VERSION, x][1..] == [VERSION] + [x];
  }

  lemma LengthArrives(r: Registers, kept: seq<byte>, x: byte, held: Option<Request>)
    requires Represents(r, kept) && r.state == ExpectLen
    ensures var s := r.(frameLen := x, payloadIndex := 0, checksum := Xor(r.checksum, x));
            if x > MAX_PAYLOAD then
              && Represents(s.(state := ExpectSof), [])
              && Absorbed(kept, x, [], held, held, [BadLength])
            else
              && Represents(s.(state := if x == 0 then ExpectChecksum else InPayload), kept + [x])
              && Absorbed(kept, x, kept + [x], held, held, [])
  {
    var b := kept + [x];
    if x > MAX_PAYLOAD {
      assert b[..4] == b;
      Finished(kept, x, held, Refused(b, BadLength));
    } else {
      Waiting(kept, x, held);
      XorFoldOneMore(0, kept[1..], x);
      assert b[1..] == kept[1..] + [x];
      assert [SOF, VERSION, r.frameType, x] + r.payload[..0] == b;
    }
  }

  lemma PayloadContinues(r: Registers, kept: seq<byte>, x: byte, held: Option<Request>)
    requires Represents(r, kept) && r.state == InPayload
    ensures Absorbed(kept, x, kept + [x], held, held, [])
    ensures Represents(r.(state := if r.payloadIndex == r.frameLen - 1 then ExpectChecksum else InPayload,
                          payload := r.payload[r.payloadIndex := x], payloadIndex := r.payloadIndex + 1,
                          checksum := Xor(r.checksum, x)), kept + [x])
  {
    Waiting(kept, x, held);
    XorFoldOneMore(0, kept[1..], x);
    assert (kept + [x])[1..] == kept[1..] + [x];
    assert r.payload[r.payloadIndex := x][..r.payloadIndex + 1] == r.payload[..r.payloadIndex] + [x];
    Associate([SOF, VERSION, r.frameType, r.frameLen], r.payload[..r.payloadIndex], [x]);
  }

  /** The verdict on the frame in the registers, as the hardware compares it. */
  lemma FrameEnds(r: Registers, kept: seq<byte>, x: byte, held: Option<Request>)
    requires Represents(r, kept) && r.state == ExpectChecksum
    ensures var e := Judge(r.frameType, r.payload[..r.frameLen], x, kept + [x]);
            && r.checksum == XorFold(0, Body(r.frameType, r.payload[..r.frameLen]))
            && Absorbed(kept, x, [], held, if e.Requested? then Some(e.request) else held,
                        if e.Refused? then [e.reason] else [])
    ensures Represents(r.(state := ExpectSof), [])
  {
    var p := r.payload[..r.frameLen];
    var b := kept + [x];
    assert kept[1..] == Body(r.frameType, p);
    assert b[4..|b| - 1] == p && b[..|b|] == b;
    Finished(kept, x, held, Judge(r.frameType, p, x, b));
  }

  /** The request fields of a payload do not depend on what the register holds behind it. */
  lemma FieldsOfRegister(payload: seq<byte>, len: nat)
    requires |payload| == REGISTER_BYTES && 5 <= len <= REGISTER_BYTES
    ensures ReadU16(payload, 0) == ReadU16(payload[..len], 0) && ReadU16(payload, 2) == ReadU16(payload[..len], 2)
    ensures 13 <= len ==> ReadU32(payload, 5) == ReadU32(payload[..len], 5) && ReadU32(payload, 9) == ReadU32(payload[..len], 9)
    ensures payload[4] == payload[..len][4]
  {
    assert payload[..len][0..2] == payload[0..2] && payload[..len][2..4] == payload[2..4];
    if 13 <= len {
      assert payload[..len][5..9] == payload[5..9] && payload[..len][9..13] == payload[9..13];
    }
  }

  // ------------------------------------------------------------- one byte at the registers

  /** The registers after a byte, whatever it is. */
  function AfterByte(r: Registers, x: byte): Registers
    requires r.state == InPayload ==> r.payloadIndex < |r.payload|
  {
    match r.state
    case ExpectSof =>
      if x == SOF then r.(state := ExpectVersion, checksum := 0, payload := Blank()) else r
    case ExpectVersion =>
      if x == VERSION then r.(state := ExpectType, checksum := x)
      else if x == SOF then r.(checksum := 0)
      else r.(state := ExpectSof)
    case ExpectType => r.(state := ExpectLen, frameType := x, checksum := Xor(r.checksum, x))
    case ExpectLen =>
      r.(state := if x > MAX_PAYLOAD then ExpectSof else if x == 0 then ExpectChecksum else InPayload,
         frameLen := x, payloadIndex := 0, checksum := Xor(r.checksum, x))
    case InPayload =>
      r.(state := if r.payloadIndex == r.frameLen - 1 then ExpectChecksum else InPayload,
         payload := r.payload[r.payloadIndex := x], payloadIndex := r.payloadIndex + 1,
         checksum := Xor(r.checksum, x))
    case ExpectChecksum => r.(state := ExpectSof)
  }

  datatype Outcome = Nothing | Error(reason: Reason) | Raise(request: Request)

  /** What the comparison of the registers with the byte leads to. */
  function OutcomeOf(r: Registers, x: byte): Outcome
    requires |r.payload| == REGISTER_BYTES
  {
    var isReadReq, isWriteReq := r.frameType == MONITOR_READ_REQ, r.frameType == MONITOR_WRITE_REQ;
    if r.state == ExpectLen then (if x > MAX_PAYLOAD then Error(BadLength) else Nothing)
    else if r.state != ExpectChecksum then Nothing
    else if x != r.checksum then Error(ChecksumError)
    else if !isReadReq && !isWriteReq then Error(Unsupported)
    else if !((isReadReq && r.frameLen == 5) || (isWriteReq && r.frameLen == 13)) || !IsWidth(r.payload[4]) then
      Error(BadLength)
    else
      Raise(Request(ReadU16(r.payload, 0), ReadU16(r.payload, 2), isWriteReq, r.payload[4],
                    if isWriteReq then ReadU32(r.payload, 5) else 0, if isWriteReq then ReadU32(r.payload, 9) else 0))
  }

  function HeldAfter(held: Option<Request>, o: Outcome): Option<Request> {
    if o.Raise? then Some(o.request) else held
  }

  function ReportedAfter(o: Outcome): seq<Reason> {
    if o.Error? then [o.reason] else []
  }

  /** The hardware's comparisons are the verdict on the frame. */
  lemma OutcomeIsVerdict(r: Registers, x: byte, raw: seq<byte>)
    requires |r.payload| == REGISTER_BYTES && r.frameLen <= MAX_PAYLOAD && r.state == ExpectChecksum
    requires r.checksum == XorFold(0, Body(r.frameType, r.payload[..r.frameLen]))
    ensures var e := Judge(r.frameType, r.payload[..r.frameLen], x, raw);
            OutcomeOf(r, x) == (if e.Requested? then Raise(e.request) else Error(e.reason))
  {
    if 5 <= r.frameLen {
      FieldsOfRegister(r.payload, r.frameLen);
    }
  }

  lemma OutcomeIsJudged(r: Registers, kept: seq<byte>, x: byte, held: Option<Request>)
    requires Represents(r, kept) && r.state == ExpectChecksum
    ensures Absorbed(kept, x, [], held, HeldAfter(held, OutcomeOf(r, x)), ReportedAfter(OutcomeOf(r, x)))
  {
    FrameEnds(r, kept, x, held);
    OutcomeIsVerdict(r, x, kept + [x]);
  }

  /** The registers follow the scan of the byte stream. */
  lemma RegistersFollowScan(r: Registers, kept: seq<byte>, x: byte, held: Option<Request>) returns (after: seq<byte>)
    requires Represents(r, kept)
    ensures Represents(AfterByte(r, x), after)
    ensures Absorbed(kept, x, after, held, HeldAfter(held, OutcomeOf(r, x)), ReportedAfter(OutcomeOf(r, x)))
  {
    match r.state
    case ExpectSof =>
      StartArrives(r, x, held);
      after := if x == SOF then [SOF] else [];
    case ExpectVersion =>
      if x == VERSION {
        VersionArrives(r, held);
        after := [SOF, VERSION];
      } else {
        StartRepeats(r, x, held);
        after := if x == SOF then [SOF] else [];
      }
    case ExpectType =>
      KindArrives(r, x, held);
      after := [SOF, VERSION, x];
    case ExpectLen =>
      LengthArrives(r, kept, x, held);
      after := if x > MAX_PAYLOAD then [] else kept + [x];
    case InPayload =>
      PayloadContinues(r, kept, x, held);
      after := kept + [x];
    case ExpectChecksum =>
      FrameEnds(r, kept, x, held);
      OutcomeIsJudged(r, kept, x, held);
      after := [];
  }

  /** The registers, the request on offer and the error pulses are those of the parser. */
  ghost predicate StandsFor(r: Registers, held: Option<Request>, reported: seq<Reason>, p: Parser) {
    Represents(r, p.kept) && held == p.held && reported == p.reported
  }

  lemma ByteIsStep(r: Registers, p: Parser, i: Inputs)
    requires Represents(r, p.kept) && i.arriving.Some? && !Blocked(p, i.ready)
    ensures var o := OutcomeOf(r, i.arriving.value);
            StandsFor(AfterByte(r, i.arriving.value), HeldAfter(if i.ready then None else p.held, o), ReportedAfter(o),
                      Step(p, i))
  {
    var held := if i.ready then None else p.held;
    var o := OutcomeOf(r, i.arriving.value);
    var after := RegistersFollowScan(r, p.kept, i.arriving.value, held);
    StepAbsorbs(p, i, after, HeldAfter(held, o), ReportedAfter(o));
  }

  lemma QuietIsStep(r: Registers, p: Parser, i: Inputs)
    requires Represents(r, p.kept)
    requires i.arriving.None? || Blocked(p, i.ready)
    ensures StandsFor(r, if i.ready then None else p.held, [], Step(p, i))
  {
  }

  datatype Edge = Edge(regs: Registers, held: Option<Request>, reported: seq<Reason>)

  /** All registers after a clock edge. */
  function AfterEdge(r: Registers, held: Option<Request>, i: Inputs): Edge
    requires |r.payload| == REGISTER_BYTES && (r.state == InPayload ==> r.payloadIndex < REGISTER_BYTES)
  {
    var left := if i.ready then None else held;
    if i.arriving.Some? && !(held.Some? && !i.ready) then
      var o := OutcomeOf(r, i.arriving.value);
      Edge(AfterByte(r, i.arriving.value), HeldAfter(left, o), ReportedAfter(o))
    else
      Edge(r, left, [])
  }

  lemma EdgeIsStep(r: Registers, p: Parser, i: Inputs)
    requires Represents(r, p.kept)
    ensures var e := AfterEdge(r, p.held, i); StandsFor(e.regs, e.held, e.reported, Step(p, i))
  {
    if i.arriving.Some? && !Blocked(p, i.ready) {
      ByteIsStep(r, p, i);
    } else {
      QuietIsStep(r, p, i);
    }
  }

  class YifpgaDebugCommandParser {
    var state: State
    var frameType: byte
    var frameLen: byte
    var payloadIndex: nat
    var checksum: byte
    var payload: seq<byte>

    var reqValid: bool
    var reqSeq: u16
    var reqAddr: u16
    var reqWrite: bool
    var reqWidth: byte
    var reqWdata: u32
    var reqWmask: u32

    var checksumError: bool
    var badLenError: bool
    var unsupportedError: bool

    /** What the registers stand for, and what happened since reset. */
    ghost var parser: Parser

    function Regs(): Registers
      reads `state, `frameType, `frameLen, `payloadIndex, `checksum, `payload
    {
      Registers(state, frameType, frameLen, payloadIndex, checksum, payload)
    }

    function Held(): Option<Request>
      reads `reqValid, `reqSeq, `reqAddr, `reqWrite, `reqWidth, `reqWdata, `reqWmask
    {
      if reqValid then Some(Request(reqSeq, reqAddr, reqWrite, reqWidth, reqWdata, reqWmask)) else None
    }

    function Reported(): seq<Reason>
      reads `checksumError, `badLenError, `unsupportedError
    {
      (if checksumError then [ChecksumError] else []) + (if badLenError then [BadLength] else [])
      + (if unsupportedError then [Unsupported] else [])
    }

    ghost predicate Valid()
      reads this
    {
      StandsFor(Regs(), Held(), Reported(), parser)
    }

    constructor ()
      ensures Valid() && parser == AFTER_RESET
    {
      state, frameType, frameLen, payloadIndex, checksum := ExpectSof, 0, 0, 0, 0;
      payload := Blank();
      reqValid, reqSeq, reqAddr, reqWrite, reqWidth, reqWdata, reqWmask := false, 0, 0, false, 0, 0, 0;
      checksumError, badLenError, unsupportedError := false, false, false;
      parser := AFTER_RESET;
    }

    /** One clock edge. */
    method Clock(i: Inputs)
      requires Valid()
      modifies this
      ensures Valid()
      ensures parser == Step(old(parser), i)
    {
      EdgeIsStep(Regs(), parser, i);
      ClockRegisters(i);
      parser := Step(parser, i);
    }

    /** The registers at the edge. */
    method ClockRegisters(i: Inputs)
      requires |payload| == REGISTER_BYTES && (state == InPayload ==> payloadIndex < REGISTER_BYTES)
      modifies this
      ensures parser == old(parser)
      ensures Edge(Regs(), Held(), Reported()) == AfterEdge(old(Regs()), old(Held()), i)
    {
      var pendingBlock := reqValid && !i.ready;
      ClearPulses(i.ready);
      if i.arriving.Some? && !pendingBlock {
        Consume(i.arriving.value);
      }
    }

    /** Error pulses last one cycle; a request that is taken is withdrawn. */
    method ClearPulses(ready: bool)
      modifies `checksumError, `badLenError, `unsupportedError, `reqValid
      ensures Reported() == [] && Held() == (if ready then None else old(Held()))
    {
      checksumError, badLenError, unsupportedError := false, false, false;
      if reqValid && ready {
        reqValid := false;
      }
    }

    /** A byte enters the parser. */
    method Consume(x: byte)
      requires |payload| == REGISTER_BYTES && (state == InPayload ==> payloadIndex < REGISTER_BYTES) && Reported() == []
      modifies this
      ensures parser == old(parser)
      ensures Regs() == AfterByte(old(Regs()), x)
      ensures Held() == HeldAfter(old(Held()), OutcomeOf(old(Regs()), x))
      ensures Reported() == ReportedAfter(OutcomeOf(old(Regs()), x))
    {
      var outcome := OutcomeOf(Regs(), x);
      Advance(x);
      Conclude(outcome);
    }

    /** The case distinction over the state. */
    method Advance(x: byte)
      requires state == InPayload ==> payloadIndex < |payload|
      modifies `state, `frameType, `frameLen, `payloadIndex, `checksum, `payload
      ensures Regs() == AfterByte(old(Regs()), x)
    {
      match state
      case ExpectSof =>
        if x == SOF {
          state, checksum, payload := ExpectVersion, 0, Blank();
        }
      case ExpectVersion =>
        if x == VERSION {
          checksum := x;
          state := ExpectType;
        } else if x == SOF {
          checksum := 0;
        } else {
          state := ExpectSof;
        }
      case ExpectType =>
        frameType := x;
        checksum := Xor(checksum, x);
        state := ExpectLen;
      case ExpectLen =>
        frameLen := x;
        payloadIndex := 0;
        checksum := Xor(checksum, x);
        if x > MAX_PAYLOAD {
          state := ExpectSof;
        } else if x == 0 {
          state := ExpectChecksum;
        } else {
          state := InPayload;
        }
      case InPayload =>
        payload := payload[payloadIndex := x];
        checksum := Xor(checksum, x);
        if payloadIndex == frameLen - 1 {
          state := ExpectChecksum;
        }
        payloadIndex := payloadIndex + 1;
      case ExpectChecksum =>
        state := ExpectSof;
    }

    /** The error pulse or the request registers after a header or a frame was judged. */
    method Conclude(o: Outcome)
      requires Reported() == []
      modifies `reqValid, `reqSeq, `reqAddr, `reqWidth, `reqWrite, `reqWdata, `reqWmask,
               `checksumError, `badLenError, `unsupportedError
      ensures Held() == HeldAfter(old(Held()), o)
      ensures Reported() == ReportedAfter(o)
    {
      match o
      case Nothing =>
      case Error(ChecksumError) => checksumError := true;
      case Error(BadLength) => badLenError := true;
      case Error(Unsupported) => unsupportedError := true;
      case Raise(request) =>
        reqValid := true;
        reqSeq, reqAddr := request.sequence, request.address;
        reqWidth, reqWrite := request.width, request.write;
        reqWdata, reqWmask := request.data, request.mask;
    }
  }
}
