/** The command engine behind the target's USER2 data register: a request scan of 32 bits, then a scan that shifts
    the answer out. It sees the events of the test access port while USER2 is selected. */
module UserDr {
  import opened Bytes
  import opened BitStrings
  import opened Tap

  const COMMAND_MAGIC := 0xA6
  const OP_HEADER := 1
  const OP_PAYLOAD := 2
  const HEADER_LENGTH := 40
  const MAX_PAYLOAD := 1024
  const LAST_COUNT := 0xFFFF

  datatype Registers = Registers(
    requestShift: seq<bool>, bitCount: nat, responseLength: nat, responseOpcode: nat, pending: bool, active: bool)

  predicate Sane(r: Registers) {
    |r.requestShift| == 32 && r.bitCount <= LAST_COUNT && r.responseLength <= MAX_PAYLOAD
  }

  function Low(n: nat): (bits: seq<bool>)
    ensures |bits| == n
  {
    seq(n, _ => false)
  }

  /** A request the target serves: a header of 40 bytes, or a block of 1 to 1024. */
  predicate IsServed(opcode: int, length: int) {
    (opcode == OP_HEADER && length == HEADER_LENGTH) || (opcode == OP_PAYLOAD && 1 <= length <= MAX_PAYLOAD)
  }

  /** What the engine makes of a complete request scan. */
  function Decided(r: Registers): Registers
    requires Sane(r)
  {
    var opcode, length := FromBits(r.requestShift[8..16]), FromBits(r.requestShift[16..32]);
    if r.bitCount == 32 && FromBits(r.requestShift[..8]) == COMMAND_MAGIC && IsServed(opcode, length) then
      r.(responseOpcode := opcode, responseLength := length, pending := true)
    else
      r.(pending := false)
  }

  function After(r: Registers, e: Event): (s: Registers)
    requires Sane(r)
    ensures Sane(s)
  {
    match e
    case CapturesDr => r.(bitCount := 0, requestShift := Low(32), active := r.pending)
    case ShiftsDr(tdi) =>
      r.(requestShift := if !r.active && r.bitCount < 32 then r.requestShift[r.bitCount := tdi] else r.requestShift,
         bitCount := if r.bitCount != LAST_COUNT then r.bitCount + 1 else r.bitCount)
    case UpdatesDr => if r.active then r.(pending := false, active := false) else Decided(r)
    case _ => r
  }

  /** The pulse that commits the speculative read, and the one that aborts it. */
  predicate Commits(r: Registers, e: Event) {
    e.UpdatesDr? && r.active && r.responseOpcode == OP_PAYLOAD && r.bitCount == 8 * r.responseLength
  }

  predicate Aborts(r: Registers, e: Event) {
    e.UpdatesDr? && r.active && r.responseOpcode == OP_PAYLOAD && r.bitCount != 8 * r.responseLength
  }

  function AfterAll(r: Registers, events: seq<Event>): (s: Registers)
    requires Sane(r)
    ensures Sane(s)
    decreases |events|
  {
    if events == [] then r else AfterAll(After(r, events[0]), events[1..])
  }

  /** The lengths of the blocks committed, in order, and the number of aborts. */
  function CommitsIn(r: Registers, events: seq<Event>): seq<nat>
    requires Sane(r)
    decreases |events|
  {
    if events == [] then []
    else (if Commits(r, events[0]) then [r.responseLength] else []) + CommitsIn(After(r, events[0]), events[1..])
  }

  function AbortsIn(r: Registers, events: seq<Event>): nat
    requires Sane(r)
    decreases |events|
  {
    if events == [] then 0
    else (if Aborts(r, events[0]) then 1 else 0) + AbortsIn(After(r, events[0]), events[1..])
  }

  class YifpgaJtagUserDr {
    var requestShift: seq<bool>
    var bitCount: nat
    var responseLength: nat
    var responseOpcode: nat
    var pendingResponse: bool
    var responseActive: bool

    function State(): Registers
      reads this
    {
      Registers(requestShift, bitCount, responseLength, responseOpcode, pendingResponse, responseActive)
    }

    constructor ()
      ensures State() == Registers(Low(32), 0, 0, 0, false, false)
    {
      requestShift, bitCount, responseLength, responseOpcode := Low(32), 0, 0, 0;
      pendingResponse, responseActive := false, false;
    }

    /** One edge of TCK. The results are the pulses `payload_commit` and `payload_abort`. */
    method Clock(sel: bool, e: Event) returns (commit: bool, abort: bool)
      requires Sane(State())
      modifies this
      ensures State() == if sel then After(old(State()), e) else old(State())
      ensures commit <==> sel && Commits(old(State()), e)
      ensures abort <==> sel && Aborts(old(State()), e)
    {
      commit, abort := false, false;
      if sel && e.CapturesDr? {
        bitCount, requestShift := 0, Low(32);
        responseActive := pendingResponse;
      } else if sel && e.ShiftsDr? {
        if !responseActive && bitCount < 32 {
          requestShift := requestShift[bitCount := e.tdi];
        }
        if bitCount != LAST_COUNT {
          bitCount := bitCount + 1;
        }
      }
      if sel && e.UpdatesDr? {
        if responseActive {
          if responseOpcode == OP_PAYLOAD {
            if bitCount == 8 * responseLength {
              commit := true;
            } else {
              abort := true;
            }
          }
          pendingResponse, responseActive := false, false;
        } else {
          TakeRequest();
        }
      }
    }

    /** The update of a request scan. */
    method TakeRequest()
      requires Sane(State())
      modifies `responseOpcode, `responseLength, `pendingResponse
      ensures State() == Decided(old(State()))
    {
      pendingResponse := false;
      if bitCount == 32 && FromBits(requestShift[..8]) == COMMAND_MAGIC {
        var opcode, length := FromBits(requestShift[8..16]), FromBits(requestShift[16..32]);
        if opcode == OP_HEADER && length == HEADER_LENGTH {
          responseOpcode, responseLength, pendingResponse := OP_HEADER, HEADER_LENGTH, true;
        } else if opcode == OP_PAYLOAD && length != 0 && length <= MAX_PAYLOAD {
          responseOpcode, responseLength, pendingResponse := OP_PAYLOAD, length, true;
        }
      }
    }
  }

  // ------------------------------------------------------------------------ whole scans

  lemma {:induction false} EventsAppend(r: Registers, a: seq<Event>, b: seq<Event>)
    requires Sane(r)
    ensures AfterAll(r, a + b) == AfterAll(AfterAll(r, a), b)
    ensures CommitsIn(r, a + b) == CommitsIn(r, a) + CommitsIn(AfterAll(r, a), b)
    ensures AbortsIn(r, a + b) == AbortsIn(r, a) + AbortsIn(AfterAll(r, a), b)
    decreases |a|
  {
    if a == [] {
      assert a + b == b;
      assert [] + CommitsIn(r, b) == CommitsIn(r, b);
    } else {
      assert (a + b)[1..] == a[1..] + b;
      EventsAppend(After(r, a[0]), a[1..], b);
      Associate(if Commits(r, a[0]) then [r.responseLength] else [], CommitsIn(After(r, a[0]), a[1..]),
                CommitsIn(AfterAll(After(r, a[0]), a[1..]), b));
    }
  }

  lemma OneEvent(r: Registers, e: Event)
    requires Sane(r)
    ensures AfterAll(r, [e]) == After(r, e)
    ensures CommitsIn(r, [e]) == if Commits(r, e) then [r.responseLength] else []
    ensures AbortsIn(r, [e]) == if Aborts(r, e) then 1 else 0
  {
    assert [e][1..] == [];
  }

  /** The bits of the request register after `bits` were shifted in, starting at `at`. */
  function Shifted(request: seq<bool>, at: nat, bits: seq<bool>): (s: seq<bool>)
    requires |request| == 32
    ensures |s| == 32
    decreases |bits|
  {
    if bits == [] then request
    else Shifted(if at < 32 then request[at := bits[0]] else request, at + 1, bits[1..])
  }

  lemma {:induction false} ShiftedBeyond(request: seq<bool>, at: nat, bits: seq<bool>)
    requires |request| == 32
    ensures 32 <= at ==> Shifted(request, at, bits) == request
    decreases |bits|
  {
    if bits != [] && 32 <= at {
      ShiftedBeyond(request, at + 1, bits[1..]);
    }
  }

  /** Shifting neither commits nor aborts; it counts, and fills the register of a request scan. */
  lemma {:induction false} ShiftsCount(r: Registers, bits: seq<bool>)
    requires Sane(r)
    ensures AfterAll(r, Shifts(bits)) ==
            r.(bitCount := Min(r.bitCount + |bits|, LAST_COUNT),
               requestShift := if r.active then r.requestShift else Shifted(r.requestShift, r.bitCount, bits))
    ensures CommitsIn(r, Shifts(bits)) == [] && AbortsIn(r, Shifts(bits)) == 0
    decreases |bits|
  {
    if bits != [] {
      assert Shifts(bits)[1..] == Shifts(bits[1..]);
      ShiftsCount(After(r, ShiftsDr(bits[0])), bits[1..]);
      ShiftedBeyond(r.requestShift, r.bitCount, bits[1..]);
      ShiftedBeyond(r.requestShift, r.bitCount + 1, bits[1..]);
    }
  }

  lemma {:induction false} ShiftedIn(request: seq<bool>, at: nat, bits: seq<bool>)
    requires |request| == 32
    ensures forall i | 0 <= i < 32 ::
              Shifted(request, at, bits)[i] == if at <= i < at + |bits| then bits[i - at] else request[i]
    decreases |bits|
  {
    if bits != [] {
      ShiftedIn(if at < 32 then request[at := bits[0]] else request, at + 1, bits[1..]);
    }
  }

  function ScanEvents(bits: seq<bool>): seq<Event> {
    [CapturesDr] + Shifts(bits) + [UpdatesDr]
  }

  /** A scan: what the engine holds at the update, and what the update makes of it. */
  lemma ScanIs(r: Registers, bits: seq<bool>)
    requires Sane(r)
    ensures var q := Captured(r, bits);
            && AfterAll(r, ScanEvents(bits)) == After(q, UpdatesDr)
            && CommitsIn(r, ScanEvents(bits)) == (if Commits(q, UpdatesDr) then [q.responseLength] else [])
            && AbortsIn(r, ScanEvents(bits)) == if Aborts(q, UpdatesDr) then 1 else 0
  {
    var p := After(r, CapturesDr);
    OneEvent(r, CapturesDr);
    ShiftsCount(p, bits);
    EventsAppend(r, [CapturesDr], Shifts(bits));
    EventsAppend(r, [CapturesDr] + Shifts(bits), [UpdatesDr]);
    OneEvent(Captured(r, bits), UpdatesDr);
  }

  /** The registers before the update of a scan of `bits`. */
  function Captured(r: Registers, bits: seq<bool>): (q: Registers)
    requires Sane(r)
    ensures Sane(q)
  {
    r.(bitCount := Min(|bits|, LAST_COUNT), active := r.pending,
       requestShift := if r.pending then Low(32) else Shifted(Low(32), 0, bits))
  }

  // -------------------------------------------------------------------- a user command

  /** The 32 bits of a request: the magic byte, the opcode and the length, each least significant bit first. */
  function RequestBits(opcode: nat, length: nat): (bits: seq<bool>)
    ensures |bits| == 32
  {
    Bits(COMMAND_MAGIC, 8) + Bits(opcode, 8) + Bits(length, 16)
  }

  lemma RequestFields(opcode: nat, length: nat)
    requires opcode < 256 && length < U16_MODULUS
    ensures var bits := RequestBits(opcode, length);
            && FromBits(bits[..8]) == COMMAND_MAGIC
            && FromBits(bits[8..16]) == opcode
            && FromBits(bits[16..32]) == length
  {
    var a, b, c := Bits(COMMAND_MAGIC, 8), Bits(opcode, 8), Bits(length, 16);
    assert (a + b + c)[..8] == a && (a + b + c)[8..16] == b && (a + b + c)[16..32] == c;
    assert Power2(8) == 256;
    PowerOfSixteen();
    FromBitsOfBits(COMMAND_MAGIC, 8);
    FromBitsOfBits(opcode, 8);
    FromBitsOfBits(length, 16);
  }

  lemma PowerOfSixteen()
    ensures Power2(16) == U16_MODULUS
  {
    assert Power2(16) == 2 * Power2(15) && Power2(15) == 2 * Power2(14) && Power2(14) == 2 * Power2(13);
    assert Power2(13) == 2 * Power2(12) && Power2(12) == 2 * Power2(11) && Power2(11) == 2 * Power2(10);
    assert Power2(10) == 2 * Power2(9) && Power2(9) == 2 * Power2(8);
  }

  /** The engine takes a request for exactly the opcode and length it carries, and only if it serves them. */
  lemma RequestIsTaken(r: Registers, opcode: nat, length: nat)
    requires Sane(r) && !r.pending && opcode < 256 && length < U16_MODULUS
    ensures var s := AfterAll(r, ScanEvents(RequestBits(opcode, length)));
            && (s.pending <==> IsServed(opcode, length))
            && (s.pending ==> s.responseOpcode == opcode && s.responseLength == length)
    ensures CommitsIn(r, ScanEvents(RequestBits(opcode, length))) == []
    ensures AbortsIn(r, ScanEvents(RequestBits(opcode, length))) == 0
  {
    var bits := RequestBits(opcode, length);
    ScanIs(r, bits);
    ShiftedIn(Low(32), 0, bits);
    assert Captured(r, bits).requestShift == bits;
    RequestFields(opcode, length);
  }

  /** The scan after the request: a block is committed exactly when a block was asked for and all its bits, no
      more and no fewer, are shifted. */
  lemma AnswerIsTaken(r: Registers, bits: seq<bool>)
    requires Sane(r) && r.pending
    ensures var events := ScanEvents(bits);
            var block := r.responseOpcode == OP_PAYLOAD;
            && !AfterAll(r, events).pending
            && CommitsIn(r, events) == (if block && |bits| == 8 * r.responseLength then [r.responseLength] else [])
            && AbortsIn(r, events) == if block && |bits| != 8 * r.responseLength then 1 else 0
  {
    ScanIs(r, bits);
  }

  /** A scan of zeros is no request. */
  lemma ZerosAreIgnored(r: Registers, n: nat)
    requires Sane(r) && !r.pending
    ensures var events := ScanEvents(Low(n));
            !AfterAll(r, events).pending && CommitsIn(r, events) == [] && AbortsIn(r, events) == 0
  {
    ScanIs(r, Low(n));
    ShiftedIn(Low(32), 0, Low(n));
    assert Captured(r, Low(n)).requestShift[..8] == Low(8);
    NothingIn(8);
  }

  lemma {:induction false} NothingIn(n: nat)
    ensures FromBits(Low(n)) == 0
  {
    if n != 0 {
      assert Low(n)[1..] == Low(n - 1);
      NothingIn(n - 1);
    }
  }

  /** The scan after a request that was served or ignored. */
  lemma SecondScan(q: Registers, opcode: nat, length: nat)
    requires Sane(q) && (q.pending <==> IsServed(opcode, length))
    requires q.pending ==> q.responseOpcode == opcode && q.responseLength == length
    ensures var blank := ScanEvents(Low(8 * length));
            && !AfterAll(q, blank).pending
            && CommitsIn(q, blank) == (if opcode == OP_PAYLOAD && IsServed(opcode, length) then [length] else [])
            && AbortsIn(q, blank) == 0
  {
    if IsServed(opcode, length) {
      AnswerIsTaken(q, Low(8 * length));
    } else {
      ZerosAreIgnored(q, 8 * length);
    }
  }

  lemma BothScans(p: Registers, opcode: nat, length: nat, both: seq<Event>)
    requires Sane(p) && !p.pending && opcode < 256 && length < U16_MODULUS
    requires both == ScanEvents(RequestBits(opcode, length)) + ScanEvents(Low(8 * length))
    ensures !AfterAll(p, both).pending
    ensures CommitsIn(p, both) == if opcode == OP_PAYLOAD && IsServed(opcode, length) then [length] else []
    ensures AbortsIn(p, both) == 0
  {
    var first, second := ScanEvents(RequestBits(opcode, length)), ScanEvents(Low(8 * length));
    RequestIsTaken(p, opcode, length);
    SecondScan(AfterAll(p, first), opcode, length);
    EventsAppend(p, first, second);
  }

  /** The two scans of a user command, whatever happened before: a block that is asked for with a legal length is
      committed once, with that length; nothing else is committed, nothing is aborted, and the engine is ready for
      the next request. */
  lemma UserCommandIsServed(r: Registers, log: seq<Event>, answered: seq<Event>, opcode: nat, length: nat)
    requires Sane(r) && !AfterAll(r, log).pending && opcode < 256 && length < U16_MODULUS
    requires answered == ScanLog(ScanLog(log, RequestBits(opcode, length)), Low(8 * length))
    ensures !AfterAll(r, answered).pending
    ensures CommitsIn(r, answered) ==
            CommitsIn(r, log) + (if opcode == OP_PAYLOAD && IsServed(opcode, length) then [length] else [])
    ensures AbortsIn(r, answered) == AbortsIn(r, log)
  {
    var both := ScanEvents(RequestBits(opcode, length)) + ScanEvents(Low(8 * length));
    assert answered == log + both by {
      ScansLogIs(log, RequestBits(opcode, length), Low(8 * length));
    }
    BothScans(AfterAll(r, log), opcode, length, both);
    EventsAppend(r, log, both);
  }

  lemma ScansLogIs(log: seq<Event>, a: seq<bool>, b: seq<bool>)
    ensures ScanLog(ScanLog(log, a), b) == log + (ScanEvents(a) + ScanEvents(b))
  {
    ScanLogIs(log, a);
    ScanLogIs(log + ScanEvents(a), b);
    Associate(log, ScanEvents(a), ScanEvents(b));
  }

  lemma ScanLogIs(log: seq<Event>, bits: seq<bool>)
    ensures ScanLog(log, bits) == log + ScanEvents(bits)
  {
  }
}
