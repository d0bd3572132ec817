/** The commands for one DR scan, and what executing them means to the target. */
module MpsseScan {
  import opened Bytes
  import opened BitStrings
  import opened Tap
  import opened Mpsse

  const MAX_DATA_PIECE := 251

  /** Whole bytes, cut into pieces the chip can be given at once. */
  function ByteRuns(data: seq<byte>): seq<Instruction>
    decreases |data|
  {
    if data == [] then []
    else
      var width := Min(MAX_DATA_PIECE, |data|);
      [ShiftBytes(data[..width])] + ByteRuns(data[width..])
  }

  /** The bits left over before the last one, which needs TMS. */
  function Leftover(outgoing: seq<byte>, full: nat, rem: nat): seq<Instruction>
    requires full < |outgoing| && rem < 8
  {
    if rem == 0 then [] else [ShiftBits(rem, outgoing[full], true)]
  }

  function LastBit(outgoing: seq<byte>, total: nat): bool
    requires 1 <= total <= 8 * |outgoing|
  {
    Unpack(outgoing)[total - 1]
  }

  const ENTER := Tms(3, 1, false)
  const LEAVE := Tms(2, 1, false)

  function FinalBit(last: bool): Instruction {
    Tms(1, 1 + 128 * BitOf(last), true)
  }

  /** All bits but the last: `full` whole bytes and `rem` bits. */
  function Middle(outgoing: seq<byte>, full: nat, rem: nat): seq<Instruction>
    requires full < |outgoing| && rem < 8
  {
    ByteRuns(outgoing[..full]) + Leftover(outgoing, full, rem)
  }

  function ScanInstructions(outgoing: seq<byte>, total: nat): seq<Instruction>
    requires 1 <= total <= 8 * |outgoing|
  {
    [ENTER] + Middle(outgoing, (total - 1) / 8, (total - 1) % 8) + [FinalBit(LastBit(outgoing, total))] + [LEAVE]
  }

  /** The bytes read back for a scan whose TDO bits are `bits`; unused low bits can be anything. */
  predicate IsRaw(raw: seq<byte>, bits: seq<bool>) {
    && 1 <= |bits|
    && var full := (|bits| - 1) / 8;
       var rem := (|bits| - 1) % 8;
       && |raw| == full + (if rem == 0 then 1 else 2)
       && raw[..full] == Pack(bits[..8 * full])
       && (rem != 0 ==> ShiftRight(raw[full], 8 - rem) == FromBits(bits[8 * full..|bits| - 1]))
       && (ShiftRight(raw[|raw| - 1], 7) % 2 == 1 <==> bits[|bits| - 1])
  }

  // --------------------------------------------------------------- single instructions

  lemma EnterClocks(p: Port)
    ensures ClocksOf(p, ENTER) == [Pins(true, false), Pins(false, false), Pins(false, false)]
  {
    var bits := [true, false, false];
    assert Bits(1, 8) == bits + [false, false, false, false, false];
    assert Bits(1, 8)[..3] == bits;
    assert bits[1..] == [false, false] && bits[1..][1..] == [false] && bits[1..][1..][1..] == [];
    assert TmsClocks(bits, false) == [Pins(true, false), Pins(false, false), Pins(false, false)];
  }

  lemma EnterStates(p: Port)
    requires p.state == RunTestIdle
    ensures var high, low := Pins(true, false), Pins(false, false);
            Tick(Tick(Tick(p, high), low), low) == Port(ShiftDr, false, p.log + [CapturesDr])
  {
    var q := Tick(Tick(p, Pins(true, false)), Pins(false, false));
    assert p.log + [] == p.log;
    assert q == Port(CaptureDr, false, p.log);
    assert Noticed(CaptureDr, Pins(false, false)) == [CapturesDr];
  }

  lemma EnterScan(t: Target, p: Port)
    requires p.state == RunTestIdle
    ensures PortAfter(p, ENTER) == Port(ShiftDr, false, p.log + [CapturesDr])
    ensures Samples(t, p, ENTER) == []
  {
    EnterClocks(p);
    ThreeTicks(p, Pins(true, false), Pins(false, false), Pins(false, false));
    EnterStates(p);
  }

  lemma LeaveClocks(p: Port)
    ensures ClocksOf(p, LEAVE) == [Pins(true, false), Pins(false, false)]
  {
    var bits := [true, false];
    assert Bits(1, 8) == bits + [false, false, false, false, false, false];
    assert Bits(1, 8)[..2] == bits;
    assert bits[1..] == [false] && bits[1..][1..] == [];
    assert TmsClocks(bits, false) == [Pins(true, false), Pins(false, false)];
  }

  lemma LeaveScan(t: Target, p: Port)
    requires p.state == Exit1Dr
    ensures PortAfter(p, LEAVE) == Port(RunTestIdle, false, p.log + [UpdatesDr])
    ensures Samples(t, p, LEAVE) == []
  {
    LeaveClocks(p);
    TwoTicks(p, Pins(true, false), Pins(false, false));
    assert p.log + [UpdatesDr] + [] == p.log + [UpdatesDr];
  }

  lemma TopOfSample(residue: byte, bits: seq<bool>)
    requires 1 <= |bits| <= 8
    ensures ShiftRight(Sample(residue, bits), 8 - |bits|) == FromBits(bits)
  {
    var low := Bits(residue, 8)[|bits|..];
    ShiftRightDrops(low + bits, 8 - |bits|);
    assert (low + bits)[8 - |bits|..] == bits;
  }

  lemma LastBitSet()
    ensures Bits(129, 8) == [true, false, false, false, false, false, false, true]
  {
  }

  lemma LastBitClear()
    ensures Bits(1, 8) == [true, false, false, false, false, false, false, false]
  {
  }

  lemma OneClock(tdi: bool)
    ensures TmsClocks([true], tdi) == [Pins(true, tdi)]
  {
    assert [true][1..] == [];
  }

  lemma FinalClock(p: Port, last: bool)
    ensures ClocksOf(p, FinalBit(last)) == [Pins(true, last)]
  {
    if last {
      LastBitSet();
      assert Bits(129, 8)[..1] == [true];
    } else {
      LastBitClear();
      assert Bits(1, 8)[..1] == [true];
    }
    OneClock(last);
  }

  lemma OneTick(tdo: seq<Event> -> bool, p: Port, pins: Pins)
    ensures Ticks(p, [pins]) == Tick(p, pins)
    ensures Seen(tdo, p, [pins]) == [tdo(Tick(p, pins).log)]
  {
  }

  lemma ShiftFinalBit(t: Target, p: Port, last: bool)
    requires p.state == ShiftDr
    ensures PortAfter(p, FinalBit(last)) == Port(Exit1Dr, true, p.log + [ShiftsDr(last)])
    ensures |Samples(t, p, FinalBit(last))| == 1
    ensures ShiftRight(Samples(t, p, FinalBit(last))[0], 7) % 2 == 1 <==> t.tdo(p.log + [ShiftsDr(last)])
  {
    FinalClock(p, last);
    OneTick(t.tdo, p, Pins(true, last));
    assert Noticed(p.state, Pins(true, last)) == [ShiftsDr(last)];
    var bits := Seen(t.tdo, p, ClocksOf(p, FinalBit(last)));
    TopOfSample(t.residue(p.log), bits);
    assert FromBits(bits) == BitOf(bits[0]) + 2 * FromBits([]);
  }

  lemma ShiftLeftover(t: Target, p: Port, rem: nat, data: byte)
    requires p.state == ShiftDr && !p.tms && 1 <= rem <= 8
    ensures var bits := Bits(data, 8)[..rem];
            var raw := Samples(t, p, ShiftBits(rem, data, true));
            && PortAfter(p, ShiftBits(rem, data, true)) == p.(log := p.log + Shifts(bits))
            && |raw| == 1
            && ShiftRight(raw[0], 8 - rem) == FromBits(Replies(t.tdo, p.log, bits))
  {
    var bits := Bits(data, 8)[..rem];
    ShiftDrShifts(t.tdo, p, bits);
    TopOfSample(t.residue(p.log), Replies(t.tdo, p.log, bits));
  }

  lemma {:induction false} ShiftRuns(t: Target, p: Port, data: seq<byte>)
    requires p.state == ShiftDr && !p.tms
    ensures PortAll(p, ByteRuns(data)) == p.(log := p.log + Shifts(Unpack(data)))
    ensures SamplesAll(t, p, ByteRuns(data)) == Pack(Replies(t.tdo, p.log, Unpack(data)))
    decreases |data|
  {
    if data == [] {
      assert p.log + [] == p.log;
    } else {
      var width := Min(MAX_DATA_PIECE, |data|);
      var head, tail := data[..width], data[width..];
      var bits, more := Unpack(head), Unpack(tail);
      ShiftDrShifts(t.tdo, p, bits);
      var q := PortAfter(p, ShiftBytes(head));
      ShiftRuns(t, q, tail);
      assert data == head + tail;
      UnpackAppend(head, tail);
      ShiftsAppend(t.tdo, p.log, bits, more);
      PackAppend(Replies(t.tdo, p.log, bits), Replies(t.tdo, q.log, more));
      Associate(p.log, Shifts(bits), Shifts(more));
    }
  }

  // ------------------------------------------------------------------ the whole scan

  lemma PrefixOfConcat<T>(a: seq<T>, b: seq<T>, c: seq<T>, n: nat)
    requires n <= |b|
    ensures (a + (b + c))[..|a| + n] == a + b[..n]
  {
  }

  lemma MiddleBits(outgoing: seq<byte>, full: nat, rem: nat)
    requires full < |outgoing| && rem < 8
    ensures Unpack(outgoing)[..8 * full + rem] == Unpack(outgoing[..full]) + Bits(outgoing[full], 8)[..rem]
  {
    var head, tail := outgoing[..full], outgoing[full..];
    assert outgoing == head + tail;
    UnpackAppend(head, tail);
    PrefixOfConcat(Unpack(head), Bits(tail[0], 8), Unpack(tail[1..]), rem);
  }

  /** What is read back before the last bit. */
  predicate IsMiddleRaw(raw: seq<byte>, bits: seq<bool>) {
    var full := |bits| / 8;
    var rem := |bits| % 8;
    && |raw| == full + (if rem == 0 then 0 else 1)
    && raw[..full] == Pack(bits[..8 * full])
    && (rem != 0 ==> ShiftRight(raw[full], 8 - rem) == FromBits(bits[8 * full..]))
  }

  lemma RawOfMiddle(runs: seq<byte>, left: seq<byte>, whole: seq<bool>, extra: seq<bool>, full: nat, rem: nat)
    requires |whole| == 8 * full && |extra| == rem < 8
    requires runs == Pack(whole)
    requires |left| == (if rem == 0 then 0 else 1)
    requires rem != 0 ==> ShiftRight(left[0], 8 - rem) == FromBits(extra)
    ensures IsMiddleRaw(runs + left, whole + extra)
  {
    var bits := whole + extra;
    assert |bits| / 8 == full;
    assert bits[..|whole|] == whole && bits[|whole|..] == extra;
    assert (runs + left)[..|runs|] == runs;
  }

  lemma LeftoverShifts(t: Target, p: Port, outgoing: seq<byte>, full: nat, rem: nat)
    requires full < |outgoing| && rem < 8
    requires p.state == ShiftDr && !p.tms
    ensures var extra := Bits(outgoing[full], 8)[..rem];
            var raw := SamplesAll(t, p, Leftover(outgoing, full, rem));
            && PortAll(p, Leftover(outgoing, full, rem)) == p.(log := p.log + Shifts(extra))
            && |raw| == (if rem == 0 then 0 else 1)
            && (rem != 0 ==> ShiftRight(raw[0], 8 - rem) == FromBits(Replies(t.tdo, p.log, extra)))
  {
    if rem == 0 {
      assert p.log + [] == p.log;
    } else {
      ShiftLeftover(t, p, rem, outgoing[full]);
      OneInstruction(t, p, ShiftBits(rem, outgoing[full], true));
    }
  }

  /** Everything but the last bit. */
  lemma MiddleShifts(t: Target, p: Port, outgoing: seq<byte>, full: nat, rem: nat)
    requires full < |outgoing| && rem < 8
    requires p.state == ShiftDr && !p.tms
    ensures var bits := Unpack(outgoing)[..8 * full + rem];
            && PortAll(p, Middle(outgoing, full, rem)) == p.(log := p.log + Shifts(bits))
            && IsMiddleRaw(SamplesAll(t, p, Middle(outgoing, full, rem)), Replies(t.tdo, p.log, bits))
  {
    var whole, extra := Unpack(outgoing[..full]), Bits(outgoing[full], 8)[..rem];
    var runs, left := ByteRuns(outgoing[..full]), Leftover(outgoing, full, rem);
    MiddleBits(outgoing, full, rem);
    ShiftRuns(t, p, outgoing[..full]);
    AllAppend(t, p, runs, left);
    ShiftsAppend(t.tdo, p.log, whole, extra);
    Associate(p.log, Shifts(whole), Shifts(extra));
    var q := PortAll(p, runs);
    LeftoverShifts(t, q, outgoing, full, rem);
    RawOfMiddle(SamplesAll(t, p, runs), SamplesAll(t, q, left),
                Replies(t.tdo, p.log, whole), Replies(t.tdo, q.log, extra), full, rem);
  }

  lemma TakeOneMore<T>(s: seq<T>, n: nat)
    requires n < |s|
    ensures s[..n + 1] == s[..n] + [s[n]]
  {
  }

  lemma ScanOfParts(t: Target, p: Port, outgoing: seq<byte>, full: nat, rem: nat, n: nat, early: seq<bool>, last: bool)
    requires full < |outgoing| && rem < 8 && n == 8 * full + rem && p.state == RunTestIdle
    requires early == Unpack(outgoing)[..n]
    ensures var scan := [ENTER] + Middle(outgoing, full, rem) + [FinalBit(last)] + [LEAVE];
            && PortAll(p, scan) == Port(RunTestIdle, false, ScanLog(p.log, early + [last]))
            && IsRaw(SamplesAll(t, p, scan), ScanReplies(t.tdo, p.log, early + [last]))
  {
    var middle := Middle(outgoing, full, rem);
    EnterScan(t, p);
    MiddleShifts(t, PortAfter(p, ENTER), outgoing, full, rem);
    FourParts(t, p, ENTER, middle, FinalBit(last), LEAVE);
    ScanEnds(t, p.log + [CapturesDr], middle, early, last);
  }

  /** A scan from Run-Test/Idle passes Capture-DR once, shifts exactly the first `total` bits, passes
      Update-DR once and ends in Run-Test/Idle; what is read back holds the answers to those shifts. */
  lemma ScanIsPlain(t: Target, p: Port, outgoing: seq<byte>, total: nat)
    requires 1 <= total <= 8 * |outgoing|
    requires p.state == RunTestIdle
    ensures var bits := Unpack(outgoing)[..total];
            && PortAll(p, ScanInstructions(outgoing, total)) == Port(RunTestIdle, false, ScanLog(p.log, bits))
            && IsRaw(SamplesAll(t, p, ScanInstructions(outgoing, total)), ScanReplies(t.tdo, p.log, bits))
  {
    var n := total - 1;
    var early, last := Unpack(outgoing)[..n], LastBit(outgoing, total);
    ScanOfParts(t, p, outgoing, n / 8, n % 8, n, early, last);
    assert Unpack(outgoing)[..total] == early + [last] by {
      TakeOneMore(Unpack(outgoing), n);
    }
    assert ScanInstructions(outgoing, total) == [ENTER] + Middle(outgoing, n / 8, n % 8) + [FinalBit(last)] + [LEAVE];
  }

  /** From the middle of the scan to its end. */
  lemma ScanEnds(t: Target, log: seq<Event>, middle: seq<Instruction>, early: seq<bool>, last: bool)
    requires var p1 := Port(ShiftDr, false, log);
             && PortAll(p1, middle) == p1.(log := log + Shifts(early))
             && IsMiddleRaw(SamplesAll(t, p1, middle), Replies(t.tdo, log, early))
    ensures var p1 := Port(ShiftDr, false, log);
            var p2 := PortAll(p1, middle);
            var p3 := PortAfter(p2, FinalBit(last));
            && PortAfter(p3, LEAVE) == Port(RunTestIdle, false, log + Shifts(early + [last]) + [UpdatesDr])
            && IsRaw([] + SamplesAll(t, p1, middle) + Samples(t, p2, FinalBit(last)) + Samples(t, p3, LEAVE),
                     Replies(t.tdo, log, early + [last]))
  {
    var p1 := Port(ShiftDr, false, log);
    var p2 := PortAll(p1, middle);
    ShiftFinalBit(t, p2, last);
    var p3 := PortAfter(p2, FinalBit(last));
    LeaveScan(t, p3);
    ShiftsAppend(t.tdo, log, early, [last]);
    LastReply(t.tdo, log + Shifts(early), last);
    Associate(log, Shifts(early), [ShiftsDr(last)]);
    RawOfParts(SamplesAll(t, p1, middle), Samples(t, p2, FinalBit(last)), Samples(t, p3, LEAVE),
               Replies(t.tdo, log, early), t.tdo(p3.log));
  }

  lemma LastReply(tdo: seq<Event> -> bool, log: seq<Event>, last: bool)
    ensures Shifts([last]) == [ShiftsDr(last)]
    ensures Replies(tdo, log, [last]) == [tdo(log + [ShiftsDr(last)])]
  {
  }

  lemma FourParts(t: Target, p: Port, a: Instruction, b: seq<Instruction>, c: Instruction, d: Instruction)
    ensures var p1 := PortAfter(p, a);
            var p2 := PortAll(p1, b);
            var p3 := PortAfter(p2, c);
            && PortAll(p, [a] + b + [c] + [d]) == PortAfter(p3, d)
            && SamplesAll(t, p, [a] + b + [c] + [d]) ==
               Samples(t, p, a) + SamplesAll(t, p1, b) + Samples(t, p2, c) + Samples(t, p3, d)
  {
    AllAppend(t, p, [a] + b + [c], [d]);
    AllAppend(t, p, [a] + b, [c]);
    AllAppend(t, p, [a], b);
    OneInstruction(t, p, a);
    OneInstruction(t, PortAll(PortAfter(p, a), b), c);
    OneInstruction(t, PortAfter(PortAll(PortAfter(p, a), b), c), d);
  }

  lemma RawOfParts(raw: seq<byte>, final: seq<byte>, nothing: seq<byte>, early: seq<bool>, last: bool)
    requires IsMiddleRaw(raw, early)
    requires |final| == 1 && nothing == []
    requires ShiftRight(final[0], 7) % 2 == 1 <==> last
    ensures IsRaw([] + raw + final + nothing, early + [last])
  {
    var full := |early| / 8;
    var bits := early + [last];
    assert [] + raw + final + nothing == raw + final;
    assert (raw + final)[..full] == raw[..full];
    assert bits[..8 * full] == early[..8 * full];
    assert bits[8 * full..|bits| - 1] == early[8 * full..];
  }
}
