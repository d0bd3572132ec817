/** Bringing the target into Run-Test/Idle and selecting its USER2 register. */
module MpsseSetup {
  import opened Bytes
  import opened BitStrings
  import opened StreamScan
  import opened Tap
  import opened Mpsse
  import opened MpsseScan

  /** USER2 of the UltraScale instruction register, whose length is 6, first bit first. */
  const USER2: seq<bool> := [true, true, false, false, false, false]

  const FIVE_HIGH := Tms(5, 0x1F, false)
  const ONE_LOW := Tms(1, 0, false)
  const TO_SHIFT_IR := Tms(4, 3, false)
  const FIVE_BITS := ShiftBits(5, 3, false)
  const LAST_BIT := Tms(1, 1, false)

  function InstructionShifts(bits: seq<bool>): seq<Event> {
    if bits == [] then [] else [ShiftsIr(bits[0])] + InstructionShifts(bits[1..])
  }

  lemma TmsClocksOfFive(a: bool, b: bool, c: bool, d: bool, e: bool)
    ensures TmsClocks([a, b, c, d, e], false) ==
            [Pins(a, false), Pins(b, false), Pins(c, false), Pins(d, false), Pins(e, false)]
  {
    TmsClocksOfFour(b, c, d, e);
    assert [a, b, c, d, e][1..] == [b, c, d, e];
  }

  lemma TmsClocksOfFour(b: bool, c: bool, d: bool, e: bool)
    ensures TmsClocks([b, c, d, e], false) == [Pins(b, false), Pins(c, false), Pins(d, false), Pins(e, false)]
  {
    assert [b, c, d, e][1..] == [c, d, e];
    assert [c, d, e][1..] == [d, e];
    assert [d, e][1..] == [e];
    assert [e][1..] == [];
    assert TmsClocks([d, e], false) == [Pins(d, false)] + TmsClocks([e], false);
  }

  lemma FourTicks(p: Port, w: Pins, x: Pins, y: Pins, z: Pins)
    ensures Ticks(p, [w, x, y, z]) == Tick(Tick(Tick(Tick(p, w), x), y), z)
  {
    assert [w, x, y, z][1..] == [x, y, z];
    ThreeTicks(Tick(p, w), x, y, z);
  }

  /** From every state of the controller the two commands of `tap_reset` pass Test-Logic-Reset and end
      in Run-Test/Idle. */
  lemma ResetReachesIdle(p: Port)
    ensures var q := PortAfter(PortAfter(p, FIVE_HIGH), ONE_LOW);
            && q.state == RunTestIdle && !q.tms
            && p.log <= q.log && q.log != [] && q.log[|q.log| - 1] == Resets
  {
    FiveHigh(p);
    OneLow(PortAfter(p, FIVE_HIGH));
    LeaveReset(PortAfter(p, FIVE_HIGH));
  }

  lemma LeaveReset(p: Port)
    requires p.state == TestLogicReset
    ensures Tick(p, Pins(false, false)) == Port(RunTestIdle, false, p.log)
  {
  }

  lemma OneLow(p: Port)
    ensures PortAfter(p, ONE_LOW) == Tick(p, Pins(false, false))
  {
    assert Bits(0, 8) == [false, false, false, false, false, false, false, false];
    assert Bits(0, 8)[..1] == [false];
    assert [false][1..] == [];
    assert TmsClocks([false], false) == [Pins(false, false)];
    OneTick(_ => true, p, Pins(false, false));
  }

  lemma FiveHigh(p: Port)
    ensures var q := PortAfter(p, FIVE_HIGH);
            q.state == TestLogicReset && p.log <= q.log && q.log != [] && q.log[|q.log| - 1] == Resets
  {
    assert Bits(31, 8) == [true, true, true, true, true, false, false, false];
    assert Bits(31, 8)[..5] == [true, true, true, true, true];
    TmsClocksOfFive(true, true, true, true, true);
    var high := Pins(true, false);
    FiveTicks(p, high, high, high, high, high);
    FiveHighStates(p, high);
  }

  lemma FiveHighStates(p: Port, high: Pins)
    requires high.tms
    ensures var q := Tick(Tick(Tick(Tick(Tick(p, high), high), high), high), high);
            q.state == TestLogicReset && p.log <= q.log && q.log != [] && q.log[|q.log| - 1] == Resets
  {
    var a := Tick(p, high);
    var b := Tick(a, high);
    var c := Tick(b, high);
    var d := Tick(c, high);
    assert d.state == TestLogicReset || d.state == SelectIr || d.state == UpdateDr || d.state == SelectDr
           || d.state == Exit1Dr || d.state == Exit2Dr || d.state == UpdateIr;
  }

  // ------------------------------------------------------------- selecting USER2

  lemma ToShiftIrClocks(p: Port)
    ensures ClocksOf(p, TO_SHIFT_IR) == [Pins(true, false), Pins(true, false), Pins(false, false), Pins(false, false)]
  {
    assert Bits(3, 8) == [true, true, false, false, false, false, false, false];
    assert Bits(3, 8)[..4] == [true, true, false, false];
    TmsClocksOfFour(true, true, false, false);
  }

  lemma ToShiftIrStates(p: Port)
    requires p.state == RunTestIdle
    ensures var high, low := Pins(true, false), Pins(false, false);
            Tick(Tick(Tick(Tick(p, high), high), low), low) == Port(ShiftIr, false, p.log + [CapturesIr])
  {
    var q := Tick(Tick(Tick(p, Pins(true, false)), Pins(true, false)), Pins(false, false));
    assert p.log + [] == p.log;
    assert q == Port(CaptureIr, false, p.log);
    assert Noticed(CaptureIr, Pins(false, false)) == [CapturesIr];
  }

  lemma EnterShiftIr(p: Port)
    requires p.state == RunTestIdle
    ensures PortAfter(p, TO_SHIFT_IR) == Port(ShiftIr, false, p.log + [CapturesIr])
  {
    ToShiftIrClocks(p);
    FourTicks(p, Pins(true, false), Pins(true, false), Pins(false, false), Pins(false, false));
    ToShiftIrStates(p);
  }

  /** With TMS low, Shift-IR shifts one bit per clock and is not left. */
  lemma {:induction false} ShiftIrShifts(p: Port, bits: seq<bool>)
    requires p.state == ShiftIr && !p.tms
    ensures Ticks(p, Level(false, bits)) == p.(log := p.log + InstructionShifts(bits))
    decreases |bits|
  {
    if bits == [] {
      assert p.log + [] == p.log;
    } else {
      var q := Tick(p, Pins(false, bits[0]));
      assert Noticed(p.state, Pins(false, bits[0])) == [ShiftsIr(bits[0])];
      assert Level(false, bits)[1..] == Level(false, bits[1..]);
      ShiftIrShifts(q, bits[1..]);
      Associate(p.log, [ShiftsIr(bits[0])], InstructionShifts(bits[1..]));
    }
  }

  lemma {:induction false} OneMoreShift(bits: seq<bool>, last: bool)
    ensures InstructionShifts(bits + [last]) == InstructionShifts(bits) + [ShiftsIr(last)]
    decreases |bits|
  {
    if bits == [] {
      assert bits + [last] == [last];
      assert [last][1..] == [];
    } else {
      assert (bits + [last])[1..] == bits[1..] + [last];
      OneMoreShift(bits[1..], last);
    }
  }

  lemma ShiftFiveBits(p: Port)
    requires p.state == ShiftIr && !p.tms
    ensures PortAfter(p, FIVE_BITS) == p.(log := p.log + InstructionShifts(USER2[..5]))
  {
    assert Bits(3, 8) == [true, true, false, false, false, false, false, false];
    assert Bits(3, 8)[..5] == USER2[..5];
    ShiftIrShifts(p, USER2[..5]);
  }

  lemma ShiftLastBit(p: Port)
    requires p.state == ShiftIr
    ensures PortAfter(p, LAST_BIT) == Port(Exit1Ir, true, p.log + [ShiftsIr(false)])
  {
    assert Bits(1, 8) == [true, false, false, false, false, false, false, false];
    assert Bits(1, 8)[..1] == [true];
    assert [true][1..] == [];
    assert TmsClocks([true], false) == [Pins(true, false)];
    OneTick(_ => true, p, Pins(true, false));
  }

  lemma LeaveIr(p: Port)
    requires p.state == Exit1Ir
    ensures PortAfter(p, LEAVE) == Port(RunTestIdle, false, p.log + [UpdatesIr])
  {
    LeaveClocks(p);
    TwoTicks(p, Pins(true, false), Pins(false, false));
    assert p.log + [UpdatesIr] + [] == p.log + [UpdatesIr];
  }

  /** The commands of `select_user2` shift the six bits of USER2 through the instruction register. */
  lemma SelectShiftsUser2(p: Port)
    requires p.state == RunTestIdle
    ensures PortAfter(PortAfter(PortAfter(PortAfter(p, TO_SHIFT_IR), FIVE_BITS), LAST_BIT), LEAVE) ==
            Port(RunTestIdle, false, p.log + [CapturesIr] + InstructionShifts(USER2) + [UpdatesIr])
  {
    EnterShiftIr(p);
    var q := PortAfter(p, TO_SHIFT_IR);
    ShiftFiveBits(q);
    var r := PortAfter(q, FIVE_BITS);
    ShiftLastBit(r);
    LeaveIr(PortAfter(r, LAST_BIT));
    OneMoreShift(USER2[..5], false);
    assert USER2[..5] + [false] == USER2;
    Associate(q.log, InstructionShifts(USER2[..5]), [ShiftsIr(false)]);
  }

  /** `_tms` without reading: a TMS command and a flush. */
  lemma TmsRuns(t: Target, c: Chip, count: nat, levels: byte)
    requires c.kept == [] && c.held == [] && c.ready == []
    requires 1 <= count <= 7
    ensures Absorb(t, c, [CLOCK_TMS, count - 1, levels, SEND_IMMEDIATE]) ==
            c.(port := PortAfter(c.port, Tms(count, levels, false)))
  {
    var i := Tms(count, levels, false);
    Spelled(i);
    assert [CLOCK_TMS, count - 1, levels, SEND_IMMEDIATE] == Spelling(i) + [SEND_IMMEDIATE];
    AbsorbSpelling(t, c, [i, SendImmediate]);
    assert [i, SendImmediate][1..] == [SendImmediate] && [SendImmediate][1..] == [];
    var d := Execute(t, c, i);
    assert d == c.(port := PortAfter(c.port, i));
    assert ExecuteAll(t, d, [SendImmediate]) == ExecuteAll(t, Execute(t, d, SendImmediate), []);
  }

  lemma Spelled(i: Instruction)
    ensures EncodeAll(Spelling, [i, SendImmediate]) == Spelling(i) + [SEND_IMMEDIATE]
  {
    assert [i, SendImmediate][1..] == [SendImmediate] && [SendImmediate][1..] == [];
  }

  lemma BitsRun(t: Target, c: Chip, count: nat, data: byte)
    requires c.kept == [] && c.held == [] && c.ready == []
    requires 1 <= count <= 8
    ensures Absorb(t, c, [CLOCK_BITS, count - 1, data]) == c.(port := PortAfter(c.port, ShiftBits(count, data, false)))
  {
    var i := ShiftBits(count, data, false);
    assert [i][1..] == [];
    assert EncodeAll(Spelling, [i]) == Spelling(i);
    AbsorbSpelling(t, c, [i]);
    assert ExecuteAll(t, c, [i]) == ExecuteAll(t, Execute(t, c, i), []);
  }
}
