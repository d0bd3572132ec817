/** The test access port of the target (IEEE Std 1149.1, section 6.1) and what its registers notice. */
module Tap {
  import opened Bytes

  datatype State =
    | TestLogicReset | RunTestIdle
    | SelectDr | CaptureDr | ShiftDr | Exit1Dr | PauseDr | Exit2Dr | UpdateDr
    | SelectIr | CaptureIr | ShiftIr | Exit1Ir | PauseIr | Exit2Ir | UpdateIr

  /** The controller's move at a rising edge of TCK. */
  function Successor(s: State, tms: bool): State {
    match s
    case TestLogicReset => if tms then TestLogicReset else RunTestIdle
    case RunTestIdle => if tms then SelectDr else RunTestIdle
    case SelectDr => if tms then SelectIr else CaptureDr
    case CaptureDr => if tms then Exit1Dr else ShiftDr
    case ShiftDr => if tms then Exit1Dr else ShiftDr
    case Exit1Dr => if tms then UpdateDr else PauseDr
    case PauseDr => if tms then Exit2Dr else PauseDr
    case Exit2Dr => if tms then UpdateDr else ShiftDr
    case UpdateDr => if tms then SelectDr else RunTestIdle
    case SelectIr => if tms then TestLogicReset else CaptureIr
    case CaptureIr => if tms then Exit1Ir else ShiftIr
    case ShiftIr => if tms then Exit1Ir else ShiftIr
    case Exit1Ir => if tms then UpdateIr else PauseIr
    case PauseIr => if tms then Exit2Ir else PauseIr
    case Exit2Ir => if tms then UpdateIr else ShiftIr
    case UpdateIr => if tms then SelectDr else RunTestIdle
  }

  /** What the target's registers notice: a capture or shift happens at the edge that finds the
      controller in that state, an update or reset when the state is entered. */
  datatype Event =
    | Resets
    | CapturesDr | ShiftsDr(tdi: bool) | UpdatesDr
    | CapturesIr | ShiftsIr(tdi: bool) | UpdatesIr

  datatype Pins = Pins(tms: bool, tdi: bool)

  function Noticed(s: State, pins: Pins): seq<Event> {
    var during := match s
                  case CaptureDr => [CapturesDr]
                  case ShiftDr => [ShiftsDr(pins.tdi)]
                  case CaptureIr => [CapturesIr]
                  case ShiftIr => [ShiftsIr(pins.tdi)]
                  case _ => [];
    var entering := match Successor(s, pins.tms)
                    case UpdateDr => [UpdatesDr]
                    case UpdateIr => [UpdatesIr]
                    case TestLogicReset => [Resets]
                    case _ => [];
    during + entering
  }

  /** The port: controller state, the level TMS was left at, and everything noticed so far. */
  datatype Port = Port(state: State, tms: bool, log: seq<Event>)

  function Tick(p: Port, pins: Pins): Port {
    Port(Successor(p.state, pins.tms), pins.tms, p.log + Noticed(p.state, pins))
  }

  function Ticks(p: Port, clocks: seq<Pins>): Port
    decreases |clocks|
  {
    if clocks == [] then p else Ticks(Tick(p, clocks[0]), clocks[1..])
  }

  /** TDO as sampled at each clock. The target drives it as some function of what it has noticed. */
  function Seen(tdo: seq<Event> -> bool, p: Port, clocks: seq<Pins>): (bits: seq<bool>)
    ensures |bits| == |clocks|
    decreases |clocks|
  {
    if clocks == [] then []
    else
      var q := Tick(p, clocks[0]);
      [tdo(q.log)] + Seen(tdo, q, clocks[1..])
  }

  lemma {:induction false} TicksAppend(tdo: seq<Event> -> bool, p: Port, a: seq<Pins>, b: seq<Pins>)
    ensures Ticks(p, a + b) == Ticks(Ticks(p, a), b)
    ensures Seen(tdo, p, a + b) == Seen(tdo, p, a) + Seen(tdo, Ticks(p, a), b)
    decreases |a|
  {
    if a == [] {
      assert a + b == b;
    } else {
      assert (a + b)[1..] == a[1..] + b;
      TicksAppend(tdo, Tick(p, a[0]), a[1..], b);
    }
  }

  // -------------------------------------------------------- the meaning of a DR scan

  function Shifts(bits: seq<bool>): (events: seq<Event>)
    ensures |events| == |bits|
  {
    if bits == [] then [] else [ShiftsDr(bits[0])] + Shifts(bits[1..])
  }

  /** A scan captures, shifts in exactly `bits`, and updates. */
  function ScanLog(log: seq<Event>, bits: seq<bool>): seq<Event> {
    log + [CapturesDr] + Shifts(bits) + [UpdatesDr]
  }

  /** The TDO bits that answer the shifts of `bits`. */
  function Replies(tdo: seq<Event> -> bool, log: seq<Event>, bits: seq<bool>): (r: seq<bool>)
    ensures |r| == |bits|
    decreases |bits|
  {
    if bits == [] then []
    else
      var now := log + [ShiftsDr(bits[0])];
      [tdo(now)] + Replies(tdo, now, bits[1..])
  }

  function ScanReplies(tdo: seq<Event> -> bool, log: seq<Event>, bits: seq<bool>): seq<bool> {
    Replies(tdo, log + [CapturesDr], bits)
  }

  lemma {:induction false} ShiftsAppend(tdo: seq<Event> -> bool, log: seq<Event>, a: seq<bool>, b: seq<bool>)
    ensures Shifts(a + b) == Shifts(a) + Shifts(b)
    ensures Replies(tdo, log, a + b) == Replies(tdo, log, a) + Replies(tdo, log + Shifts(a), b)
    decreases |a|
  {
    if a == [] {
      assert a + b == b && log + Shifts(a) == log;
    } else {
      assert (a + b)[1..] == a[1..] + b;
      var now := log + [ShiftsDr(a[0])];
      ShiftsAppend(tdo, now, a[1..], b);
      Associate(log, [ShiftsDr(a[0])], Shifts(a[1..]));
      Associate([ShiftsDr(a[0])], Shifts(a[1..]), Shifts(b));
      Associate([tdo(now)], Replies(tdo, now, a[1..]), Replies(tdo, log + Shifts(a), b));
    }
  }

  /** Clocks with TMS held at one level. */
  function Level(tms: bool, bits: seq<bool>): (clocks: seq<Pins>)
    ensures |clocks| == |bits|
  {
    if bits == [] then [] else [Pins(tms, bits[0])] + Level(tms, bits[1..])
  }

  lemma {:induction false} LevelAppend(tms: bool, a: seq<bool>, b: seq<bool>)
    ensures Level(tms, a + b) == Level(tms, a) + Level(tms, b)
    decreases |a|
  {
    if a == [] {
      assert a + b == b;
    } else {
      assert (a + b)[1..] == a[1..] + b;
      LevelAppend(tms, a[1..], b);
    }
  }

  /** With TMS low, Shift-DR shifts one bit per clock and is not left. */
  lemma {:induction false} ShiftDrShifts(tdo: seq<Event> -> bool, p: Port, bits: seq<bool>)
    requires p.state == ShiftDr && !p.tms
    ensures Ticks(p, Level(false, bits)) == p.(log := p.log + Shifts(bits))
    ensures Seen(tdo, p, Level(false, bits)) == Replies(tdo, p.log, bits)
    decreases |bits|
  {
    if bits == [] {
      assert p.log + Shifts(bits) == p.log;
    } else {
      var q := Tick(p, Pins(false, bits[0]));
      assert Noticed(p.state, Pins(false, bits[0])) == [ShiftsDr(bits[0])];
      assert Level(false, bits)[1..] == Level(false, bits[1..]);
      ShiftDrShifts(tdo, q, bits[1..]);
      assert q.log + Shifts(bits[1..]) == p.log + Shifts(bits);
    }
  }

  lemma TwoTicks(p: Port, x: Pins, y: Pins)
    ensures Ticks(p, [x, y]) == Tick(Tick(p, x), y)
  {
    assert [x, y][1..] == [y] && [y][1..] == [];
    assert Ticks(Tick(p, x), [y]) == Ticks(Tick(Tick(p, x), y), []);
  }

  lemma ThreeTicks(p: Port, x: Pins, y: Pins, z: Pins)
    ensures Ticks(p, [x, y, z]) == Tick(Tick(Tick(p, x), y), z)
  {
    assert [x, y, z][1..] == [y, z];
    TwoTicks(Tick(p, x), y, z);
  }

  lemma FiveTicks(p: Port, v: Pins, w: Pins, x: Pins, y: Pins, z: Pins)
    ensures Ticks(p, [v, w, x, y, z]) == Tick(Tick(Tick(Tick(Tick(p, v), w), x), y), z)
  {
    assert [v, w, x, y, z][1..] == [w, x, y, z];
    assert [w, x, y, z][1..] == [x, y, z];
    ThreeTicks(Tick(Tick(p, v), w), x, y, z);
  }
}
