/** The MPSSE of an FT232H, as far as the scanner uses it: a stream of commands that clock the target's
    test access port and put samples of TDO into a queue of bytes. */
module Mpsse {
  import opened Bytes
  import opened BitStrings
  import opened StreamScan
  import opened Tap

  datatype Instruction =
    | Tms(count: nat, data: byte, sampled: bool)       // clock TMS from `data`, bit 7 is the level of TDI
    | ShiftBytes(payload: seq<byte>)                  // clock whole bytes out and in
    | ShiftBits(count: nat, data: byte, sampled: bool) // clock 1 to 8 bits out, perhaps in
    | SendImmediate                                  // let the host have the samples

  const CLOCK_TMS: byte := 0x4B
  const CLOCK_TMS_AND_READ: byte := 0x6F
  const CLOCK_BYTES_AND_READ: byte := 0x3D
  const CLOCK_BITS: byte := 0x1B
  const CLOCK_BITS_AND_READ: byte := 0x3F
  const SEND_IMMEDIATE: byte := 0x87

  /** The instruction at the head of the command stream. */
  function Next(b: seq<byte>): Verdict<Instruction> {
    if |b| == 0 then Wait
    else if b[0] == SEND_IMMEDIATE then Take(1, SendImmediate)
    else if b[0] == CLOCK_BYTES_AND_READ then
      if |b| < 3 then Wait
      else
        var size := b[1] as int + 256 * (b[2] as int) + 1;
        if |b| < 3 + size then Wait else Take(3 + size, ShiftBytes(b[3..3 + size]))
    else if b[0] == CLOCK_TMS || b[0] == CLOCK_TMS_AND_READ then
      if |b| < 3 then Wait
      else if b[1] > 6 then Halt
      else Take(3, Tms(b[1] + 1, b[2], b[0] == CLOCK_TMS_AND_READ))
    else if b[0] == CLOCK_BITS || b[0] == CLOCK_BITS_AND_READ then
      if |b| < 3 then Wait
      else if b[1] > 7 then Halt
      else Take(3, ShiftBits(b[1] + 1, b[2], b[0] == CLOCK_BITS_AND_READ))
    else Halt
  }

  ghost predicate Legal(i: Instruction) {
    match i
    case Tms(count, _, _) => 1 <= count <= 7
    case ShiftBytes(data) => 1 <= |data| <= U16_MODULUS
    case ShiftBits(count, _, _) => 1 <= count <= 8
    case SendImmediate => true
  }

  function Spelling(i: Instruction): seq<byte> {
    match i
    case Tms(count, data, sampled) =>
      if 1 <= count <= 7 then [if sampled then CLOCK_TMS_AND_READ else CLOCK_TMS, count - 1, data] else []
    case ShiftBytes(data) =>
      if 1 <= |data| <= U16_MODULUS then [CLOCK_BYTES_AND_READ, (|data| - 1) % 256, (|data| - 1) / 256] + data else []
    case ShiftBits(count, data, sampled) =>
      if 1 <= count <= 8 then [if sampled then CLOCK_BITS_AND_READ else CLOCK_BITS, count - 1, data] else []
    case SendImmediate => [SEND_IMMEDIATE]
  }

  lemma NextIsStable()
    ensures Stable(Next)
  {
    forall b, x
      ensures StableAt(Next, b, x)
    {
      if 3 <= |b| && b[0] == CLOCK_BYTES_AND_READ && 3 + b[1] as int + 256 * (b[2] as int) + 1 <= |b| {
        var end := 3 + b[1] as int + 256 * (b[2] as int) + 1;
        assert (b + x)[3..end] == b[3..end];
      }
    }
  }

  lemma LegalIsRecognised(i: Instruction)
    requires Legal(i)
    ensures Encodes(Next, Spelling, i)
  {
    var code := Spelling(i);
    if i.ShiftBytes? {
      var n := |i.payload|;
      assert code[1] as int + 256 * (code[2] as int) + 1 == n;
      assert code[3..3 + n] == i.payload;
    }
    forall k: nat
      ensures WaitsAt(Next, code, k)
    {
    }
  }

  // ------------------------------------------------------------------- execution

  /** The target's TDO, and whatever the chip leaves in the unused low bits of a bitwise sample. */
  datatype Target = Target(tdo: seq<Event> -> bool, residue: seq<Event> -> byte)

  /** The clocks of an instruction. Data is clocked with TMS at the level it was left at. */
  function ClocksOf(p: Port, i: Instruction): seq<Pins> {
    match i
    case Tms(count, data, _) => if count <= 7 then TmsClocks(Bits(data, 8)[..count], Bits(data, 8)[7]) else []
    case ShiftBytes(data) => Level(p.tms, Unpack(data))
    case ShiftBits(count, data, _) => if count <= 8 then Level(p.tms, Bits(data, 8)[..count]) else []
    case SendImmediate => []
  }

  function TmsClocks(bits: seq<bool>, tdi: bool): (clocks: seq<Pins>)
    ensures |clocks| == |bits|
  {
    if bits == [] then [] else [Pins(bits[0], tdi)] + TmsClocks(bits[1..], tdi)
  }

  /** A bitwise sample: bits enter at the top, the low bits are left over from earlier. */
  function Sample(residue: byte, bits: seq<bool>): byte
    requires |bits| <= 8
  {
    ByteOf(Bits(residue, 8)[|bits|..] + bits)
  }

  function PortAfter(p: Port, i: Instruction): Port {
    Ticks(p, ClocksOf(p, i))
  }

  /** The bytes an instruction puts into the queue. */
  function Samples(t: Target, p: Port, i: Instruction): seq<byte> {
    var bits := Seen(t.tdo, p, ClocksOf(p, i));
    match i
    case ShiftBytes(_) => Pack(bits)
    case Tms(_, _, sampled) => if sampled && |bits| <= 8 then [Sample(t.residue(p.log), bits)] else []
    case ShiftBits(_, _, sampled) => if sampled && |bits| <= 8 then [Sample(t.residue(p.log), bits)] else []
    case SendImmediate => []
  }

  function PortAll(p: Port, instructions: seq<Instruction>): Port
    decreases |instructions|
  {
    if instructions == [] then p else PortAll(PortAfter(p, instructions[0]), instructions[1..])
  }

  function SamplesAll(t: Target, p: Port, instructions: seq<Instruction>): seq<byte>
    decreases |instructions|
  {
    if instructions == [] then []
    else Samples(t, p, instructions[0]) + SamplesAll(t, PortAfter(p, instructions[0]), instructions[1..])
  }

  lemma {:induction false} AllAppend(t: Target, p: Port, a: seq<Instruction>, b: seq<Instruction>)
    ensures PortAll(p, a + b) == PortAll(PortAll(p, a), b)
    ensures SamplesAll(t, p, a + b) == SamplesAll(t, p, a) + SamplesAll(t, PortAll(p, a), b)
    decreases |a|
  {
    if a == [] {
      assert a + b == b;
    } else {
      assert (a + b)[1..] == a[1..] + b;
      var q := PortAfter(p, a[0]);
      AllAppend(t, q, a[1..], b);
      Associate(Samples(t, p, a[0]), SamplesAll(t, q, a[1..]), SamplesAll(t, PortAll(q, a[1..]), b));
    }
  }

  lemma OneInstruction(t: Target, p: Port, i: Instruction)
    ensures PortAll(p, [i]) == PortAfter(p, i)
    ensures SamplesAll(t, p, [i]) == Samples(t, p, i)
  {
  }

  // -------------------------------------------------------------------- the chip

  /** The chip: command bytes whose instruction is incomplete, the target's port, samples not yet sent
      to the host, and samples the host can read. */
  datatype Chip = Chip(kept: seq<byte>, port: Port, held: seq<byte>, ready: seq<byte>)

  function Execute(t: Target, c: Chip, i: Instruction): Chip {
    if i.SendImmediate? then c.(held := [], ready := c.ready + c.held)
    else c.(port := PortAfter(c.port, i), held := c.held + Samples(t, c.port, i))
  }

  function ExecuteAll(t: Target, c: Chip, instructions: seq<Instruction>): Chip
    decreases |instructions|
  {
    if instructions == [] then c else ExecuteAll(t, Execute(t, c, instructions[0]), instructions[1..])
  }

  /** The effect of writing `data` to the chip. */
  function Absorb(t: Target, c: Chip, data: seq<byte>): Chip {
    var scan := Scan(Next, c.kept + data);
    ExecuteAll(t, c, scan.events).(kept := scan.rest)
  }

  lemma {:induction false} ExecuteAllAppend(t: Target, c: Chip, kept: seq<byte>, a: seq<Instruction>, b: seq<Instruction>)
    ensures ExecuteAll(t, c, a + b) == ExecuteAll(t, ExecuteAll(t, c, a), b)
    ensures ExecuteAll(t, c.(kept := kept), a) == ExecuteAll(t, c, a).(kept := kept)
    decreases |a|
  {
    if a == [] {
      assert a + b == b;
    } else {
      assert (a + b)[1..] == a[1..] + b;
      ExecuteAllAppend(t, Execute(t, c, a[0]), kept, a[1..], b);
    }
  }

  /** How the command stream is cut into USB packets does not matter. */
  lemma PacketsDoNotMatter(t: Target, c: Chip, a: seq<byte>, b: seq<byte>)
    ensures Absorb(t, c, a + b) == Absorb(t, Absorb(t, c, a), b)
  {
    NextIsStable();
    ScanSplit(Next, c.kept + a, b);
    Associate(c.kept, a, b);
    var first := Scan(Next, c.kept + a);
    var second := Scan(Next, first.rest + b);
    ExecuteAllAppend(t, c, first.rest, first.events, second.events);
    ExecuteAllAppend(t, ExecuteAll(t, c, first.events), first.rest, second.events, []);
  }

  /** Executing instructions other than the flush moves the port and fills the queue. */
  lemma {:induction false} ExecuteScans(t: Target, c: Chip, instructions: seq<Instruction>)
    requires forall i | i in instructions :: !i.SendImmediate?
    ensures ExecuteAll(t, c, instructions) ==
            c.(port := PortAll(c.port, instructions), held := c.held + SamplesAll(t, c.port, instructions))
    decreases |instructions|
  {
    if instructions == [] {
      assert c.held + [] == c.held;
    } else {
      var d := Execute(t, c, instructions[0]);
      ExecuteScans(t, d, instructions[1..]);
      Associate(c.held, Samples(t, c.port, instructions[0]), SamplesAll(t, d.port, instructions[1..]));
    }
  }

  /** Writing the spelling of instructions to an idle chip executes exactly them. */
  lemma AbsorbSpelling(t: Target, c: Chip, instructions: seq<Instruction>)
    requires c.kept == []
    requires forall i | i in instructions :: Legal(i)
    ensures Absorb(t, c, EncodeAll(Spelling, instructions)) == ExecuteAll(t, c, instructions)
  {
    forall i | i in instructions
      ensures Encodes(Next, Spelling, i)
    {
      LegalIsRecognised(i);
    }
    NextIsStable();
    var code := EncodeAll(Spelling, instructions);
    WholeStream(Next, Spelling, instructions);
    assert c.kept + code == code;
    ExecuteAllAppend(t, c, [], instructions, []);
  }
}
