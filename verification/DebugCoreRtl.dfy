/** The registers of the debug core's queue, packetizer and counters, and their clock edges. */
module DebugCoreRtl {
  import opened Bytes
  import opened BitStrings
  import opened Wrappers
  import opened DebugProtocol
  import opened DebugCore

  // ----------------------------------------------------------------- message queue

  /** The entry `i` places after `rd` in a ring of `depth` entries. */
  function Slot(rd: nat, i: nat, depth: nat): (slot: nat)
    requires rd < depth && i <= depth
    ensures slot < depth
  {
    if rd + i < depth then rd + i else rd + i - depth
  }

  /** A pointer of exactly as many bits as the ring has address lines wraps around by itself. */
  function Advance(pointer: nat, depth: nat): (next: nat)
    requires pointer < depth
    ensures next < depth
  {
    if pointer + 1 == depth then 0 else pointer + 1
  }

  function Held(entries: seq<Msg>, rd: nat, count: nat): (queue: seq<Msg>)
    requires rd < |entries| && count <= |entries|
    ensures |queue| == count
    ensures forall i | 0 <= i < count :: queue[i] == entries[Slot(rd, i, |entries|)]
  {
    seq(count, i requires 0 <= i < count => entries[Slot(rd, i, |entries|)])
  }

  lemma WriteAppends(entries: seq<Msg>, rd: nat, count: nat, m: Msg)
    requires rd < |entries| && count < |entries|
    ensures Held(entries[Slot(rd, count, |entries|) := m], rd, count + 1) == Held(entries, rd, count) + [m]
  {
  }

  lemma ReadRemoves(entries: seq<Msg>, rd: nat, count: nat)
    requires rd < |entries| && 0 < count <= |entries|
    ensures Held(entries, Advance(rd, |entries|), count - 1) == Held(entries, rd, count)[1..]
    ensures Slot(Advance(rd, |entries|), count - 1, |entries|) == Slot(rd, count, |entries|)
  {
  }

  /** A write into a full ring that is read at the same time takes the place of the entry read. */
  lemma WriteWhileReading(entries: seq<Msg>, rd: nat, count: nat, m: Msg)
    requires rd < |entries| && 0 < count <= |entries|
    ensures Held(entries[Slot(rd, count, |entries|) := m], Advance(rd, |entries|), count) ==
            Held(entries, rd, count)[1..] + [m]
  {
  }

  lemma SlotAdvances(rd: nat, count: nat, depth: nat)
    requires rd < depth && count < depth
    ensures Advance(Slot(rd, count, depth), depth) == Slot(rd, count + 1, depth)
  {
  }

  class RingBuffer {
    const mem: array<Msg>
    var wrPtr: nat
    var rdPtr: nat
    var count: nat

    ghost predicate Valid()
      reads this, mem
    {
      && rdPtr < mem.Length && count <= mem.Length
      && wrPtr == Slot(rdPtr, count, mem.Length)
    }

    ghost function Queue(): (queue: seq<Msg>)
      requires Valid()
      reads this, mem
    {
      Held(mem[..], rdPtr, count)
    }

    constructor (addrWidth: nat, power: Msg)
      requires 2 <= addrWidth
      ensures Valid() && fresh(mem) && mem.Length == Power2(addrWidth) && Queue() == []
    {
      mem := new Msg[Power2(addrWidth)](_ => power);
      wrPtr, rdPtr, count := 0, 0, 0;
    }

    /** Synchronous reset; the entries keep their content. */
    method Reset()
      requires Valid()
      modifies this`wrPtr, this`rdPtr, this`count
      ensures Valid() && Queue() == []
    {
      wrPtr, rdPtr, count := 0, 0, 0;
    }

    predicate RdValid()
      reads this
    {
      count != 0
    }

    predicate WrReady(rdReady: bool)
      reads this
    {
      count != mem.Length || rdReady
    }

    function Head(): (m: Msg)
      requires Valid()
      reads this, mem
      ensures RdValid() ==> m == Queue()[0]
    {
      mem[rdPtr]
    }

    /** One clock edge. The message read and the message written do not depend on each other. */
    method Clock(wr: Option<Msg>, rdReady: bool)
      requires Valid()
      modifies this`wrPtr, this`rdPtr, this`count, mem
      ensures Valid()
      ensures var q := old(Queue());
              var left := if q != [] && rdReady then q[1..] else q;
              Queue() == left + (if wr.Some? && old(WrReady(rdReady)) then [wr.value] else [])
    {
      var doRead := RdValid() && rdReady;
      var doWrite := wr.Some? && WrReady(rdReady);
      ghost var entries, rd, n, depth := mem[..], rdPtr, count, mem.Length;
      if doRead && doWrite {
        WriteWhileReading(entries, rd, n, wr.value);
        ReadRemoves(entries, rd, n);
        SlotAdvances(Advance(rd, depth), n - 1, depth);
      } else if doWrite {
        WriteAppends(entries, rd, n, wr.value);
        SlotAdvances(rd, n, depth);
      } else if doRead {
        ReadRemoves(entries, rd, n);
      }
      if doWrite {
        mem[wrPtr] := wr.value;
        wrPtr := Advance(wrPtr, mem.Length);
        assert mem[..] == entries[Slot(rd, n, depth) := wr.value];
      }
      if doRead {
        rdPtr := Advance(rdPtr, mem.Length);
      }
      if doWrite && !doRead {
        count := count + 1;
      } else if doRead && !doWrite {
        count := count - 1;
      }
    }
  }

  // -------------------------------------------------------------------- packetizer

  class PacketizerRtl {
    var sending: bool
    var latchedType: byte
    var latchedLen: byte
    var latchedPayload: seq<byte>
    var byteIndex: nat
    var outValid: bool
    var outData: byte

    ghost predicate Valid()
      reads this
    {
      && |latchedPayload| == PAYLOAD_BYTES
      && (sending ==> latchedLen <= MAX_PAYLOAD && byteIndex <= 4 + latchedLen)
    }

    /** The bytes of the current frame that were not taken yet. */
    ghost function State(): DebugCore.Packetizer
      requires Valid()
      reads this
    {
      var rest := if sending then FrameOf(Msg(latchedType, latchedLen, latchedPayload))[byteIndex..] else [];
      DebugCore.Packetizer((if outValid then [outData] else []) + rest, outValid)
    }

    constructor ()
      ensures Valid() && State() == DebugCore.Packetizer([], false)
    {
      sending, outValid := false, false;
      latchedType, latchedLen, byteIndex, outData := 0, 0, 0, 0;
      latchedPayload := seq(PAYLOAD_BYTES, _ => 0);
    }

    method Reset()
      modifies this
      ensures Valid() && State() == DebugCore.Packetizer([], false)
    {
      sending, outValid := false, false;
      latchedType, latchedLen, byteIndex, outData := 0, 0, 0, 0;
      latchedPayload := seq(PAYLOAD_BYTES, _ => 0);
    }

    predicate MsgReady(payloadLen: byte)
      reads this
    {
      !sending && !outValid && payloadLen <= MAX_PAYLOAD
    }

    /** The combinational checksum of the latched message. */
    method ChecksumValue() returns (checksum: byte)
      requires Valid() && latchedLen <= MAX_PAYLOAD
      ensures checksum == XorFold(0, Body(latchedType, latchedPayload[..latchedLen]))
    {
      checksum := Xor(Xor(VERSION, latchedType), latchedLen);
      ghost var start := checksum;
      for i := 0 to 32
        invariant checksum == XorFold(start, latchedPayload[..Min(i, latchedLen)])
      {
        if i < latchedLen {
          OneMoreByte(start, latchedPayload, i);
          checksum := Xor(checksum, latchedPayload[i]);
        }
      }
      BodyChecksum(latchedType, latchedPayload[..latchedLen]);
    }

    /** `frame_byte` */
    method FrameByte(index: nat) returns (value: byte)
      requires Valid() && latchedLen <= MAX_PAYLOAD && index <= 4 + latchedLen
      ensures value == FrameOf(Msg(latchedType, latchedLen, latchedPayload))[index]
    {
      FrameParts(latchedType, latchedPayload[..latchedLen]);
      ghost var f := FrameOf(Msg(latchedType, latchedLen, latchedPayload));
      if index == 0 {
        value := SOF;
      } else if index == 1 {
        value := VERSION;
      } else if index == 2 {
        value := latchedType;
      } else if index == 3 {
        value := latchedLen;
      } else if index < 4 + latchedLen {
        assert f[index] == f[4..|f| - 1][index - 4];
        value := latchedPayload[index - 4];
      } else {
        value := ChecksumValue();
      }
    }

    /** One clock edge. */
    method Clock(offered: Option<Msg>, outReady: bool)
      requires Valid()
      requires offered.Some? ==> WellSized(offered.value)
      modifies this
      ensures Valid()
      ensures State() == PacketizerNext(old(State()), offered, outReady)
    {
      if sending {
        if !outValid || outReady {
          LoadByte(outReady);
        }
      } else if outValid {
        if outReady {
          outValid := false;
        }
      } else if offered.Some? && MsgReady(offered.value.len) {
        latchedType, latchedLen, latchedPayload := offered.value.kind, offered.value.len, offered.value.payload;
        byteIndex := 0;
        sending := true;
        assert FrameOf(offered.value)[0..] == FrameOf(offered.value);
      }
    }

    /** In the sending state, the output register is free or being emptied. */
    method LoadByte(outReady: bool)
      requires Valid() && sending && (!outValid || outReady)
      modifies this
      ensures Valid()
      ensures State() == PacketizerNext(old(State()), None, outReady)
    {
      ghost var f := FrameOf(Msg(latchedType, latchedLen, latchedPayload));
      assert f[byteIndex..] == [f[byteIndex]] + f[byteIndex + 1..];
      var value := FrameByte(byteIndex);
      outValid := true;
      outData := value;
      if byteIndex == 4 + latchedLen {
        assert f[byteIndex + 1..] == [];
        sending := false;
        byteIndex := 0;
      } else {
        byteIndex := byteIndex + 1;
      }
    }
  }

  lemma OneMoreByte(start: byte, payload: seq<byte>, i: nat)
    requires i < |payload|
    ensures XorFold(start, payload[..i + 1]) == Xor(XorFold(start, payload[..i]), payload[i])
  {
    assert payload[..i + 1] == payload[..i] + [payload[i]];
    XorFoldAppend(start, payload[..i], [payload[i]]);
    XorFoldOne(XorFold(start, payload[..i]), payload[i]);
  }

  lemma XorFoldOne(start: byte, x: byte)
    ensures XorFold(start, [x]) == Xor(start, x)
  {
  }

  /** The hardware starts from the three header bytes, the frame definition from zero. */
  lemma BodyChecksum(kind: byte, payload: seq<byte>)
    requires |payload| < 256
    ensures XorFold(0, Body(kind, payload)) == XorFold(Xor(Xor(VERSION, kind), |payload|), payload)
  {
    XorFoldAppend(0, [VERSION, kind, |payload|], payload);
    XorZero(VERSION);
    assert [VERSION, kind, |payload|][1..] == [kind, |payload|];
    assert [kind, |payload|][1..] == [|payload|];
    XorFoldOne(Xor(VERSION, kind), |payload|);
  }

  // ---------------------------------------------------------------------- the core

  /** Addition in a 16-bit register. */
  function Add16(value: u16, increment: u16): u16 {
    if value + increment < U16_MODULUS then value + increment else value + increment - U16_MODULUS
  }

  lemma {:induction false} Low16Add(n: nat, increment: u16)
    ensures Low16(n + increment) == Add16(Low16(n), increment)
    decreases n
  {
    if U16_MODULUS <= n {
      Low16Add(n - U16_MODULUS, increment);
    }
  }

  /** The ready outputs of the four sources that wait for them. */
  datatype Readiness = Readiness(monitor: bool, trace: bool, la: bool, profiler: bool)

  datatype Wires = Wires(
    offered: Option<Msg>, rdReady: bool, wrReady: bool, candidate: Option<(Source, Msg)>, readiness: Readiness,
    byteOut: Option<byte>)

  function AsBytes(b: Option<byte>): seq<byte> {
    if b.Some? then [b.value] else []
  }

  /** The wires carry what the state says. */
  ghost predicate AreWires(c: Core, i: Inputs, w: Wires) {
    && Sound(c)
    && w.offered == Offered(c)
    && w.rdReady == Reads(c)
    && w.wrReady == WriteReady(c)
    && w.candidate == Arbitrate(i, StreamReady(c), ReportOf(c))
    && w.readiness == Readiness(MonitorReady(c), TraceReady(c, i), AnalyzerReady(c, i), ProfilerReady(c, i))
    && AsBytes(w.byteOut) == Taken(c.packetizer, i.byteReady)
  }

  /** The message at the queue's input. */
  function Selected(w: Wires): Option<Msg> {
    if w.candidate.Some? then Some(w.candidate.value.1) else None
  }

  /** The queue after an edge with these wires. */
  function QueueAfter(queue: seq<Msg>, w: Wires): seq<Msg> {
    var left := if queue != [] && w.rdReady then queue[1..] else queue;
    left + if Selected(w).Some? && w.wrReady then [Selected(w).value] else []
  }

  /** With the right wires, queue and packetizer move as the specification says. */
  lemma PartsMove(c: Core, i: Inputs, w: Wires)
    requires AreWires(c, i, w) && ValidInputs(i)
    ensures Next(c, i).queue == QueueAfter(c.queue, w)
    ensures Next(c, i).packetizer == PacketizerNext(c.packetizer, w.offered, i.byteReady)
    ensures w.offered.Some? ==> WellSized(w.offered.value)
  {
    if w.offered.Some? {
      assert c.queue[0] in c.queue;
    }
  }

  class YifpgaDebugCore {
    const fifo: RingBuffer
    const packetizer: PacketizerRtl
    var dropCount: u16
    var packetCount: u16

    /** What the registers stand for, with unbounded counts of everything since the last reset. */
    ghost var core: Core

    /** The queue and the packetizer hold what the core says, and the 16-bit counters are the remainders
        of the unbounded counts. */
    ghost predicate Valid()
      reads this, fifo, fifo.mem, packetizer
    {
      && Sound(core)
      && fifo.Valid() && fifo.mem.Length == core.depth && fifo.Queue() == core.queue
      && packetizer.Valid() && packetizer.State() == core.packetizer
      && dropCount == Low16(Dropped(core))
      && packetCount == Low16(|core.accepted|)
    }

    constructor (addrWidth: nat, power: Msg)
      requires 2 <= addrWidth <= 15
      ensures Valid() && core == AfterReset(Power2(addrWidth))
      ensures fresh(fifo) && fresh(fifo.mem) && fresh(packetizer)
    {
      Power2Monotone(2, addrWidth);
      Power2Monotone(addrWidth, 15);
      assert Power2(2) == 4 && Power2(15) == 32768;
      fifo := new RingBuffer(addrWidth, power);
      packetizer := new PacketizerRtl();
      dropCount, packetCount := 0, 0;
      core := AfterReset(Power2(addrWidth));
    }

    /** Synchronous reset. */
    method Reset()
      requires Valid()
      modifies this, fifo`wrPtr, fifo`rdPtr, fifo`count, packetizer
      ensures Valid() && core == AfterReset(old(core).depth)
    {
      fifo.Reset();
      packetizer.Reset();
      dropCount, packetCount := 0, 0;
      core := AfterReset(core.depth);
    }

    /** One clock edge. The result is the byte handed to the transport in this cycle. */
    method Clock(i: Inputs) returns (byteOut: Option<byte>)
      requires Valid() && ValidInputs(i)
      modifies this, fifo`wrPtr, fifo`rdPtr, fifo`count, fifo.mem, packetizer
      ensures Valid()
      ensures core == Next(old(core), i)
      ensures core.transferred == old(core).transferred + AsBytes(byteOut)
    {
      var w := Combine(i);
      byteOut := w.byteOut;
      PartsMove(core, i, w);
      ClockParts(i, w);
      Count(i, w);
      core := Next(core, i);
    }

    /** The wires between the registers in this cycle. */
    method Combine(i: Inputs) returns (w: Wires)
      requires Valid()
      ensures AreWires(core, i, w)
      ensures w.wrReady <==> fifo.WrReady(w.rdReady)
    {
      var head, used := fifo.Head(), fifo.count;
      var rdReady := fifo.RdValid() && packetizer.MsgReady(head.len);
      var wrReady := fifo.WrReady(rdReady);
      var streamReady := wrReady && used < fifo.mem.Length - 2;
      var candidate := Arbitrate(i, streamReady, Report(used, dropCount, packetCount));
      var traceReady := streamReady && i.monitor.None? && LegacyPulses(i) == 0;
      var laReady := traceReady && i.trace.None?;
      var readiness := Readiness(wrReady, traceReady, laReady, laReady && i.la.None?);
      var byteOut := if packetizer.outValid && i.byteReady then Some(packetizer.outData) else None;
      w := Wires(if fifo.RdValid() then Some(head) else None, rdReady, wrReady, candidate, readiness, byteOut);
    }

    /** The queue and the packetizer at the edge. */
    method ClockParts(i: Inputs, w: Wires)
      requires fifo.Valid() && packetizer.Valid()
      requires w.offered.Some? ==> WellSized(w.offered.value)
      requires w.wrReady <==> fifo.WrReady(w.rdReady)
      modifies fifo`wrPtr, fifo`rdPtr, fifo`count, fifo.mem, packetizer
      ensures fifo.Valid() && packetizer.Valid()
      ensures fifo.Queue() == QueueAfter(old(fifo.Queue()), w)
      ensures packetizer.State() == PacketizerNext(old(packetizer.State()), w.offered, i.byteReady)
    {
      packetizer.Clock(w.offered, i.byteReady);
      fifo.Clock(Selected(w), w.rdReady);
    }

    /** The counters `packet_count` and `drop_count`. */
    method Count(i: Inputs, w: Wires)
      requires ValidInputs(i) && AreWires(core, i, w)
      requires dropCount == Low16(Dropped(core)) && packetCount == Low16(|core.accepted|)
      modifies `dropCount, `packetCount
      ensures dropCount == Low16(Dropped(Next(core, i)))
      ensures packetCount == Low16(|Next(core, i).accepted|)
    {
      var packetAccepted := w.candidate.Some? && w.wrReady;
      var legacyPacketAccepted := if packetAccepted && i.monitor.None? && LegacyValid(i) then 1 else 0;
      var inputCount := LegacyPulses(i);
      var coreDropIncrement := if inputCount > legacyPacketAccepted then inputCount - legacyPacketAccepted else 0;
      var increment := coreDropIncrement + if i.traceDropped then 1 else 0;
      CountsMove(core, i, increment);
      CountUp(increment, packetAccepted, Dropped(core), |core.accepted|);
    }

    method CountUp(increment: u16, packetAccepted: bool, ghost dropped: nat, ghost accepted: nat)
      requires dropCount == Low16(dropped) && packetCount == Low16(accepted)
      modifies `dropCount, `packetCount
      ensures dropCount == Low16(dropped + increment)
      ensures packetCount == Low16(accepted + if packetAccepted then 1 else 0)
    {
      Low16Add(accepted, 1);
      Low16Add(dropped, increment);
      if packetAccepted {
        packetCount := Add16(packetCount, 1);
      }
      dropCount := Add16(dropCount, increment);
    }
  }

  /** Every pulse that does not get its message enqueued is one more drop. */
  lemma CountsMove(c: Core, i: Inputs, increment: nat)
    requires Sound(c) && ValidInputs(i)
    requires var e := Enqueued(c, i);
             var taken := if e.Some? && i.monitor.None? && LegacyValid(i) then 1 else 0;
             increment == LegacyPulses(i) - taken + (if i.traceDropped then 1 else 0)
    ensures Dropped(Next(c, i)) == Dropped(c) + increment
    ensures |Next(c, i).accepted| == |c.accepted| + (if Enqueued(c, i).Some? then 1 else 0)
  {
  }
}
