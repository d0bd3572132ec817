/** Debug Protocol v1 frames: start byte, version, type, payload length, payload, XOR checksum. */
module DebugProtocol {
  import opened Bytes

  const SOF: byte := 0xA5
  const VERSION: byte := 0x01
  const MAX_PAYLOAD := 32

  const MONITOR_READ_REQ: byte := 0x20
  const MONITOR_WRITE_REQ: byte := 0x22

  /** The message types the board validator knows (its TYPE_NAMES table). */
  predicate IsKnown(kind: byte) {
    || 0x01 <= kind <= 0x05
    || 0x10 <= kind <= 0x14
    || kind == 0x21 || kind == 0x23
    || 0x30 <= kind <= 0x31
    || 0x40 <= kind <= 0x43
  }

  function Body(kind: byte, payload: seq<byte>): seq<byte>
    requires |payload| < 256
  {
    [VERSION, kind, |payload|] + payload
  }

  function Frame(kind: byte, payload: seq<byte>): (frame: seq<byte>)
    requires |payload| < 256
    ensures |frame| == |payload| + 5
  {
    [SOF] + Body(kind, payload) + [XorFold(0, Body(kind, payload))]
  }

  /** The checksum loop that encoders and decoders share. */
  method Checksum(values: seq<byte>) returns (checksum: byte)
    ensures checksum == XorFold(0, values)
  {
    checksum := 0;
    for i := 0 to |values|
      invariant XorFold(checksum, values[i..]) == XorFold(0, values)
    {
      assert values[i..][1..] == values[i + 1..];
      checksum := Xor(checksum, values[i]);
    }
  }

  /** `make_frame` */
  method MakeFrame(kind: byte, payload: seq<byte>) returns (frame: seq<byte>)
    requires |payload| < 256
    ensures frame == Frame(kind, payload)
  {
    var body: seq<byte> := [VERSION, kind, |payload|] + payload;
    var checksum := Checksum(body);
    frame := [SOF] + body + [checksum];
  }

  function ReadRequest(sequence: u16, address: u16): seq<byte> {
    U16(sequence) + U16(address) + [4]
  }

  function WriteRequest(sequence: u16, address: u16, value: u32, mask: u32): seq<byte> {
    U16(sequence) + U16(address) + [4] + U32(value) + U32(mask)
  }

  /** `monitor_read_frame` */
  function MonitorReadFrame(sequence: u16, address: u16): seq<byte> {
    Frame(MONITOR_READ_REQ, ReadRequest(sequence, address))
  }

  /** `monitor_write_frame` */
  function MonitorWriteFrame(sequence: u16, address: u16, value: u32, mask: u32): seq<byte> {
    Frame(MONITOR_WRITE_REQ, WriteRequest(sequence, address, value, mask))
  }

  /** The parts of a frame, read back by position. */
  lemma FrameParts(kind: byte, payload: seq<byte>)
    requires |payload| < 256
    ensures var f := Frame(kind, payload);
            && f[0] == SOF && f[1] == VERSION && f[2] == kind && f[3] == |payload|
            && f[4..|f| - 1] == payload
            && f[1..|f| - 1] == Body(kind, payload)
            && f[|f| - 1] == XorFold(0, f[1..|f| - 1])
  {
  }

  /** A frame but for its checksum. */
  function FrameWith(kind: byte, payload: seq<byte>, check: byte): (frame: seq<byte>)
    requires |payload| < 256
    ensures |frame| == |payload| + 5
  {
    [SOF] + Body(kind, payload) + [check]
  }

  lemma FrameWithParts(kind: byte, payload: seq<byte>, check: byte)
    requires |payload| < 256
    ensures var f := FrameWith(kind, payload, check);
            && f[0] == SOF && f[1] == VERSION && f[2] == kind && f[3] == |payload|
            && f[4..|f| - 1] == payload && f[1..|f| - 1] == Body(kind, payload) && f[|f| - 1] == check
            && f[..|f|] == f
  {
  }

  /** A frame with exactly one payload byte changed: only its checksum shows it, and it always does. */
  lemma DamagedFrame(kind: byte, payload: seq<byte>, i: nat, x: byte) returns (check: byte)
    requires i < |payload| < 256 && x != payload[i]
    ensures Frame(kind, payload)[4 + i := x] == FrameWith(kind, payload[i := x], check)
    ensures check != XorFold(0, Body(kind, payload[i := x]))
  {
    var body := Body(kind, payload);
    assert body[3 + i := x] == Body(kind, payload[i := x]);
    XorFoldNoticesOneByte(0, body, 3 + i, x);
    check := XorFold(0, body);
  }

  /** Bytes that look like a frame and carry the right checksum are a frame. */
  lemma FrameFromParts(raw: seq<byte>)
    requires 5 <= |raw| < 261 && raw[0] == SOF && raw[1] == VERSION && raw[3] == |raw| - 5
    requires raw[|raw| - 1] == XorFold(0, raw[1..|raw| - 1])
    ensures raw == Frame(raw[2], raw[4..|raw| - 1])
  {
    assert raw[1..|raw| - 1] == Body(raw[2], raw[4..|raw| - 1]);
  }
}
