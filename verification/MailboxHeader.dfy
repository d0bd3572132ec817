/** The 40-byte header the mailbox publishes. */
module MailboxHeader {
  import opened Bytes
  import opened Wrappers
  import opened Mailbox

  const MAGIC: u32 := 0x544A464F  // the bytes "OFJT"
  const TRANSPORT_VERSION: u16 := 1
  const CAPABILITIES_V1: u16 := 15
  const HEADER_BYTES := 40

  datatype Header = Header(
    magic: u32, transportVersion: u16, capabilities: u16, sessionId: u32, bufferSize: u32,
    writeCount: u32, readCount: u32, availableBytes: u32, overflowCount: u32, droppedBytes: u32,
    buildId: u32)

  datatype HeaderError =
    | WrongSize | BadMagic | BadVersion | MissingCapability | BadBufferSize | TooManyAvailable | BadDistance

  /** The unsigned distance modulo 2^32 from `older` to `newer`. */
  function CounterDelta(newer: u32, older: u32): u32 {
    Low32(newer - older)
  }

  function Validate(h: Header): Option<HeaderError> {
    if h.magic != MAGIC then Some(BadMagic)
    else if h.transportVersion != TRANSPORT_VERSION then Some(BadVersion)
    else if h.capabilities % 2 == 0 then Some(MissingCapability)
    else if !SupportedSize(h.bufferSize) then Some(BadBufferSize)
    else if h.availableBytes > h.bufferSize then Some(TooManyAvailable)
    else if CounterDelta(h.writeCount, h.readCount) != h.availableBytes then Some(BadDistance)
    else None
  }

  /** Consecutive 32-bit words. */
  function Words(values: seq<u32>): (data: seq<byte>)
    ensures |data| == 4 * |values|
  {
    if values == [] then [] else U32(values[0]) + Words(values[1..])
  }

  function Counters(h: Header): seq<u32> {
    [h.sessionId, h.bufferSize, h.writeCount, h.readCount, h.availableBytes, h.overflowCount,
     h.droppedBytes, h.buildId]
  }

  function Pack(h: Header): (data: seq<byte>)
    ensures |data| == HEADER_BYTES
  {
    U32(h.magic) + U16(h.transportVersion) + U16(h.capabilities) + Words(Counters(h))
  }

  function Fields(data: seq<byte>): Header
    requires |data| == HEADER_BYTES
  {
    Header(ReadU32(data, 0), ReadU16(data, 4), ReadU16(data, 6), ReadU32(data, 8), ReadU32(data, 12),
           ReadU32(data, 16), ReadU32(data, 20), ReadU32(data, 24), ReadU32(data, 28),
           ReadU32(data, 32), ReadU32(data, 36))
  }

  function Unpack(data: seq<byte>): Result<Header, HeaderError> {
    if |data| != HEADER_BYTES then Err(WrongSize)
    else match Validate(Fields(data))
         case Some(e) => Err(e)
         case None => Result.Ok(Fields(data))
  }

  /** The header of a mailbox in state `f`. */
  function HeaderOf(f: Fifo, buildId: u32): Header
    requires Mailbox.Ok(f)
  {
    Header(MAGIC, TRANSPORT_VERSION, CAPABILITIES_V1, SessionId(Epoch(f)), f.capacity, WriteCount(f),
           ReadCount(f), Available(f), Low32(f.refusals), Low32(f.dropped), buildId)
  }

  // ------------------------------------------------------------------ round trips

  lemma {:induction false} WordsAppend(a: seq<u32>, b: seq<u32>)
    ensures Words(a + b) == Words(a) + Words(b)
    decreases |a|
  {
    if a == [] {
      assert a + b == b;
    } else {
      assert (a + b)[1..] == a[1..] + b;
      WordsAppend(a[1..], b);
    }
  }

  lemma ReadWord(prefix: seq<byte>, values: seq<u32>, i: nat)
    requires i < |values|
    ensures ReadU32(prefix + Words(values), |prefix| + 4 * i) == values[i]
  {
    var before, after := values[..i], values[i + 1..];
    SplitAt(values, i);
    WordsAppend(before, [values[i]] + after);
    Regroup(prefix, Words(before), U32(values[i]), Words(after));
    ReadU32At(prefix + Words(before), values[i], Words(after));
  }

  lemma ReadMagic(magic: u32, more: seq<byte>)
    ensures ReadU32(U32(magic) + more, 0) == magic
  {
    ReadU32At([], magic, more);
    assert [] + U32(magic) + more == U32(magic) + more;
  }

  lemma ReadStart(h: Header)
    ensures var p := Pack(h);
            ReadU32(p, 0) == h.magic && ReadU16(p, 4) == h.transportVersion && ReadU16(p, 6) == h.capabilities
  {
    var magic, version, caps := U32(h.magic), U16(h.transportVersion), U16(h.capabilities);
    var more := Words(Counters(h));
    ReadMagic(h.magic, version + (caps + more));
    ReadU16At(magic, h.transportVersion, caps + more);
    ReadU16At(magic + version, h.capabilities, more);
    Regroup(magic, version, caps, more);
    Associate(magic, version, caps + more);
  }

  lemma FieldsOfPack(h: Header)
    ensures Fields(Pack(h)) == h
  {
    var start := U32(h.magic) + U16(h.transportVersion) + U16(h.capabilities);
    var values := Counters(h);
    ReadStart(h);
    assert Pack(h) == start + Words(values);
    forall i | 0 <= i < 8
      ensures ReadU32(Pack(h), 8 + 4 * i) == values[i]
    {
      ReadWord(start, values, i);
    }
    var p := Pack(h);
    assert ReadU32(p, 8 + 4 * 0) == values[0] && ReadU32(p, 8 + 4 * 1) == values[1];
    assert ReadU32(p, 8 + 4 * 2) == values[2] && ReadU32(p, 8 + 4 * 3) == values[3];
    assert ReadU32(p, 8 + 4 * 4) == values[4] && ReadU32(p, 8 + 4 * 5) == values[5];
    assert ReadU32(p, 8 + 4 * 6) == values[6] && ReadU32(p, 8 + 4 * 7) == values[7];
  }

  lemma PackOfFields(data: seq<byte>)
    requires |data| == HEADER_BYTES
    ensures Pack(Fields(data)) == data
  {
    U32OfRead(data, 0);
    U16OfRead(data, 4);
    U16OfRead(data, 6);
    var values := Counters(Fields(data));
    assert forall i | 0 <= i < 8 :: values[i] == ReadU32(data, 8 + 4 * i);
    WordsOf(data, 8, values);
    assert data == data[0..4] + data[4..6] + data[6..8] + data[8..];
  }

  lemma {:induction false} WordsOf(data: seq<byte>, offset: nat, values: seq<u32>)
    requires |data| == offset + 4 * |values|
    requires forall i | 0 <= i < |values| :: values[i] == ReadU32(data, offset + 4 * i)
    ensures Words(values) == data[offset..]
    decreases |values|
  {
    if values != [] {
      assert values[0] == ReadU32(data, offset + 4 * 0);
      U32OfRead(data, offset);
      forall i | 0 <= i < |values| - 1
        ensures values[1..][i] == ReadU32(data, offset + 4 + 4 * i)
      {
        assert values[i + 1] == ReadU32(data, offset + 4 * (i + 1));
      }
      WordsOf(data, offset + 4, values[1..]);
      assert data[offset..] == data[offset..offset + 4] + data[offset + 4..];
    }
  }

  /** Packing and unpacking are inverse: a header comes back exactly when it validates, and what is
      unpacked is the header whose packing was read. */
  lemma HeaderRoundTrip(h: Header, data: seq<byte>)
    ensures Unpack(Pack(h)) == match Validate(h) case None => Result.Ok(h) case Some(e) => Err(e)
    ensures Unpack(data).Ok? ==> Pack(Unpack(data).value) == data && Validate(Unpack(data).value) == None
  {
    FieldsOfPack(h);
    if |data| == HEADER_BYTES {
      PackOfFields(data);
    }
  }

  /** Where each field lies in the 40 bytes. */
  lemma Layout(h: Header)
    ensures var p := Pack(h);
            && p[0x00..0x04] == U32(h.magic) && p[0x04..0x06] == U16(h.transportVersion)
            && p[0x06..0x08] == U16(h.capabilities) && p[0x08..0x0C] == U32(h.sessionId)
            && p[0x0C..0x10] == U32(h.bufferSize) && p[0x10..0x14] == U32(h.writeCount)
            && p[0x14..0x18] == U32(h.readCount) && p[0x18..0x1C] == U32(h.availableBytes)
            && p[0x1C..0x20] == U32(h.overflowCount) && p[0x20..0x24] == U32(h.droppedBytes)
            && p[0x24..0x28] == U32(h.buildId)
  {
    var p := Pack(h);
    FieldsOfPack(h);
    U16OfRead(p, 4);
    U16OfRead(p, 6);
    forall i: nat | 4 * i < HEADER_BYTES
      ensures U32(ReadU32(p, 4 * i)) == p[4 * i..4 * i + 4]
    {
      U32OfRead(p, 4 * i);
    }
    assert U32(ReadU32(p, 4 * 0)) == p[4 * 0..4 * 0 + 4] && U32(ReadU32(p, 4 * 2)) == p[4 * 2..4 * 2 + 4];
    assert U32(ReadU32(p, 4 * 3)) == p[4 * 3..4 * 3 + 4] && U32(ReadU32(p, 4 * 4)) == p[4 * 4..4 * 4 + 4];
    assert U32(ReadU32(p, 4 * 5)) == p[4 * 5..4 * 5 + 4] && U32(ReadU32(p, 4 * 6)) == p[4 * 6..4 * 6 + 4];
    assert U32(ReadU32(p, 4 * 7)) == p[4 * 7..4 * 7 + 4] && U32(ReadU32(p, 4 * 8)) == p[4 * 8..4 * 8 + 4];
    assert U32(ReadU32(p, 4 * 9)) == p[4 * 9..4 * 9 + 4];
  }

  // ------------------------------------------------------------------ what is accepted

  lemma {:induction false} DistanceIs(w: u32, r: u32, available: u32)
    ensures CounterDelta(w, r) == available <==> w == Low32(r + available)
  {
    if w < r {
      assert Low32(w - r) == w - r + U32_MODULUS;
    }
  }

  /** Exactly the headers that are accepted. */
  lemma HeaderIsAcceptedIff(h: Header)
    ensures Validate(h) == None <==>
              && h.magic == 0x544A464F && h.transportVersion == 1 && h.capabilities % 2 == 1
              && (h.bufferSize == 4096 || h.bufferSize == 8192 || h.bufferSize == 16384 || h.bufferSize == 32768
                  || h.bufferSize == 65536)
              && h.availableBytes <= h.bufferSize
              && h.writeCount == Low32(h.readCount + h.availableBytes)
  {
    DistanceIs(h.writeCount, h.readCount, h.availableBytes);
  }

  /** What is unpacked starts with the bytes "OFJT". */
  lemma AcceptedBytesStartWithMagic(data: seq<byte>)
    requires Unpack(data).Ok?
    ensures |data| == 40 && data[..4] == [0x4F, 0x46, 0x4A, 0x54]
  {
    U32OfRead(data, 0);
    MagicBytes();
    assert data[0..4] == data[..4];
  }

  lemma MagicBytes()
    ensures U32(MAGIC) == [0x4F, 0x46, 0x4A, 0x54]
  {
    assert LittleEndian(MAGIC / 256 / 256 / 256, 1) == [0x54];
    assert LittleEndian(MAGIC / 256 / 256, 2) == [0x4A] + LittleEndian(MAGIC / 256 / 256 / 256, 1);
    assert LittleEndian(MAGIC / 256, 3) == [0x46] + LittleEndian(MAGIC / 256 / 256, 2);
  }
}
