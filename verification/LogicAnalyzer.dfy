/** The viewer's reassembly of Logic Analyzer captures from header and sample frames. */
module LogicAnalyzer {
  import opened Bytes
  import opened Wrappers

  const HEADER_BYTES := 24
  const SAMPLE_FRAME_BYTES := 32
  const SAMPLE_AREA := 20

  datatype Header = Header(
    captureId: u32, timestamp: u32, sampleWidthBits: u16, sampleCount: u16, triggerIndex: u16,
    flags: u16, samplePeriodCycles: u32, channelCount: u16, reserved: u16)

  datatype SampleData = SampleData(
    captureId: u32, chunkIndex: u16, firstSampleIndex: u16, sampleBytes: byte, flags: u16, values: seq<u32>)

  datatype CaptureError = MissingHeader | Overlap

  /** `chunks` are in order of arrival; a range of missing chunks has its first and its last index. */
  datatype Capture = Capture(
    header: Option<Header>, chunks: seq<SampleData>, samples: seq<Option<u32>>,
    missingRanges: seq<(int, int)>, complete: bool, errors: seq<CaptureError>)

  const EMPTY := Capture(None, [], [], [], false, [])

  /** The captures in the order their first frame arrived. */
  datatype Entry = Entry(id: u32, capture: Capture)

  datatype Analyzer = Analyzer(
    captures: seq<Entry>, latestCaptureId: Option<u32>,
    headers: nat, samples: nat, malformed: nat, missingChunks: nat, outOfOrderChunks: nat, droppedFrames: nat)

  const INITIAL := Analyzer([], None, 0, 0, 0, 0, 0, 0)

  function CaptureIn(captures: seq<Entry>, id: u32): Capture {
    if captures == [] then EMPTY
    else if captures[0].id == id then captures[0].capture
    else CaptureIn(captures[1..], id)
  }

  function Put(captures: seq<Entry>, id: u32, c: Capture): seq<Entry> {
    if captures == [] then [Entry(id, c)]
    else if captures[0].id == id then [Entry(id, c)] + captures[1..]
    else [captures[0]] + Put(captures[1..], id, c)
  }

  // ------------------------------------------------------------------------ parsing

  predicate IsPacking(sampleBytes: byte, sampleCount: byte) {
    (sampleBytes == 1 || sampleBytes == 2 || sampleBytes == 4) && sampleCount as int * sampleBytes <= SAMPLE_AREA
  }

  /** `count` little-endian values of `width` bytes each, as far as the area has them. */
  function Values(area: seq<byte>, width: nat, count: nat): (values: seq<u32>)
    requires 1 <= width <= 4
    ensures |values| <= count
  {
    if count == 0 || |area| < width then []
    else
      ValueBound(area[..width]);
      [FromLittleEndian(area[..width])] + Values(area[width..], width, count - 1)
  }

  lemma {:induction false} ValuesCount(area: seq<byte>, width: nat, count: nat)
    requires 1 <= width <= 4 && count * width <= |area|
    ensures |Values(area, width, count)| == count
    decreases count
  {
    if count != 0 {
      assert count * width == (count - 1) * width + width;
      assert 0 <= (count - 1) * width;
      ValuesCount(area[width..], width, count - 1);
    }
  }

  lemma ValueBound(bytes: seq<byte>)
    requires |bytes| <= 4
    ensures FromLittleEndian(bytes) < U32_MODULUS
  {
    FromLittleEndianBound(bytes);
    Limits();
    assert Limit(0) == 1 && Limit(1) == 256 && Limit(3) == 256 * Limit(2);
  }

  datatype Malformed = BadLength | BadPacking

  function ParseHeader(payload: seq<byte>): Result<Header, Malformed> {
    if |payload| != HEADER_BYTES then Err(BadLength)
    else Ok(Header(ReadU32(payload, 0), ReadU32(payload, 4), ReadU16(payload, 8), ReadU16(payload, 10),
                   ReadU16(payload, 12), ReadU16(payload, 14), ReadU32(payload, 16), ReadU16(payload, 20),
                   ReadU16(payload, 22)))
  }

  function ParseSampleData(payload: seq<byte>): Result<SampleData, Malformed> {
    if |payload| != SAMPLE_FRAME_BYTES then Err(BadLength)
    else if !IsPacking(payload[8], payload[9]) then Err(BadPacking)
    else Ok(SampleData(ReadU32(payload, 0), ReadU16(payload, 4), ReadU16(payload, 6), payload[8], ReadU16(payload, 10),
                       Values(payload[12..], payload[8], payload[9])))
  }

  /** The payload `logicAnalyzerHeaderFrame` builds; its last field is always 0. */
  function HeaderPayload(h: Header): (payload: seq<byte>)
    ensures |payload| == HEADER_BYTES
  {
    U32(h.captureId) + U32(h.timestamp) + U16(h.sampleWidthBits) + U16(h.sampleCount) + U16(h.triggerIndex)
    + U16(h.flags) + U32(h.samplePeriodCycles) + U16(h.channelCount) + U16(0)
  }

  function EncodeValues(values: seq<u32>, width: nat): seq<byte> {
    if values == [] then [] else LittleEndian(values[0], width) + EncodeValues(values[1..], width)
  }

  /** The payload `logicAnalyzerSampleFrame` builds: padded with zeros, then cut to its fixed size. */
  function SamplePayload(d: SampleData): (payload: seq<byte>)
    requires |d.values| < 256
    ensures |payload| == SAMPLE_FRAME_BYTES
  {
    var bytes := U32(d.captureId) + U16(d.chunkIndex) + U16(d.firstSampleIndex) + [d.sampleBytes, |d.values|]
                 + U16(d.flags) + EncodeValues(d.values, d.sampleBytes);
    (bytes + seq(SAMPLE_FRAME_BYTES, _ => 0))[..SAMPLE_FRAME_BYTES]
  }

  // --------------------------------------------------------------------- reassembly

  predicate HasChunk(chunks: seq<SampleData>, index: u16) {
    exists k :: 0 <= k < |chunks| && chunks[k].chunkIndex == index
  }

  /** The highest index received, or -1. */
  function Highest(chunks: seq<SampleData>): (h: int)
    ensures -1 <= h < U16_MODULUS
  {
    if chunks == [] then -1
    else
      var before := Highest(chunks[..|chunks| - 1]);
      var last := chunks[|chunks| - 1].chunkIndex;
      if before < last then last else before
  }

  datatype Filled = Filled(samples: seq<Option<u32>>, overlaps: nat)

  function Extended(samples: seq<Option<u32>>, length: nat): (s: seq<Option<u32>>)
    ensures |s| == if |samples| < length then length else |samples|
    ensures forall i | 0 <= i < |s| :: s[i] == if i < |samples| then samples[i] else None
  {
    if |samples| < length then samples + seq(length - |samples|, _ => None) else samples
  }

  /** Put the values at consecutive indices, leaving every sample that is already there. */
  function Fill(samples: seq<Option<u32>>, first: nat, values: seq<u32>): Filled
    decreases |values|
  {
    if values == [] then Filled(samples, 0)
    else
      var s := Extended(samples, first + 1);
      if s[first].Some? then
        var more := Fill(s, first + 1, values[1..]);
        Filled(more.samples, more.overlaps + 1)
      else
        Fill(s[first := Some(values[0])], first + 1, values[1..])
  }

  predicate AllPresent(samples: seq<Option<u32>>, count: nat) {
    forall i | 0 <= i < count && i < |samples| :: samples[i].Some?
  }

  function Overlaps(n: nat): seq<CaptureError> {
    seq(n, _ => Overlap)
  }

  /** A capture after its header. Chunks received before are still remembered. */
  function WithHeader(c: Capture, h: Header): Capture {
    c.(header := Some(h), samples := seq(h.sampleCount, _ => None), complete := false)
  }

  function Noted(c: Capture): Capture {
    if c.header.None? then c.(errors := c.errors + [MissingHeader]) else c
  }

  /** The indices skipped by a chunk that is not the next one. */
  function Skipped(c: Capture, index: u16): seq<(int, int)> {
    var h := Highest(c.chunks);
    if h + 1 < index then [(h + 1, index - 1)] else []
  }

  function WithChunk(c: Capture, d: SampleData): Capture {
    var n := Noted(c);
    if HasChunk(c.chunks, d.chunkIndex) then n.(errors := n.errors + [Overlap])
    else
      var filled := Fill(c.samples, d.firstSampleIndex, d.values);
      n.(chunks := c.chunks + [d],
         samples := filled.samples,
         missingRanges := c.missingRanges + Skipped(c, d.chunkIndex),
         errors := n.errors + Overlaps(filled.overlaps),
         complete := c.complete || (c.header.Some? && AllPresent(filled.samples, c.header.value.sampleCount)))
  }

  function SkippedCount(c: Capture, index: u16): nat {
    var h := Highest(c.chunks);
    if h + 1 < index then index - h - 1 else 0
  }

  function AfterHeader(a: Analyzer, payload: seq<byte>): Analyzer {
    match ParseHeader(payload)
    case Err(_) => a.(malformed := a.malformed + 1)
    case Ok(h) =>
      a.(captures := Put(a.captures, h.captureId, WithHeader(CaptureIn(a.captures, h.captureId), h)),
         latestCaptureId := Some(h.captureId), headers := a.headers + 1)
  }

  function AfterChunk(a: Analyzer, d: SampleData): Analyzer {
    var c := CaptureIn(a.captures, d.captureId);
    var b := a.(captures := Put(a.captures, d.captureId, WithChunk(c, d)));
    if HasChunk(c.chunks, d.chunkIndex) then b.(droppedFrames := a.droppedFrames + 1)
    else
      b.(latestCaptureId := Some(d.captureId),
         samples := a.samples + 1,
         missingChunks := a.missingChunks + SkippedCount(c, d.chunkIndex),
         outOfOrderChunks := a.outOfOrderChunks + (if d.chunkIndex < Highest(c.chunks) then 1 else 0),
         droppedFrames := a.droppedFrames + Fill(c.samples, d.firstSampleIndex, d.values).overlaps)
  }

  function AfterSampleData(a: Analyzer, payload: seq<byte>): Analyzer {
    match ParseSampleData(payload)
    case Err(_) => a.(malformed := a.malformed + 1)
    case Ok(d) => AfterChunk(a, d)
  }

  datatype Frame = HeaderFrame(payload: seq<byte>) | SampleFrame(payload: seq<byte>)

  function After(a: Analyzer, f: Frame): Analyzer {
    match f
    case HeaderFrame(payload) => AfterHeader(a, payload)
    case SampleFrame(payload) => AfterSampleData(a, payload)
  }

  function AfterAll(a: Analyzer, frames: seq<Frame>): Analyzer
    decreases |frames|
  {
    if frames == [] then a else AfterAll(After(a, frames[0]), frames[1..])
  }
}
