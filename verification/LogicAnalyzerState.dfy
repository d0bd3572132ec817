/** The viewer's Logic Analyzer state and the decoders that update it. */
module LogicAnalyzerState {
  import opened Bytes
  import opened BitStrings
  import opened Wrappers
  import opened LogicAnalyzer

  lemma {:induction false} NextByte(bytes: seq<byte>, x: byte)
    ensures FromLittleEndian(bytes + [x]) == FromLittleEndian(bytes) + ShiftLeft(x, 8 * |bytes|)
    decreases |bytes|
  {
    if bytes == [] {
      assert bytes + [x] == [x];
      assert FromLittleEndian([x]) == x + 256 * FromLittleEndian([x][1..]);
    } else {
      assert (bytes + [x])[1..] == bytes[1..] + [x];
      NextByte(bytes[1..], x);
      ShiftByEight(x, 8 * (|bytes| - 1));
    }
  }

  lemma ShiftByEight(x: nat, n: nat)
    ensures ShiftLeft(x, n + 8) == 256 * ShiftLeft(x, n)
  {
    assert ShiftLeft(x, n + 8) == 2 * ShiftLeft(x, n + 7);
    assert ShiftLeft(x, n + 7) == 2 * ShiftLeft(x, n + 6);
    assert ShiftLeft(x, n + 6) == 2 * ShiftLeft(x, n + 5);
    assert ShiftLeft(x, n + 5) == 2 * ShiftLeft(x, n + 4);
    assert ShiftLeft(x, n + 4) == 2 * ShiftLeft(x, n + 3);
    assert ShiftLeft(x, n + 3) == 2 * ShiftLeft(x, n + 2);
    assert ShiftLeft(x, n + 2) == 2 * ShiftLeft(x, n + 1);
  }

  /** The value of one sample, byte by byte. */
  method ReadValue(payload: seq<byte>, offset: nat, sampleBytes: nat) returns (value: u32)
    requires offset + sampleBytes <= |payload| && sampleBytes <= 4
    ensures value == FromLittleEndian(payload[offset..offset + sampleBytes])
  {
    value := 0;
    for byteIndex := 0 to sampleBytes
      invariant value == FromLittleEndian(payload[offset..offset + byteIndex])
    {
      var bytes := payload[offset..offset + byteIndex];
      assert payload[offset..offset + byteIndex + 1] == bytes + [payload[offset + byteIndex]];
      NextByte(bytes, payload[offset + byteIndex]);
      ValueBound(bytes + [payload[offset + byteIndex]]);
      value := value + ShiftLeft(payload[offset + byteIndex], 8 * byteIndex);
    }
  }

  /** The last of the sorted chunk indices, or -1. */
  method LastIndex(chunks: seq<SampleData>) returns (last: int)
    ensures last == Highest(chunks)
  {
    last := -1;
    for k := 0 to |chunks|
      invariant last == Highest(chunks[..k])
    {
      assert chunks[..k + 1][..k] == chunks[..k];
      if last < chunks[k].chunkIndex {
        last := chunks[k].chunkIndex;
      }
    }
    assert chunks[..|chunks|] == chunks;
  }

  /** `now` is `samples` with `value` at `index`, unless a sample was there. */
  predicate IsPut(samples: seq<Option<u32>>, index: nat, value: u32, now: seq<Option<u32>>, overlap: bool) {
    var e := Extended(samples, index + 1);
    overlap == e[index].Some? && now == if overlap then e else e[index := Some(value)]
  }

  /** One turn of the loop over the samples of a chunk. */
  method PutSample(samples: seq<Option<u32>>, sampleIndex: nat, value: u32) returns (s: seq<Option<u32>>, overlap: bool)
    ensures IsPut(samples, sampleIndex, value, s, overlap)
  {
    s := samples;
    while |s| <= sampleIndex
      invariant |samples| <= |s| && (|samples| < |s| ==> |s| <= sampleIndex + 1)
      invariant forall i | 0 <= i < |s| :: s[i] == if i < |samples| then samples[i] else None
    {
      s := s + [None];
    }
    assert s == Extended(samples, sampleIndex + 1);
    overlap := s[sampleIndex].Some?;
    if !overlap {
      s := s[sampleIndex := Some(value)];
    }
  }

  /** The variables of the loop over the samples of a chunk. */
  datatype Progress = Progress(offset: nat, sampleIndex: nat, samples: seq<Option<u32>>, values: seq<u32>, overlaps: nat)

  /** The loop over the samples of a chunk. */
  method PutSamples(samples: seq<Option<u32>>, payload: seq<byte>, first: nat, sampleBytes: nat, sampleCount: nat)
    returns (r: Progress)
    requires |payload| == SAMPLE_FRAME_BYTES && 1 <= sampleBytes <= 4
    requires |Values(payload[12..], sampleBytes, sampleCount)| == sampleCount
    ensures r.values == Values(payload[12..], sampleBytes, sampleCount)
    ensures Filled(r.samples, r.overlaps) == Fill(samples, first, r.values)
  {
    r := Progress(12, first, samples, [], 0);
    ghost var all := Values(payload[12..], sampleBytes, sampleCount);
    ghost var rest := all;
    for index := 0 to sampleCount
      invariant |rest| == sampleCount - index
      invariant Reading(payload, sampleBytes, r.offset, r.values, rest, all)
      invariant Continues(samples, first, all, r.samples, r.sampleIndex, rest, r.overlaps)
    {
      ValueAt(payload, sampleBytes, r.offset, r.values, rest, all);
      var n := PutNextSample(payload, sampleBytes, r, rest[0]);
      ReadNext(payload, sampleBytes, r, n, rest, all);
      PutNext(samples, first, all, r, n, rest);
      r, rest := n, rest[1..];
    }
    assert r.values + [] == r.values;
  }

  /** One sample: read it, put it, move on. */
  method PutNextSample(payload: seq<byte>, sampleBytes: nat, r: Progress, ghost next: u32) returns (n: Progress)
    requires 1 <= sampleBytes <= 4 && r.offset + sampleBytes <= |payload|
    requires next == FromLittleEndian(payload[r.offset..r.offset + sampleBytes])
    ensures n.offset == r.offset + sampleBytes && n.values == r.values + [next]
    ensures HasPut(r, n, next)
  {
    var value := ReadValue(payload, r.offset, sampleBytes);
    var now, overlap := PutSample(r.samples, r.sampleIndex, value);
    n := Progress(r.offset + sampleBytes, r.sampleIndex + 1, now, r.values + [value],
                  r.overlaps + if overlap then 1 else 0);
  }

  /** From `r` to `n` one sample was put. */
  predicate HasPut(r: Progress, n: Progress, value: u32) {
    && n.sampleIndex == r.sampleIndex + 1
    && r.overlaps <= n.overlaps <= r.overlaps + 1
    && IsPut(r.samples, r.sampleIndex, value, n.samples, r.overlaps < n.overlaps)
  }

  /** `values` were read, `rest` stands at `offset`. */
  ghost predicate Reading(payload: seq<byte>, width: nat, offset: nat, values: seq<u32>, rest: seq<u32>, all: seq<u32>)
    requires 1 <= width <= 4
  {
    && 12 <= offset <= |payload|
    && rest == Values(payload[offset..], width, |rest|)
    && values + rest == all
  }

  lemma ValueAt(payload: seq<byte>, width: nat, offset: nat, values: seq<u32>, rest: seq<u32>, all: seq<u32>)
    requires 1 <= width <= 4 && rest != []
    requires Reading(payload, width, offset, values, rest, all)
    ensures offset + width <= |payload|
    ensures rest[0] == FromLittleEndian(payload[offset..offset + width])
    ensures rest[1..] == Values(payload[offset + width..], width, |rest| - 1)
  {
    var area := payload[offset..];
    assert area[..width] == payload[offset..offset + width] && area[width..] == payload[offset + width..];
  }

  lemma ReadNext(payload: seq<byte>, width: nat, r: Progress, n: Progress, rest: seq<u32>, all: seq<u32>)
    requires 1 <= width <= 4 && rest != []
    requires Reading(payload, width, r.offset, r.values, rest, all)
    requires n.offset == r.offset + width && n.values == r.values + [rest[0]]
    ensures Reading(payload, width, n.offset, n.values, rest[1..], all)
  {
    ValueAt(payload, width, r.offset, r.values, rest, all);
    assert r.values + rest == r.values + [rest[0]] + rest[1..];
  }

  /** Filling in the rest from here gives what filling in everything from the start gives. */
  ghost predicate Continues(samples: seq<Option<u32>>, first: nat, all: seq<u32>,
                            now: seq<Option<u32>>, next: nat, rest: seq<u32>, overlaps: nat)
  {
    var more := Fill(now, next, rest);
    Filled(more.samples, overlaps + more.overlaps) == Fill(samples, first, all)
  }

  lemma PutNext(samples: seq<Option<u32>>, first: nat, all: seq<u32>, r: Progress, n: Progress, rest: seq<u32>)
    requires rest != [] && Continues(samples, first, all, r.samples, r.sampleIndex, rest, r.overlaps)
    requires HasPut(r, n, rest[0])
    ensures Continues(samples, first, all, n.samples, n.sampleIndex, rest[1..], n.overlaps)
  {
  }

  method EverySamplePresent(samples: seq<Option<u32>>, count: nat) returns (every: bool)
    ensures every <==> AllPresent(samples, count)
  {
    var end := Min(count, |samples|);
    for i := 0 to end
      invariant AllPresent(samples, i)
    {
      if samples[i].None? {
        return false;
      }
    }
    return true;
  }

  lemma StateAfterNewChunk(a: Analyzer, d: SampleData, r: Capture)
    requires !HasChunk(CaptureIn(a.captures, d.captureId).chunks, d.chunkIndex)
    requires r == WithChunk(CaptureIn(a.captures, d.captureId), d)
    ensures var c := CaptureIn(a.captures, d.captureId);
            AfterChunk(a, d) ==
            a.(captures := Put(a.captures, d.captureId, r),
               latestCaptureId := Some(d.captureId),
               samples := a.samples + 1,
               missingChunks := a.missingChunks + SkippedCount(c, d.chunkIndex),
               outOfOrderChunks := a.outOfOrderChunks + (if d.chunkIndex < Highest(c.chunks) then 1 else 0),
               droppedFrames := a.droppedFrames + Fill(c.samples, d.firstSampleIndex, d.values).overlaps)
  {
  }

  class LogicAnalyzerView {
    var captures: seq<Entry>
    var latestCaptureId: Option<u32>
    var headers: nat
    var samples: nat
    var malformed: nat
    var missingChunks: nat
    var outOfOrderChunks: nat
    var droppedFrames: nat

    function State(): Analyzer
      reads this
    {
      Analyzer(captures, latestCaptureId, headers, samples, malformed, missingChunks, outOfOrderChunks, droppedFrames)
    }

    constructor ()
      ensures State() == INITIAL
    {
      captures, latestCaptureId := [], None;
      headers, samples, malformed, missingChunks, outOfOrderChunks, droppedFrames := 0, 0, 0, 0, 0, 0;
    }

    /** `decodeLogicAnalyzerHeader` */
    method DecodeHeader(payload: seq<byte>)
      modifies this
      ensures State() == AfterHeader(old(State()), payload)
    {
      if |payload| != 24 {
        malformed := malformed + 1;
        return;
      }
      var captureId := ReadU32(payload, 0);
      var header := Header(captureId, ReadU32(payload, 4), ReadU16(payload, 8), ReadU16(payload, 10),
                           ReadU16(payload, 12), ReadU16(payload, 14), ReadU32(payload, 16), ReadU16(payload, 20),
                           ReadU16(payload, 22));
      var capture := CaptureIn(captures, captureId);
      capture := capture.(header := Some(header));
      capture := capture.(samples := seq(header.sampleCount, _ => None));
      capture := capture.(complete := false);
      captures := Put(captures, captureId, capture);
      latestCaptureId := Some(captureId);
      headers := headers + 1;
    }

    /** `decodeLogicAnalyzerSampleData` */
    method DecodeSampleData(payload: seq<byte>)
      modifies this
      ensures State() == AfterSampleData(old(State()), payload)
    {
      if |payload| != 32 {
        malformed := malformed + 1;
        return;
      }
      var captureId, chunkIndex, firstSampleIndex := ReadU32(payload, 0), ReadU16(payload, 4), ReadU16(payload, 6);
      var sampleBytes, sampleCount := payload[8] as int, payload[9] as int;
      var flags := ReadU16(payload, 10);
      if !(sampleBytes == 1 || sampleBytes == 2 || sampleBytes == 4) || sampleCount * sampleBytes > 20 {
        malformed := malformed + 1;
        return;
      }
      TakeChunk(payload, captureId, chunkIndex, firstSampleIndex, sampleBytes, sampleCount, flags);
    }

    /** A well-formed chunk. */
    method TakeChunk(payload: seq<byte>, captureId: u32, chunkIndex: u16, firstSampleIndex: u16,
                     sampleBytes: byte, sampleCount: byte, flags: u16)
      requires |payload| == SAMPLE_FRAME_BYTES && IsPacking(sampleBytes, sampleCount)
      modifies this
      ensures State() == AfterChunk(old(State()), SampleData(captureId, chunkIndex, firstSampleIndex, sampleBytes, flags,
                                                             Values(payload[12..], sampleBytes, sampleCount)))
    {
      var capture := CaptureIn(captures, captureId);
      if HasChunk(capture.chunks, chunkIndex) {
        capture := RefuseChunk(capture);
        captures := Put(captures, captureId, capture);
      } else {
        TakeNewChunk(payload, captureId, chunkIndex, firstSampleIndex, sampleBytes, sampleCount, flags);
      }
    }

    /** A well-formed chunk with a new index. */
    method TakeNewChunk(payload: seq<byte>, captureId: u32, chunkIndex: u16, firstSampleIndex: u16,
                        sampleBytes: byte, sampleCount: byte, flags: u16)
      requires |payload| == SAMPLE_FRAME_BYTES && IsPacking(sampleBytes, sampleCount)
      requires !HasChunk(CaptureIn(captures, captureId).chunks, chunkIndex)
      modifies this
      ensures State() == AfterChunk(old(State()), SampleData(captureId, chunkIndex, firstSampleIndex, sampleBytes, flags,
                                                             Values(payload[12..], sampleBytes, sampleCount)))
    {
      ghost var before := State();
      var capture := CaptureIn(captures, captureId);
      var values;
      capture, values := AddChunk(capture, payload, captureId, chunkIndex, firstSampleIndex, sampleBytes, sampleCount, flags);
      captures := Put(captures, captureId, capture);
      latestCaptureId := Some(captureId);
      samples := samples + 1;
      StateAfterNewChunk(
        before, SampleData(captureId, chunkIndex, firstSampleIndex, sampleBytes, flags, values), capture);
    }

    /** A chunk whose index was received before. */
    method RefuseChunk(c: Capture) returns (r: Capture)
      modifies `droppedFrames
      ensures r == Noted(c).(errors := Noted(c).errors + [Overlap])
      ensures droppedFrames == old(droppedFrames) + 1
    {
      r := c;
      if r.header.None? {
        r := r.(errors := r.errors + [MissingHeader]);
      }
      r := r.(errors := r.errors + [Overlap]);
      droppedFrames := droppedFrames + 1;
    }

    /** A chunk that is new to its capture. */
    method AddChunk(c: Capture, payload: seq<byte>, captureId: u32, chunkIndex: u16, firstSampleIndex: u16,
                    sampleBytes: byte, sampleCount: byte, flags: u16)
      returns (r: Capture, values: seq<u32>)
      requires |payload| == SAMPLE_FRAME_BYTES && IsPacking(sampleBytes, sampleCount)
      requires !HasChunk(c.chunks, chunkIndex)
      modifies `droppedFrames, `missingChunks, `outOfOrderChunks
      ensures values == Values(payload[12..], sampleBytes, sampleCount)
      ensures r == WithChunk(c, SampleData(captureId, chunkIndex, firstSampleIndex, sampleBytes, flags, values))
      ensures droppedFrames == old(droppedFrames) + Fill(c.samples, firstSampleIndex, values).overlaps
      ensures missingChunks == old(missingChunks) + SkippedCount(c, chunkIndex)
      ensures outOfOrderChunks == old(outOfOrderChunks) + (if chunkIndex < Highest(c.chunks) then 1 else 0)
    {
      r := c;
      if r.header.None? {
        r := r.(errors := r.errors + [MissingHeader]);
      }
      r := NoteGap(r, chunkIndex);
      ValuesCount(payload[12..], sampleBytes, sampleCount);
      var filled := PutSamples(r.samples, payload, firstSampleIndex, sampleBytes, sampleCount);
      values := filled.values;
      droppedFrames := droppedFrames + filled.overlaps;
      r := r.(samples := filled.samples, errors := r.errors + Overlaps(filled.overlaps));
      var chunk := SampleData(captureId, chunkIndex, firstSampleIndex, sampleBytes, flags, values);
      r := r.(chunks := r.chunks + [chunk]);
      r := NoteComplete(r);
    }

    /** A capture with its header and all its samples is complete. */
    method NoteComplete(c: Capture) returns (r: Capture)
      ensures r == c.(complete := c.complete || (c.header.Some? && AllPresent(c.samples, c.header.value.sampleCount)))
    {
      r := c;
      if r.header.Some? {
        var every := EverySamplePresent(r.samples, r.header.value.sampleCount);
        if every {
          r := r.(complete := true);
        }
      }
    }

    /** Out-of-order and missing chunks, judged by the highest index so far. */
    method NoteGap(c: Capture, chunkIndex: u16) returns (r: Capture)
      requires !HasChunk(c.chunks, chunkIndex)
      modifies `missingChunks, `outOfOrderChunks
      ensures r == c.(missingRanges := c.missingRanges + Skipped(c, chunkIndex))
      ensures missingChunks == old(missingChunks) + SkippedCount(c, chunkIndex)
      ensures outOfOrderChunks == old(outOfOrderChunks) + (if chunkIndex < Highest(c.chunks) then 1 else 0)
    {
      var last := LastIndex(c.chunks);
      r := c;
      if c.chunks != [] && chunkIndex < last {
        outOfOrderChunks := outOfOrderChunks + 1;
      }
      if c.chunks != [] && chunkIndex > last + 1 {
        var start, end := last + 1, chunkIndex - 1;
        missingChunks := missingChunks + (end - start + 1);
        r := r.(missingRanges := r.missingRanges + [(start, end)]);
      }
      if c.chunks == [] && chunkIndex > 0 {
        missingChunks := missingChunks + chunkIndex;
        r := r.(missingRanges := r.missingRanges + [(0, chunkIndex - 1)]);
      }
      assert c.missingRanges + [] == c.missingRanges;
      NonEmptyHasHighest(c.chunks);
    }
  }

  lemma {:induction false} NonEmptyHasHighest(chunks: seq<SampleData>)
    ensures chunks != [] ==> 0 <= Highest(chunks)
  {
  }
}
