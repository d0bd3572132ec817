/** What the Logic Analyzer reassembly guarantees for every order of arrival. */
module LogicAnalyzerTheorems {
  import opened Bytes
  import opened Wrappers
  import opened LogicAnalyzer

  // --------------------------------------------------------------------- the captures

  lemma {:induction false} PutThenFind(captures: seq<Entry>, id: u32, c: Capture, other: u32)
    ensures CaptureIn(Put(captures, id, c), other) == if other == id then c else CaptureIn(captures, other)
    decreases |captures|
  {
    if captures != [] && captures[0].id != id {
      PutThenFind(captures[1..], id, c, other);
      assert Put(captures, id, c)[1..] == Put(captures[1..], id, c);
    } else if captures != [] {
      assert Put(captures, id, c)[1..] == captures[1..];
    } else {
      assert Put(captures, id, c)[1..] == [];
    }
  }

  // ------------------------------------------------------------------ gap accounting

  /** How many indices below `n` have not been received. */
  function MissingBelow(chunks: seq<SampleData>, n: nat): nat {
    if n == 0 then 0
    else MissingBelow(chunks, n - 1) + (if n <= U16_MODULUS && HasChunk(chunks, n - 1) then 0 else 1)
  }

  /** How many indices up to the highest one received are still missing. */
  function StillMissing(c: Capture): nat {
    MissingBelow(c.chunks, Highest(c.chunks) + 1)
  }

  function MissingInAll(captures: seq<Entry>): nat {
    if captures == [] then 0 else StillMissing(captures[0].capture) + MissingInAll(captures[1..])
  }

  lemma {:induction false} PutChangesMissing(captures: seq<Entry>, id: u32, c: Capture)
    ensures MissingInAll(Put(captures, id, c)) ==
            MissingInAll(captures) - StillMissing(CaptureIn(captures, id)) + StillMissing(c)
    decreases |captures|
  {
    if captures == [] {
      assert Put(captures, id, c)[1..] == [];
    } else if captures[0].id == id {
      assert Put(captures, id, c)[1..] == captures[1..];
    } else {
      PutChangesMissing(captures[1..], id, c);
      assert Put(captures, id, c)[1..] == Put(captures[1..], id, c);
    }
  }

  ghost predicate GapsBalance(a: Analyzer) {
    a.missingChunks - a.outOfOrderChunks == MissingInAll(a.captures)
  }

  lemma HighestOfMore(chunks: seq<SampleData>, d: SampleData)
    ensures Highest(chunks + [d]) == if Highest(chunks) < d.chunkIndex then d.chunkIndex else Highest(chunks)
  {
  }

  lemma {:induction false} HighestIsReceived(chunks: seq<SampleData>)
    ensures chunks != [] ==> 0 <= Highest(chunks) && HasChunk(chunks, Highest(chunks))
    ensures forall k | 0 <= k < |chunks| :: chunks[k].chunkIndex <= Highest(chunks)
    decreases |chunks|
  {
    if chunks != [] {
      var before := chunks[..|chunks| - 1];
      HighestIsReceived(before);
      forall k | 0 <= k < |chunks|
        ensures chunks[k].chunkIndex <= Highest(chunks)
      {
        if k < |chunks| - 1 {
          assert before[k] == chunks[k];
        }
      }
      if Highest(before) < chunks[|chunks| - 1].chunkIndex {
        assert chunks[|chunks| - 1].chunkIndex == Highest(chunks);
      } else {
        var k :| 0 <= k < |before| && before[k].chunkIndex == Highest(before);
        assert chunks[k].chunkIndex == Highest(chunks);
      }
    }
  }

  lemma HasChunkGrows(chunks: seq<SampleData>, d: SampleData, index: u16)
    ensures HasChunk(chunks + [d], index) <==> HasChunk(chunks, index) || d.chunkIndex == index
  {
    if HasChunk(chunks, index) {
      var k :| 0 <= k < |chunks| && chunks[k].chunkIndex == index;
      assert (chunks + [d])[k].chunkIndex == index;
    }
    if d.chunkIndex == index {
      assert (chunks + [d])[|chunks|].chunkIndex == index;
    }
  }

  /** A new chunk fills one of the missing indices. */
  lemma {:induction false} MissingBelowShrinks(chunks: seq<SampleData>, d: SampleData, n: nat)
    requires !HasChunk(chunks, d.chunkIndex)
    ensures MissingBelow(chunks + [d], n) == MissingBelow(chunks, n) - (if d.chunkIndex < n then 1 else 0)
  {
    if n != 0 {
      MissingBelowShrinks(chunks, d, n - 1);
      if n <= U16_MODULUS {
        HasChunkGrows(chunks, d, n - 1);
      }
    }
  }

  /** Above the highest index everything is missing. */
  lemma {:induction false} MissingAboveHighest(chunks: seq<SampleData>, n: nat)
    requires Highest(chunks) + 1 <= n
    ensures MissingBelow(chunks, n) == MissingBelow(chunks, Highest(chunks) + 1) + n - Highest(chunks) - 1
  {
    if Highest(chunks) + 1 < n {
      MissingAboveHighest(chunks, n - 1);
      HighestIsReceived(chunks);
    }
  }

  lemma NewChunkChangesMissing(chunks: seq<SampleData>, d: SampleData, h: int, i: int)
    requires !HasChunk(chunks, d.chunkIndex) && h == Highest(chunks) && i == d.chunkIndex
    ensures h < i ==> Highest(chunks + [d]) == i && MissingBelow(chunks + [d], i + 1) == MissingBelow(chunks, h + 1) + i - h - 1
    ensures i <= h ==> i < h && Highest(chunks + [d]) == h && MissingBelow(chunks + [d], h + 1) == MissingBelow(chunks, h + 1) - 1
  {
    HighestOfMore(chunks, d);
    HighestIsReceived(chunks);
    if h < i {
      MissingBelowShrinks(chunks, d, i + 1);
      MissingAboveHighest(chunks, i + 1);
    } else {
      MissingBelowShrinks(chunks, d, h + 1);
    }
  }

  lemma ChunksGrow(c: Capture, d: SampleData)
    ensures WithChunk(c, d).chunks == if HasChunk(c.chunks, d.chunkIndex) then c.chunks else c.chunks + [d]
  {
  }

  lemma ChunkChangesMissing(c: Capture, d: SampleData)
    ensures StillMissing(WithChunk(c, d)) - StillMissing(c) ==
            if HasChunk(c.chunks, d.chunkIndex) then 0
            else SkippedCount(c, d.chunkIndex) - (if d.chunkIndex < Highest(c.chunks) then 1 else 0)
  {
    ChunksGrow(c, d);
    if !HasChunk(c.chunks, d.chunkIndex) {
      NewChunkChangesMissing(c.chunks, d, Highest(c.chunks), d.chunkIndex);
    }
  }

  lemma StepBalances(a: Analyzer, f: Frame)
    requires GapsBalance(a)
    ensures GapsBalance(After(a, f))
  {
    match f
    case HeaderFrame(payload) =>
      if ParseHeader(payload).Ok? {
        var h := ParseHeader(payload).value;
        PutChangesMissing(a.captures, h.captureId, WithHeader(CaptureIn(a.captures, h.captureId), h));
      }
    case SampleFrame(payload) =>
      if ParseSampleData(payload).Ok? {
        var d := ParseSampleData(payload).value;
        var c := CaptureIn(a.captures, d.captureId);
        ChunkChangesMissing(c, d);
        PutChangesMissing(a.captures, d.captureId, WithChunk(c, d));
      }
  }

  lemma {:induction false} RunKeepsBalance(a: Analyzer, frames: seq<Frame>)
    requires GapsBalance(a)
    ensures GapsBalance(AfterAll(a, frames))
    decreases |frames|
  {
    if frames != [] {
      StepBalances(a, frames[0]);
      RunKeepsBalance(After(a, frames[0]), frames[1..]);
    }
  }

  // ------------------------------------------------------------------- missing ranges

  predicate InRange(range: (int, int), index: int) {
    range.0 <= index <= range.1
  }

  predicate IsMissing(ranges: seq<(int, int)>, index: int) {
    exists r :: 0 <= r < |ranges| && InRange(ranges[r], index)
  }

  /** The chunk came as a new highest index. */
  predicate CameInOrder(chunks: seq<SampleData>, k: nat) {
    k < |chunks| && Highest(chunks[..k]) < chunks[k].chunkIndex
  }

  predicate ReceivedInOrder(chunks: seq<SampleData>, index: int) {
    exists k :: 0 <= k < |chunks| && CameInOrder(chunks, k) && chunks[k].chunkIndex == index
  }

  /** The ranges are disjoint and increasing, lie below the highest index, and hold exactly the indices
      that were not received in order. */
  ghost predicate RangesAreExact(c: Capture) {
    && (forall r | 0 <= r < |c.missingRanges| ::
          0 <= c.missingRanges[r].0 <= c.missingRanges[r].1 < Highest(c.chunks))
    && (forall r, q | 0 <= r < q < |c.missingRanges| :: c.missingRanges[r].1 < c.missingRanges[q].0)
    && (forall index | 0 <= index <= Highest(c.chunks) ::
          IsMissing(c.missingRanges, index) <==> !ReceivedInOrder(c.chunks, index))
  }

  lemma InOrderGrows(chunks: seq<SampleData>, d: SampleData, index: int)
    ensures ReceivedInOrder(chunks + [d], index) <==>
            ReceivedInOrder(chunks, index) || (Highest(chunks) < d.chunkIndex && d.chunkIndex == index)
  {
    var more := chunks + [d];
    assert forall k | 0 <= k <= |chunks| :: more[..k] == chunks[..k];
    assert chunks[..|chunks|] == chunks;
    if ReceivedInOrder(chunks, index) {
      var k :| 0 <= k < |chunks| && CameInOrder(chunks, k) && chunks[k].chunkIndex == index;
      assert CameInOrder(more, k) && more[k].chunkIndex == index;
    }
    if Highest(chunks) < d.chunkIndex && d.chunkIndex == index {
      assert CameInOrder(more, |chunks|) && more[|chunks|].chunkIndex == index;
    }
    if ReceivedInOrder(more, index) {
      var k :| 0 <= k < |more| && CameInOrder(more, k) && more[k].chunkIndex == index;
      if k < |chunks| {
        assert CameInOrder(chunks, k);
      }
    }
  }

  lemma MissingGrows(ranges: seq<(int, int)>, more: seq<(int, int)>, index: int)
    requires |more| <= 1
    ensures IsMissing(ranges + more, index) <==> IsMissing(ranges, index) || (more != [] && InRange(more[0], index))
  {
    if IsMissing(ranges, index) {
      var r :| 0 <= r < |ranges| && InRange(ranges[r], index);
      assert InRange((ranges + more)[r], index);
    }
    if more != [] && InRange(more[0], index) {
      assert InRange((ranges + more)[|ranges|], index);
    }
  }

  lemma BelowHighestInOrder(chunks: seq<SampleData>, index: int)
    ensures ReceivedInOrder(chunks, index) ==> 0 <= index <= Highest(chunks)
  {
    HighestIsReceived(chunks);
  }

  lemma ChunkKeepsRangesExact(c: Capture, d: SampleData)
    requires RangesAreExact(c)
    ensures RangesAreExact(WithChunk(c, d))
  {
    var e := WithChunk(c, d);
    var h := Highest(c.chunks);
    if !HasChunk(c.chunks, d.chunkIndex) {
      HighestOfMore(c.chunks, d);
      var more := Skipped(c, d.chunkIndex);
      forall index | 0 <= index <= Highest(e.chunks)
        ensures IsMissing(e.missingRanges, index) <==> !ReceivedInOrder(e.chunks, index)
      {
        InOrderGrows(c.chunks, d, index);
        MissingGrows(c.missingRanges, more, index);
        BelowHighestInOrder(c.chunks, index);
        assert h < index ==> !IsMissing(c.missingRanges, index);
      }
    }
  }

  ghost predicate AllRangesExact(a: Analyzer) {
    forall id: u32 :: RangesAreExact(CaptureIn(a.captures, id))
  }

  lemma StepKeepsRangesExact(a: Analyzer, f: Frame)
    requires AllRangesExact(a)
    ensures AllRangesExact(After(a, f))
  {
    forall id: u32
      ensures RangesAreExact(CaptureIn(After(a, f).captures, id))
    {
      StepTouchesOneCapture(a, f, id);
      var c := CaptureIn(a.captures, id);
      assert RangesAreExact(c);
      match Effect(f, id)
      case NewHeader(h) =>
        assert WithHeader(c, h).chunks == c.chunks && WithHeader(c, h).missingRanges == c.missingRanges;
      case NewChunk(d) => ChunkKeepsRangesExact(c, d);
      case Nothing =>
    }
  }

  lemma {:induction false} RunKeepsRangesExact(a: Analyzer, frames: seq<Frame>)
    requires AllRangesExact(a)
    ensures AllRangesExact(AfterAll(a, frames))
    decreases |frames|
  {
    if frames != [] {
      StepKeepsRangesExact(a, frames[0]);
      RunKeepsRangesExact(After(a, frames[0]), frames[1..]);
    }
  }

  lemma NothingReceivedIsExact(c: Capture)
    requires c.chunks == [] && c.missingRanges == []
    ensures RangesAreExact(c)
  {
    assert Highest([]) == -1;
  }

  lemma EmptyIsExact()
    ensures GapsBalance(INITIAL) && AllRangesExact(INITIAL)
  {
    forall id: u32
      ensures RangesAreExact(CaptureIn(INITIAL.captures, id))
    {
      NothingReceivedIsExact(CaptureIn(INITIAL.captures, id));
    }
  }

  /** For every sequence of frames: the missing chunks less those that came late are exactly the indices
      that are still missing below the highest one, counted one by one and summed over all captures. */
  lemma EveryRunBalances(frames: seq<Frame>)
    ensures GapsBalance(AfterAll(INITIAL, frames))
  {
    EmptyIsExact();
    RunKeepsBalance(INITIAL, frames);
  }

  /** For every sequence of frames the missing ranges of every capture are exact. */
  lemma EveryRunKeepsRangesExact(frames: seq<Frame>)
    ensures AllRangesExact(AfterAll(INITIAL, frames))
  {
    EmptyIsExact();
    RunKeepsRangesExact(INITIAL, frames);
  }

  // -------------------------------------------------------- captures do not interfere

  /** What a frame does to the capture `id`. */
  datatype FrameEffect = NewHeader(h: Header) | NewChunk(d: SampleData) | Nothing

  function Effect(f: Frame, id: u32): FrameEffect {
    match f
    case HeaderFrame(payload) =>
      var p := ParseHeader(payload);
      if p.Ok? && p.value.captureId == id then NewHeader(p.value) else Nothing
    case SampleFrame(payload) =>
      var p := ParseSampleData(payload);
      if p.Ok? && p.value.captureId == id then NewChunk(p.value) else Nothing
  }

  function Applied(c: Capture, e: FrameEffect): Capture {
    match e
    case NewHeader(h) => WithHeader(c, h)
    case NewChunk(d) => WithChunk(c, d)
    case Nothing => c
  }

  function AllApplied(c: Capture, frames: seq<Frame>, id: u32): Capture
    decreases |frames|
  {
    if frames == [] then c else AllApplied(Applied(c, Effect(frames[0], id)), frames[1..], id)
  }

  lemma StepTouchesOneCapture(a: Analyzer, f: Frame, id: u32)
    ensures CaptureIn(After(a, f).captures, id) == Applied(CaptureIn(a.captures, id), Effect(f, id))
  {
    match f
    case HeaderFrame(payload) =>
      if ParseHeader(payload).Ok? {
        var h := ParseHeader(payload).value;
        PutThenFind(a.captures, h.captureId, WithHeader(CaptureIn(a.captures, h.captureId), h), id);
      }
    case SampleFrame(payload) =>
      if ParseSampleData(payload).Ok? {
        var d := ParseSampleData(payload).value;
        PutThenFind(a.captures, d.captureId, WithChunk(CaptureIn(a.captures, d.captureId), d), id);
      }
  }

  /** Frames of other captures in between do not matter. */
  lemma {:induction false} CapturesAreIndependent(a: Analyzer, frames: seq<Frame>, id: u32)
    ensures CaptureIn(AfterAll(a, frames).captures, id) == AllApplied(CaptureIn(a.captures, id), frames, id)
    decreases |frames|
  {
    if frames != [] {
      StepTouchesOneCapture(a, frames[0], id);
      CapturesAreIndependent(After(a, frames[0]), frames[1..], id);
    }
  }

  // ---------------------------------------------------------------------- encoding

  /** Sample data the frame format can carry. */
  predicate Encodable(d: SampleData) {
    && |d.values| < 256 && IsPacking(d.sampleBytes, |d.values|)
    && forall i | 0 <= i < |d.values| :: d.values[i] < Limit(d.sampleBytes)
  }

  lemma {:induction false} EncodedLength(values: seq<u32>, width: nat)
    ensures |EncodeValues(values, width)| == |values| * width
    decreases |values|
  {
    if values != [] {
      EncodedLength(values[1..], width);
      assert |values| * width == (|values| - 1) * width + width;
    }
  }

  lemma {:induction false} ValuesRoundTrip(values: seq<u32>, width: nat, padding: seq<byte>)
    requires 1 <= width <= 4
    requires forall i | 0 <= i < |values| :: values[i] < Limit(width)
    ensures Values(EncodeValues(values, width) + padding, width, |values|) == values
    decreases |values|
  {
    if values != [] {
      var head, tail := LittleEndian(values[0], width), EncodeValues(values[1..], width);
      LittleEndianRoundTrip(values[0], width);
      ValuesRoundTrip(values[1..], width, padding);
      Associate(head, tail, padding);
      var area := head + (tail + padding);
      assert area[..width] == head && area[width..] == tail + padding;
    }
  }

  lemma SampleFieldsAt(d: SampleData, area: seq<byte>)
    requires |d.values| < 256 && |area| == SAMPLE_AREA
    ensures var p := U32(d.captureId) + U16(d.chunkIndex) + U16(d.firstSampleIndex) + [d.sampleBytes, |d.values|]
                     + U16(d.flags) + area;
            && ReadU32(p, 0) == d.captureId && ReadU16(p, 4) == d.chunkIndex && ReadU16(p, 6) == d.firstSampleIndex
            && p[8] == d.sampleBytes && p[9] == |d.values| && ReadU16(p, 10) == d.flags && p[12..] == area
  {
    var i, c, f, n, g := U32(d.captureId), U16(d.chunkIndex), U16(d.firstSampleIndex), [d.sampleBytes, |d.values|], U16(d.flags);
    var p := i + c + f + n + (g + area);
    Associate(i + c + f + n, g, area);
    Parts(i, c, f, n, g + area);
    ReadU32In(p, 0, d.captureId);
    ReadU16In(p, 4, d.chunkIndex);
    ReadU16In(p, 6, d.firstSampleIndex);
    assert p[8] == p[8..10][0] && p[9] == p[8..10][1];
    ReadU16At(i + c + f + n, d.flags, area);
  }

  lemma HeaderIdentity(h: Header)
    ensures var p := HeaderPayload(h);
            ReadU32(p, 0) == h.captureId && ReadU32(p, 4) == h.timestamp
            && ReadU16(p, 8) == h.sampleWidthBits && ReadU16(p, 10) == h.sampleCount
  {
    var i, t, w, n := U32(h.captureId), U32(h.timestamp), U16(h.sampleWidthBits), U16(h.sampleCount);
    var rest := U16(h.triggerIndex) + U16(h.flags) + U32(h.samplePeriodCycles) + U16(h.channelCount) + U16(0);
    var p := HeaderPayload(h);
    assert p == i + t + w + n + rest;
    Parts(i, t, w, n, rest);
    ReadU32In(p, 0, h.captureId);
    ReadU32In(p, 4, h.timestamp);
    ReadU16In(p, 8, h.sampleWidthBits);
    ReadU16In(p, 10, h.sampleCount);
  }

  lemma HeaderDetails(h: Header)
    ensures var p := HeaderPayload(h);
            ReadU16(p, 12) == h.triggerIndex && ReadU16(p, 14) == h.flags && ReadU32(p, 16) == h.samplePeriodCycles
            && ReadU16(p, 20) == h.channelCount && ReadU16(p, 22) == 0
  {
    var head := U32(h.captureId) + U32(h.timestamp) + U16(h.sampleWidthBits) + U16(h.sampleCount);
    var x, f, s, c, z := U16(h.triggerIndex), U16(h.flags), U32(h.samplePeriodCycles), U16(h.channelCount), U16(0);
    var p := HeaderPayload(h);
    assert p == head + x + f + s + c + z;
    ReadU16At(head, h.triggerIndex, f + s + c + z);
    assert head + x + (f + s + c + z) == p;
    ReadU16At(head + x, h.flags, s + c + z);
    assert head + x + f + (s + c + z) == p;
    ReadU32At(head + x + f, h.samplePeriodCycles, c + z);
    assert head + x + f + s + (c + z) == p;
    ReadU16At(head + x + f + s, h.channelCount, z);
    ReadU16At(head + x + f + s + c, 0, []);
    assert head + x + f + s + c + z + [] == p;
  }

  /** The decoder reads back the header the encoder wrote. */
  lemma HeaderRoundTrip(h: Header)
    requires h.reserved == 0
    ensures ParseHeader(HeaderPayload(h)) == Ok(h)
  {
    HeaderIdentity(h);
    HeaderDetails(h);
  }

  /** The decoder reads back what the encoder wrote. */
  lemma SampleDataRoundTrip(d: SampleData)
    requires Encodable(d)
    ensures ParseSampleData(SamplePayload(d)) == Ok(d)
  {
    var code := EncodeValues(d.values, d.sampleBytes);
    EncodedLength(d.values, d.sampleBytes);
    var zeros: seq<byte> := seq(SAMPLE_AREA - |code|, _ => 0);
    SampleFieldsAt(d, code + zeros);
    ValuesRoundTrip(d.values, d.sampleBytes, zeros);
    var head := U32(d.captureId) + U16(d.chunkIndex) + U16(d.firstSampleIndex) + [d.sampleBytes, |d.values|] + U16(d.flags);
    var filler: seq<byte> := seq(SAMPLE_FRAME_BYTES, _ => 0);
    assert (head + code + filler)[..SAMPLE_FRAME_BYTES] == head + (code + zeros);
  }

  /** An encoded chunk reaches its capture, and no other, unchanged. */
  lemma EncodedChunkArrives(d: SampleData, id: u32)
    requires Encodable(d)
    ensures Effect(SampleFrame(SamplePayload(d)), id) == if id == d.captureId then NewChunk(d) else Nothing
  {
    SampleDataRoundTrip(d);
  }

  // ------------------------------------------------------------------ filling in a chunk

  /** How many of the `n` samples from `first` on are there. */
  function FilledIn(samples: seq<Option<u32>>, first: nat, n: nat): nat
    decreases n
  {
    if n == 0 then 0
    else (if first < |samples| && samples[first].Some? then 1 else 0) + FilledIn(samples, first + 1, n - 1)
  }

  /** The sample at `i` after a chunk: one that was there stays, a free one in the range gets its value. */
  function SampleAfter(samples: seq<Option<u32>>, first: nat, values: seq<u32>, i: nat): Option<u32> {
    if i < |samples| && samples[i].Some? then samples[i]
    else if first <= i < first + |values| then Some(values[i - first])
    else None
  }

  lemma {:induction false} FilledInSame(a: seq<Option<u32>>, b: seq<Option<u32>>, first: nat, n: nat)
    requires forall i: nat | first <= i < first + n ::
               (i < |a| && a[i].Some?) <==> (i < |b| && b[i].Some?)
    ensures FilledIn(a, first, n) == FilledIn(b, first, n)
    decreases n
  {
    if n != 0 {
      FilledInSame(a, b, first + 1, n - 1);
    }
  }

  /** `now` is `samples` after the chunk, and `overlaps` of its samples were there. */
  ghost predicate IsFilled(
    samples: seq<Option<u32>>, first: nat, values: seq<u32>, now: seq<Option<u32>>, overlaps: nat)
  {
    && |now| == (if values != [] && |samples| < first + |values| then first + |values| else |samples|)
    && (forall i | 0 <= i < |now| :: now[i] == SampleAfter(samples, first, values, i))
    && overlaps == FilledIn(samples, first, |values|)
  }

  /** From the samples after the first value to those after all. */
  lemma OneMoreFilled(
    samples: seq<Option<u32>>, first: nat, values: seq<u32>, s: seq<Option<u32>>, now: seq<Option<u32>>, overlaps: nat)
    requires values != [] && first < |s| && IsFilled(s, first + 1, values[1..], now, overlaps)
    requires var e := Extended(samples, first + 1);
             s == if e[first].Some? then e else e[first := Some(values[0])]
    ensures IsFilled(samples, first, values, now,
                     overlaps + if first < |samples| && samples[first].Some? then 1 else 0)
  {
    FilledInSame(s, samples, first + 1, |values| - 1);
    forall i | 0 <= i < |now|
      ensures SampleAfter(s, first + 1, values[1..], i) == SampleAfter(samples, first, values, i)
    {
    }
  }

  /** A chunk, sample by sample, also when it overlaps others in part; `overlaps` counts those that were there. */
  lemma {:induction false} FillIsPointwise(samples: seq<Option<u32>>, first: nat, values: seq<u32>)
    ensures var r := Fill(samples, first, values);
            IsFilled(samples, first, values, r.samples, r.overlaps)
    decreases |values|
  {
    if values != [] {
      var e := Extended(samples, first + 1);
      var s := if e[first].Some? then e else e[first := Some(values[0])];
      var more := Fill(s, first + 1, values[1..]);
      FillIsPointwise(s, first + 1, values[1..]);
      OneMoreFilled(samples, first, values, s, more.samples, more.overlaps);
    }
  }

  // ------------------------------------------------------------------------ counters

  /** The frame is a chunk whose index its capture has already. */
  predicate IsDuplicate(a: Analyzer, f: Frame) {
    f.SampleFrame? && ParseSampleData(f.payload).Ok?
    && HasChunk(CaptureIn(a.captures, ParseSampleData(f.payload).value.captureId).chunks,
                ParseSampleData(f.payload).value.chunkIndex)
  }

  predicate IsMalformed(f: Frame) {
    match f
    case HeaderFrame(payload) => ParseHeader(payload).Err?
    case SampleFrame(payload) => ParseSampleData(payload).Err?
  }

  /** The samples of the frame that were there before. */
  function OverlapsOf(a: Analyzer, f: Frame): nat {
    if IsMalformed(f) || IsDuplicate(a, f) || f.HeaderFrame? then 0
    else
      var d := ParseSampleData(f.payload).value;
      FilledIn(CaptureIn(a.captures, d.captureId).samples, d.firstSampleIndex, |d.values|)
  }

  /** How each counter moves with a frame. */
  lemma StepIsCounted(a: Analyzer, f: Frame)
    ensures var b := After(a, f);
            && b.malformed == a.malformed + (if IsMalformed(f) then 1 else 0)
            && b.headers == a.headers + (if f.HeaderFrame? && !IsMalformed(f) then 1 else 0)
            && b.samples == a.samples + (if f.SampleFrame? && !IsMalformed(f) && !IsDuplicate(a, f) then 1 else 0)
            && b.droppedFrames == a.droppedFrames + (if IsDuplicate(a, f) then 1 else 0) + OverlapsOf(a, f)
            && (IsMalformed(f) ==> b == a.(malformed := a.malformed + 1))
  {
    if f.SampleFrame? && !IsMalformed(f) {
      var d := ParseSampleData(f.payload).value;
      FillIsPointwise(CaptureIn(a.captures, d.captureId).samples, d.firstSampleIndex, d.values);
    }
  }

  function DuplicatesIn(a: Analyzer, frames: seq<Frame>): nat
    decreases |frames|
  {
    if frames == [] then 0 else (if IsDuplicate(a, frames[0]) then 1 else 0) + DuplicatesIn(After(a, frames[0]), frames[1..])
  }

  function OverlapsIn(a: Analyzer, frames: seq<Frame>): nat
    decreases |frames|
  {
    if frames == [] then 0 else OverlapsOf(a, frames[0]) + OverlapsIn(After(a, frames[0]), frames[1..])
  }

  /** Over every run each frame is counted once: as a header, as a new chunk, as malformed or as a duplicate; what
      counts as dropped are the duplicates and, one by one, the samples that came again. */
  lemma {:induction false} EveryFrameIsCounted(a: Analyzer, frames: seq<Frame>)
    ensures var b := AfterAll(a, frames);
            && b.headers + b.samples + b.malformed + DuplicatesIn(a, frames) ==
               a.headers + a.samples + a.malformed + |frames|
            && b.droppedFrames == a.droppedFrames + DuplicatesIn(a, frames) + OverlapsIn(a, frames)
    decreases |frames|
  {
    if frames != [] {
      StepIsCounted(a, frames[0]);
      EveryFrameIsCounted(After(a, frames[0]), frames[1..]);
    }
  }

  // ---------------------------------------------------------------------- reassembly

  predicate Covers(d: SampleData, i: int) {
    d.firstSampleIndex <= i < d.firstSampleIndex + |d.values|
  }

  /** The chunk carries its part of the original samples. */
  predicate IsPartOf(d: SampleData, original: seq<u32>) {
    && d.firstSampleIndex + |d.values| <= |original|
    && forall j | 0 <= j < |d.values| :: d.values[j] == original[d.firstSampleIndex + j]
  }

  predicate Apart(d: SampleData, e: SampleData) {
    && d.chunkIndex != e.chunkIndex
    && (d.firstSampleIndex + |d.values| <= e.firstSampleIndex || e.firstSampleIndex + |e.values| <= d.firstSampleIndex)
  }

  /** Frames, in any order and with frames of other captures in between, whose chunks for `id` are
      different parts of the original. */
  predicate ArePartsOf(frames: seq<Frame>, id: u32, original: seq<u32>) {
    && (forall k | 0 <= k < |frames| :: !Effect(frames[k], id).NewHeader?)
    && (forall k | 0 <= k < |frames| && Effect(frames[k], id).NewChunk? :: IsPartOf(Effect(frames[k], id).d, original))
    && (forall k, j | 0 <= k < j < |frames| && Effect(frames[k], id).NewChunk? && Effect(frames[j], id).NewChunk? ::
          Apart(Effect(frames[k], id).d, Effect(frames[j], id).d))
  }

  /** The frame supplies sample `i`: it covers it, and its index was not used before. */
  predicate Supplies(f: Frame, id: u32, known: seq<SampleData>, i: int) {
    && Effect(f, id).NewChunk?
    && !HasChunk(known, Effect(f, id).d.chunkIndex)
    && Covers(Effect(f, id).d, i)
  }

  predicate Supplied(frames: seq<Frame>, id: u32, known: seq<SampleData>, i: int) {
    exists k :: 0 <= k < |frames| && Supplies(frames[k], id, known, i)
  }

  predicate Carries(frames: seq<Frame>, id: u32, index: u16) {
    exists k :: 0 <= k < |frames| && Effect(frames[k], id).NewChunk? && Effect(frames[k], id).d.chunkIndex == index
  }

  lemma {:induction false} FillsFreeRange(samples: seq<Option<u32>>, first: nat, values: seq<u32>)
    requires first + |values| <= |samples|
    requires forall i | first <= i < first + |values| :: samples[i].None?
    ensures var f := Fill(samples, first, values);
            && f.overlaps == 0 && |f.samples| == |samples|
            && forall i | 0 <= i < |samples| ::
                 f.samples[i] == if first <= i < first + |values| then Some(values[i - first]) else samples[i]
    decreases |values|
  {
    if values != [] {
      assert Extended(samples, first + 1) == samples;
      FillsFreeRange(samples[first := Some(values[0])], first + 1, values[1..]);
    }
  }

  lemma {:induction false} AllAppliedAppend(c: Capture, frames: seq<Frame>, f: Frame, id: u32)
    ensures AllApplied(c, frames + [f], id) == Applied(AllApplied(c, frames, id), Effect(f, id))
    decreases |frames|
  {
    if frames == [] {
      assert frames + [f] == [f];
      assert [f][1..] == [];
    } else {
      assert (frames + [f])[1..] == frames[1..] + [f];
      AllAppliedAppend(Applied(c, Effect(frames[0], id)), frames[1..], f, id);
    }
  }

  /** The state of a capture while its parts arrive. */
  ghost predicate Assembled(start: Capture, c: Capture, frames: seq<Frame>, id: u32, original: seq<u32>) {
    && c.header == start.header
    && |c.samples| == |original|
    && (forall i | 0 <= i < |original| ::
          c.samples[i] == if Supplied(frames, id, start.chunks, i) then Some(original[i]) else None)
    && (forall index: u16 :: HasChunk(c.chunks, index) <==> HasChunk(start.chunks, index) || Carries(frames, id, index))
    && (0 < |original| ==> (c.complete <==> forall i | 0 <= i < |original| :: Supplied(frames, id, start.chunks, i)))
  }

  /** A capture whose header has just arrived. */
  predicate Fresh(c: Capture, original: seq<u32>) {
    && c.header.Some? && c.header.value.sampleCount == |original|
    && |c.samples| == |original| && (forall i | 0 <= i < |original| :: c.samples[i].None?)
    && !c.complete
  }

  lemma SuppliedGrows(frames: seq<Frame>, f: Frame, id: u32, known: seq<SampleData>, i: int)
    ensures Supplied(frames + [f], id, known, i) <==> Supplied(frames, id, known, i) || Supplies(f, id, known, i)
  {
    var more := frames + [f];
    if Supplied(frames, id, known, i) {
      var k :| 0 <= k < |frames| && Supplies(frames[k], id, known, i);
      assert Supplies(more[k], id, known, i);
    }
    if Supplies(f, id, known, i) {
      assert Supplies(more[|frames|], id, known, i);
    }
  }

  lemma CarriesGrows(frames: seq<Frame>, f: Frame, id: u32, index: u16)
    ensures Carries(frames + [f], id, index) <==>
            Carries(frames, id, index) || (Effect(f, id).NewChunk? && Effect(f, id).d.chunkIndex == index)
  {
    var more := frames + [f];
    if Carries(frames, id, index) {
      var k :| 0 <= k < |frames| && Effect(frames[k], id).NewChunk? && Effect(frames[k], id).d.chunkIndex == index;
      assert Effect(more[k], id).NewChunk? && Effect(more[k], id).d.chunkIndex == index;
    }
    if Effect(f, id).NewChunk? && Effect(f, id).d.chunkIndex == index {
      assert Effect(more[|frames|], id).NewChunk?;
    }
  }

  /** A new part does not touch what other parts supplied, and its index is new among them. */
  lemma PartIsApart(frames: seq<Frame>, f: Frame, id: u32, known: seq<SampleData>, original: seq<u32>)
    requires ArePartsOf(frames + [f], id, original) && Effect(f, id).NewChunk?
    ensures !Carries(frames, id, Effect(f, id).d.chunkIndex)
    ensures forall i | Covers(Effect(f, id).d, i) :: !Supplied(frames, id, known, i)
  {
    var more, d := frames + [f], Effect(f, id).d;
    forall k | 0 <= k < |frames| && Effect(frames[k], id).NewChunk?
      ensures Apart(Effect(frames[k], id).d, d)
    {
      assert more[k] == frames[k] && more[|frames|] == f;
      assert Apart(Effect(more[k], id).d, Effect(more[|frames|], id).d);
    }
  }

  lemma PartsOfPrefix(frames: seq<Frame>, f: Frame, id: u32, original: seq<u32>)
    requires ArePartsOf(frames + [f], id, original)
    ensures ArePartsOf(frames, id, original)
    ensures !Effect(f, id).NewHeader? && (Effect(f, id).NewChunk? ==> IsPartOf(Effect(f, id).d, original))
  {
    var more := frames + [f];
    assert forall k | 0 <= k < |frames| :: more[k] == frames[k];
    assert more[|frames|] == f;
  }

  lemma AssembledSkips(start: Capture, c: Capture, frames: seq<Frame>, f: Frame, id: u32, original: seq<u32>)
    requires Assembled(start, c, frames, id, original)
    requires Effect(f, id).Nothing?
    ensures Assembled(start, c, frames + [f], id, original)
  {
    forall i | 0 <= i < |original|
      ensures Supplied(frames + [f], id, start.chunks, i) <==> Supplied(frames, id, start.chunks, i)
    {
      SuppliedGrows(frames, f, id, start.chunks, i);
    }
    forall index: u16
      ensures Carries(frames + [f], id, index) <==> Carries(frames, id, index)
    {
      CarriesGrows(frames, f, id, index);
    }
  }

  lemma AssembledRefuses(start: Capture, c: Capture, frames: seq<Frame>, f: Frame, id: u32, original: seq<u32>)
    requires Assembled(start, c, frames, id, original)
    requires Effect(f, id).NewChunk? && HasChunk(start.chunks, Effect(f, id).d.chunkIndex)
    ensures Assembled(start, WithChunk(c, Effect(f, id).d), frames + [f], id, original)
  {
    forall i | 0 <= i < |original|
      ensures Supplied(frames + [f], id, start.chunks, i) <==> Supplied(frames, id, start.chunks, i)
    {
      SuppliedGrows(frames, f, id, start.chunks, i);
    }
    forall index: u16
      ensures HasChunk(c.chunks, index) <==> HasChunk(start.chunks, index) || Carries(frames + [f], id, index)
    {
      CarriesGrows(frames, f, id, index);
    }
  }

  /** Filling in a part whose range is free puts the original samples there. */
  lemma PartFills(samples: seq<Option<u32>>, d: SampleData, original: seq<u32>)
    requires IsPartOf(d, original) && |samples| == |original|
    requires forall i | 0 <= i < |original| && Covers(d, i) :: samples[i].None?
    ensures var filled := Fill(samples, d.firstSampleIndex, d.values).samples;
            && |filled| == |original|
            && forall i | 0 <= i < |original| :: filled[i] == if Covers(d, i) then Some(original[i]) else samples[i]
  {
    FillsFreeRange(samples, d.firstSampleIndex, d.values);
    ValuesAreOriginal(d, original);
  }

  lemma ValuesAreOriginal(d: SampleData, original: seq<u32>)
    requires IsPartOf(d, original)
    ensures forall i | 0 <= i < |original| && Covers(d, i) :: d.values[i - d.firstSampleIndex] == original[i]
  {
    forall i | 0 <= i < |original| && Covers(d, i)
      ensures d.values[i - d.firstSampleIndex] == original[i]
    {
      assert d.values[i - d.firstSampleIndex] == original[d.firstSampleIndex + (i - d.firstSampleIndex)];
    }
  }

  /** The samples after a part was taken. */
  lemma TakenSamples(c: Capture, frames: seq<Frame>, f: Frame, id: u32, known: seq<SampleData>, original: seq<u32>)
    requires ArePartsOf(frames + [f], id, original)
    requires Effect(f, id).NewChunk? && !HasChunk(known, Effect(f, id).d.chunkIndex)
    requires |c.samples| == |original|
    requires forall i | 0 <= i < |original| ::
               c.samples[i] == if Supplied(frames, id, known, i) then Some(original[i]) else None
    ensures var d := Effect(f, id).d;
            var samples := Fill(c.samples, d.firstSampleIndex, d.values).samples;
            && |samples| == |original|
            && forall i | 0 <= i < |original| ::
                 samples[i] == if Supplied(frames + [f], id, known, i) then Some(original[i]) else None
  {
    var d := Effect(f, id).d;
    PartsOfPrefix(frames, f, id, original);
    PartIsApart(frames, f, id, known, original);
    PartFills(c.samples, d, original);
    forall i | 0 <= i < |original|
      ensures Supplied(frames + [f], id, known, i) <==> Supplied(frames, id, known, i) || Covers(d, i)
    {
      SuppliedGrows(frames, f, id, known, i);
    }
  }

  lemma TakenChunks(chunks: seq<SampleData>, frames: seq<Frame>, f: Frame, id: u32, known: seq<SampleData>)
    requires Effect(f, id).NewChunk?
    requires forall index: u16 :: HasChunk(chunks, index) <==> HasChunk(known, index) || Carries(frames, id, index)
    ensures forall index: u16 ::
              HasChunk(chunks + [Effect(f, id).d], index) <==> HasChunk(known, index) || Carries(frames + [f], id, index)
  {
    forall index: u16
      ensures HasChunk(chunks + [Effect(f, id).d], index) <==> HasChunk(known, index) || Carries(frames + [f], id, index)
    {
      CarriesGrows(frames, f, id, index);
      HasChunkGrows(chunks, Effect(f, id).d, index);
    }
  }

  lemma SuppliedStays(frames: seq<Frame>, f: Frame, id: u32, known: seq<SampleData>, count: nat)
    requires forall i | 0 <= i < count :: Supplied(frames, id, known, i)
    ensures forall i | 0 <= i < count :: Supplied(frames + [f], id, known, i)
  {
    forall i | 0 <= i < count
      ensures Supplied(frames + [f], id, known, i)
    {
      SuppliedGrows(frames, f, id, known, i);
    }
  }

  lemma AssembledTakes(start: Capture, c: Capture, frames: seq<Frame>, f: Frame, id: u32, original: seq<u32>)
    requires Fresh(start, original) && Assembled(start, c, frames, id, original)
    requires ArePartsOf(frames + [f], id, original)
    requires Effect(f, id).NewChunk? && !HasChunk(start.chunks, Effect(f, id).d.chunkIndex)
    ensures Assembled(start, WithChunk(c, Effect(f, id).d), frames + [f], id, original)
  {
    var d := Effect(f, id).d;
    PartIsApart(frames, f, id, start.chunks, original);
    assert !HasChunk(c.chunks, d.chunkIndex);
    TakenSamples(c, frames, f, id, start.chunks, original);
    TakenChunks(c.chunks, frames, f, id, start.chunks);
    if c.complete && 0 < |original| {
      SuppliedStays(frames, f, id, start.chunks, |original|);
    }
  }

  /** Whatever the order of arrival: a sample has its original value if a chunk with an unused index
      supplied it, and is missing otherwise; the capture is complete if and only if all are supplied. */
  lemma {:induction false} PartsAreAssembled(start: Capture, frames: seq<Frame>, id: u32, original: seq<u32>)
    requires Fresh(start, original) && ArePartsOf(frames, id, original)
    ensures Assembled(start, AllApplied(start, frames, id), frames, id, original)
    decreases |frames|
  {
    if frames == [] {
      assert !Supplied(frames, id, start.chunks, 0);
    } else {
      var init, f := frames[..|frames| - 1], frames[|frames| - 1];
      assert frames == init + [f];
      PartsOfPrefix(init, f, id, original);
      PartsAreAssembled(start, init, id, original);
      AllAppliedAppend(start, init, f, id);
      var c := AllApplied(start, init, id);
      if Effect(f, id).Nothing? {
        AssembledSkips(start, c, init, f, id, original);
      } else {
        PartIsApart(init, f, id, start.chunks, original);
        if HasChunk(start.chunks, Effect(f, id).d.chunkIndex) {
          AssembledRefuses(start, c, init, f, id, original);
        } else {
          AssembledTakes(start, c, init, f, id, original);
        }
      }
    }
  }

  /** Some chunk covers sample `i`. */
  predicate IsCovered(frames: seq<Frame>, id: u32, i: int) {
    exists k :: 0 <= k < |frames| && Effect(frames[k], id).NewChunk? && Covers(Effect(frames[k], id).d, i)
  }

  /** After the first header of a capture, any arrival order of chunks that cover the capture restores
      the original samples and completes it, whatever other captures do in between. */
  lemma CaptureIsRestored(a: Analyzer, payload: seq<byte>, frames: seq<Frame>, original: seq<u32>)
    requires ParseHeader(payload).Ok? && ParseHeader(payload).value.sampleCount == |original| && 0 < |original|
    requires var id := ParseHeader(payload).value.captureId;
             && CaptureIn(a.captures, id).chunks == []
             && ArePartsOf(frames, id, original)
             && forall i | 0 <= i < |original| :: IsCovered(frames, id, i)
    ensures var c := CaptureIn(AfterAll(After(a, HeaderFrame(payload)), frames).captures, ParseHeader(payload).value.captureId);
            && c.complete && |c.samples| == |original|
            && forall i | 0 <= i < |original| :: c.samples[i] == Some(original[i])
  {
    var id := ParseHeader(payload).value.captureId;
    var start := WithHeader(CaptureIn(a.captures, id), ParseHeader(payload).value);
    StepTouchesOneCapture(a, HeaderFrame(payload), id);
    CapturesAreIndependent(After(a, HeaderFrame(payload)), frames, id);
    PartsAreAssembled(start, frames, id, original);
    forall i | 0 <= i < |original|
      ensures Supplied(frames, id, start.chunks, i)
    {
      assert IsCovered(frames, id, i);
      var k :| 0 <= k < |frames| && Effect(frames[k], id).NewChunk? && Covers(Effect(frames[k], id).d, i);
      assert Supplies(frames[k], id, start.chunks, i);
    }
  }

  function AsFrame(d: SampleData): Frame
    requires Encodable(d)
  {
    SampleFrame(SamplePayload(d))
  }

  function SampleFrames(parts: seq<SampleData>): (frames: seq<Frame>)
    requires forall k | 0 <= k < |parts| :: Encodable(parts[k])
    ensures |frames| == |parts|
    ensures forall k | 0 <= k < |parts| :: frames[k] == AsFrame(parts[k])
  {
    seq(|parts|, k requires 0 <= k < |parts| => AsFrame(parts[k]))
  }

  /** The chunks of one capture in some order: encodable, apart from each other, covering the original. */
  ghost predicate AreChunksOf(parts: seq<SampleData>, id: u32, original: seq<u32>) {
    && (forall k | 0 <= k < |parts| :: Encodable(parts[k]) && parts[k].captureId == id && IsPartOf(parts[k], original))
    && (forall k, j | 0 <= k < j < |parts| :: Apart(parts[k], parts[j]))
    && (forall i | 0 <= i < |original| :: SomeCovers(parts, i))
  }

  predicate SomeCovers(parts: seq<SampleData>, i: int) {
    exists k :: 0 <= k < |parts| && Covers(parts[k], i)
  }

  /** From encoder to decoder: the encoded header, then the encoded chunks in whatever order, restore the
      capture. */
  lemma EncodedCaptureIsRestored(a: Analyzer, h: Header, parts: seq<SampleData>, original: seq<u32>)
    requires h.reserved == 0 && h.sampleCount == |original| && 0 < |original|
    requires CaptureIn(a.captures, h.captureId).chunks == []
    requires AreChunksOf(parts, h.captureId, original)
    ensures var c := CaptureIn(AfterAll(After(a, HeaderFrame(HeaderPayload(h))), SampleFrames(parts)).captures, h.captureId);
            && c.complete && |c.samples| == |original|
            && forall i | 0 <= i < |original| :: c.samples[i] == Some(original[i])
  {
    var frames := SampleFrames(parts);
    HeaderRoundTrip(h);
    forall k | 0 <= k < |parts|
      ensures Effect(frames[k], h.captureId) == NewChunk(parts[k])
    {
      EncodedChunkArrives(parts[k], h.captureId);
    }
    forall i | 0 <= i < |original|
      ensures IsCovered(frames, h.captureId, i)
    {
      assert SomeCovers(parts, i);
      var k :| 0 <= k < |parts| && Covers(parts[k], i);
      assert Effect(frames[k], h.captureId) == NewChunk(parts[k]);
    }
    CaptureIsRestored(a, HeaderPayload(h), frames, original);
  }

  // --------------------------------------------------------------- what goes wrong

  /** A repeated header empties the samples but not the memory of the chunk indices: sent again, the same
      chunks are refused as overlaps, and the capture stays empty and incomplete for good. */
  lemma RepeatedHeaderLosesCapture(a: Analyzer, payload: seq<byte>, frames: seq<Frame>, original: seq<u32>)
    requires ParseHeader(payload).Ok? && ParseHeader(payload).value.sampleCount == |original| && 0 < |original|
    requires var id := ParseHeader(payload).value.captureId;
             && ArePartsOf(frames, id, original)
             && forall k | 0 <= k < |frames| && Effect(frames[k], id).NewChunk? ::
                  HasChunk(CaptureIn(a.captures, id).chunks, Effect(frames[k], id).d.chunkIndex)
    ensures var c := CaptureIn(AfterAll(After(a, HeaderFrame(payload)), frames).captures, ParseHeader(payload).value.captureId);
            && !c.complete && |c.samples| == |original|
            && forall i | 0 <= i < |original| :: c.samples[i].None?
  {
    var id := ParseHeader(payload).value.captureId;
    var start := WithHeader(CaptureIn(a.captures, id), ParseHeader(payload).value);
    StepTouchesOneCapture(a, HeaderFrame(payload), id);
    CapturesAreIndependent(After(a, HeaderFrame(payload)), frames, id);
    PartsAreAssembled(start, frames, id, original);
    assert !Supplied(frames, id, start.chunks, 0);
  }

  // ------------------------------------------------------------------------ stability

  lemma {:induction false} FillKeepsSamples(samples: seq<Option<u32>>, first: nat, values: seq<u32>)
    ensures var f := Fill(samples, first, values);
            && |samples| <= |f.samples|
            && forall i | 0 <= i < |samples| && samples[i].Some? :: f.samples[i] == samples[i]
    decreases |values|
  {
    if values != [] {
      var s := Extended(samples, first + 1);
      if s[first].Some? {
        FillKeepsSamples(s, first + 1, values[1..]);
      } else {
        FillKeepsSamples(s[first := Some(values[0])], first + 1, values[1..]);
      }
    }
  }

  /** `complete` means that no sample is missing. */
  predicate CompleteIsHonest(c: Capture) {
    c.complete ==> c.header.Some? && c.header.value.sampleCount <= |c.samples|
                   && AllPresent(c.samples, c.header.value.sampleCount)
  }

  predicate LongEnough(c: Capture) {
    c.header.Some? ==> c.header.value.sampleCount <= |c.samples|
  }

  /** For every sequence of frames: `complete` stays honest, and until another header of the capture
      arrives a filled sample keeps its value and a complete capture stays complete. */
  lemma {:induction false} FilledSamplesStay(c: Capture, frames: seq<Frame>, id: u32)
    requires CompleteIsHonest(c) && LongEnough(c)
    ensures CompleteIsHonest(AllApplied(c, frames, id)) && LongEnough(AllApplied(c, frames, id))
    ensures (forall k | 0 <= k < |frames| :: !Effect(frames[k], id).NewHeader?) ==>
              var d := AllApplied(c, frames, id);
              && (c.complete ==> d.complete)
              && |c.samples| <= |d.samples|
              && forall i | 0 <= i < |c.samples| && c.samples[i].Some? :: d.samples[i] == c.samples[i]
    decreases |frames|
  {
    if frames != [] {
      var e := Effect(frames[0], id);
      if e.NewChunk? {
        FillKeepsSamples(c.samples, e.d.firstSampleIndex, e.d.values);
      }
      FilledSamplesStay(Applied(c, e), frames[1..], id);
      assert forall k | 1 <= k < |frames| :: frames[1..][k - 1] == frames[k];
    }
  }
}
