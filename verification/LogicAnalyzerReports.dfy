/** What the Logic Analyzer view reports besides the samples: errors, the captures it lists and the latest one. */
module LogicAnalyzerReports {
  import opened Bytes
  import opened Wrappers
  import opened LogicAnalyzer
  import opened LogicAnalyzerTheorems

  // -------------------------------------------------------------------------- errors

  function Count(errors: seq<CaptureError>, e: CaptureError): nat {
    if errors == [] then 0 else (if errors[0] == e then 1 else 0) + Count(errors[1..], e)
  }

  lemma {:induction false} CountAppend(a: seq<CaptureError>, b: seq<CaptureError>, e: CaptureError)
    ensures Count(a + b, e) == Count(a, e) + Count(b, e)
    decreases |a|
  {
    if a == [] {
      assert a + b == b;
    } else {
      assert (a + b)[1..] == a[1..] + b;
      CountAppend(a[1..], b, e);
    }
  }

  lemma {:induction false} CountOverlaps(n: nat, e: CaptureError)
    ensures Count(Overlaps(n), e) == if e.Overlap? then n else 0
  {
    if n != 0 {
      assert Overlaps(n)[1..] == Overlaps(n - 1);
      CountOverlaps(n - 1, e);
    }
  }

  /** What a chunk adds to the errors of its capture. */
  lemma ChunkAddsErrors(c: Capture, d: SampleData)
    ensures var now := WithChunk(c, d).errors;
            && Count(now, MissingHeader) == Count(c.errors, MissingHeader) + (if c.header.None? then 1 else 0)
            && Count(now, Overlap) == Count(c.errors, Overlap) +
               if HasChunk(c.chunks, d.chunkIndex) then 1 else FilledIn(c.samples, d.firstSampleIndex, |d.values|)
  {
    var n := Noted(c).errors;
    var more := Overlaps(if HasChunk(c.chunks, d.chunkIndex) then 1
                         else FilledIn(c.samples, d.firstSampleIndex, |d.values|));
    FillIsPointwise(c.samples, d.firstSampleIndex, d.values);
    assert Overlaps(1) == [Overlap];
    assert WithChunk(c, d).errors == n + more;
    forall e: CaptureError
      ensures Count(n + more, e) == Count(c.errors, e) + Count(if c.header.None? then [MissingHeader] else [], e)
                                    + if e.Overlap? then |more| else 0
    {
      CountAppend(n, more, e);
      CountOverlaps(|more|, e);
      CountAppend(c.errors, [MissingHeader], e);
    }
    assert Count([MissingHeader], Overlap) == 0 && Count([MissingHeader], MissingHeader) == 1;
  }

  function OverlapsInAll(captures: seq<Entry>): nat {
    if captures == [] then 0 else Count(captures[0].capture.errors, Overlap) + OverlapsInAll(captures[1..])
  }

  lemma {:induction false} PutChangesOverlaps(captures: seq<Entry>, id: u32, c: Capture)
    ensures OverlapsInAll(Put(captures, id, c)) ==
            OverlapsInAll(captures) - Count(CaptureIn(captures, id).errors, Overlap) + Count(c.errors, Overlap)
    decreases |captures|
  {
    if captures == [] {
      assert Put(captures, id, c)[1..] == [];
    } else if captures[0].id == id {
      assert Put(captures, id, c)[1..] == captures[1..];
    } else {
      PutChangesOverlaps(captures[1..], id, c);
      assert Put(captures, id, c)[1..] == Put(captures[1..], id, c);
    }
  }

  ghost predicate DropsAreListed(a: Analyzer) {
    a.droppedFrames == OverlapsInAll(a.captures)
  }

  lemma StepListsDrops(a: Analyzer, f: Frame)
    requires DropsAreListed(a)
    ensures DropsAreListed(After(a, f))
  {
    match f
    case HeaderFrame(payload) =>
      if ParseHeader(payload).Ok? {
        var h := ParseHeader(payload).value;
        PutChangesOverlaps(a.captures, h.captureId, WithHeader(CaptureIn(a.captures, h.captureId), h));
      }
    case SampleFrame(payload) =>
      if ParseSampleData(payload).Ok? {
        var d := ParseSampleData(payload).value;
        var c := CaptureIn(a.captures, d.captureId);
        PutChangesOverlaps(a.captures, d.captureId, WithChunk(c, d));
        ChunkAddsErrors(c, d);
        FillIsPointwise(c.samples, d.firstSampleIndex, d.values);
      }
  }

  lemma {:induction false} RunListsDrops(a: Analyzer, frames: seq<Frame>)
    requires DropsAreListed(a)
    ensures DropsAreListed(AfterAll(a, frames))
    decreases |frames|
  {
    if frames != [] {
      StepListsDrops(a, frames[0]);
      RunListsDrops(After(a, frames[0]), frames[1..]);
    }
  }

  /** For every sequence of frames the counter of drops is the number of overlaps listed in all captures. */
  lemma EveryDropIsListed(frames: seq<Frame>)
    ensures DropsAreListed(AfterAll(INITIAL, frames))
  {
    RunListsDrops(INITIAL, frames);
  }

  /** The chunks of a capture that come before any header of it. */
  function HeaderlessIn(frames: seq<Frame>, id: u32): nat {
    if frames == [] then 0
    else match Effect(frames[0], id)
         case NewHeader(_) => 0
         case NewChunk(_) => 1 + HeaderlessIn(frames[1..], id)
         case Nothing => HeaderlessIn(frames[1..], id)
  }

  /** A capture lists one missing header for each chunk that came before its first header. */
  lemma {:induction false} MissingHeadersAreListed(c: Capture, frames: seq<Frame>, id: u32)
    ensures Count(AllApplied(c, frames, id).errors, MissingHeader) ==
            Count(c.errors, MissingHeader) + if c.header.Some? then 0 else HeaderlessIn(frames, id)
    decreases |frames|
  {
    if frames != [] {
      var e := Effect(frames[0], id);
      if e.NewChunk? {
        ChunkAddsErrors(c, e.d);
      }
      MissingHeadersAreListed(Applied(c, e), frames[1..], id);
    }
  }

  // ------------------------------------------------------------------ captures in order

  function Ids(captures: seq<Entry>): (ids: seq<u32>)
    ensures |ids| == |captures|
  {
    if captures == [] then [] else [captures[0].id] + Ids(captures[1..])
  }

  lemma {:induction false} PutIds(captures: seq<Entry>, id: u32, c: Capture)
    ensures Ids(Put(captures, id, c)) == if id in Ids(captures) then Ids(captures) else Ids(captures) + [id]
    decreases |captures|
  {
    if captures == [] {
      assert Put(captures, id, c)[1..] == [];
    } else if captures[0].id == id {
      assert Put(captures, id, c)[1..] == captures[1..];
    } else {
      PutIds(captures[1..], id, c);
      assert Put(captures, id, c)[1..] == Put(captures[1..], id, c);
    }
  }

  /** The capture a frame belongs to: its first four bytes. */
  function IdOf(f: Frame): u32
    requires !IsMalformed(f)
  {
    ReadU32(f.payload, 0)
  }

  /** The captures met, each once, in the order of their first frame. */
  function MetIn(met: seq<u32>, frames: seq<Frame>): seq<u32>
    decreases |frames|
  {
    if frames == [] then met
    else if IsMalformed(frames[0]) || IdOf(frames[0]) in met then MetIn(met, frames[1..])
    else MetIn(met + [IdOf(frames[0])], frames[1..])
  }

  lemma {:induction false} CapturesAreInOrder(a: Analyzer, frames: seq<Frame>)
    ensures Ids(AfterAll(a, frames).captures) == MetIn(Ids(a.captures), frames)
    decreases |frames|
  {
    if frames != [] {
      var b := After(a, frames[0]);
      if !IsMalformed(frames[0]) {
        PutIds(a.captures, IdOf(frames[0]), CaptureIn(b.captures, IdOf(frames[0])));
        StepPuts(a, frames[0]);
      }
      CapturesAreInOrder(b, frames[1..]);
    }
  }

  lemma StepPuts(a: Analyzer, f: Frame)
    requires !IsMalformed(f)
    ensures var b := After(a, f);
            b.captures == Put(a.captures, IdOf(f), CaptureIn(b.captures, IdOf(f)))
  {
    match f
    case HeaderFrame(payload) =>
      var h := ParseHeader(payload).value;
      PutThenFind(a.captures, h.captureId, WithHeader(CaptureIn(a.captures, h.captureId), h), h.captureId);
    case SampleFrame(payload) =>
      var d := ParseSampleData(payload).value;
      PutThenFind(a.captures, d.captureId, WithChunk(CaptureIn(a.captures, d.captureId), d), d.captureId);
  }

  /** The capture of the last frame that was a header or a new chunk, if there was one. */
  function LatestIn(a: Analyzer, frames: seq<Frame>): Option<u32>
    decreases |frames|
  {
    if frames == [] then None
    else
      var later := LatestIn(After(a, frames[0]), frames[1..]);
      if later.Some? || IsMalformed(frames[0]) || IsDuplicate(a, frames[0]) then later else Some(IdOf(frames[0]))
  }

  lemma {:induction false} LatestIsShown(a: Analyzer, frames: seq<Frame>)
    ensures AfterAll(a, frames).latestCaptureId ==
            if LatestIn(a, frames).Some? then LatestIn(a, frames) else a.latestCaptureId
    decreases |frames|
  {
    if frames != [] {
      LatestIsShown(After(a, frames[0]), frames[1..]);
    }
  }
}
