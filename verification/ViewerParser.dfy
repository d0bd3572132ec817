/** The viewer's frame parser. Unlike the board validator's decoder it gives up a whole candidate when its
    checksum is wrong, and it does not look at version and type before the checksum. */
module ViewerParser {
  import opened Bytes
  import opened DebugProtocol
  import opened StreamScan
  import UartDecoder
  import D = UartDecoderTheorems

  datatype Event =
    | Dropped(value: byte)
    | Mismatched(raw: seq<byte>)
    | Decoded(version: byte, kind: byte, payload: seq<byte>, checksum: byte)

  function Next(b: seq<byte>): Verdict<Event> {
    if |b| < 5 then Wait
    else if b[0] != SOF then Take(1, Dropped(b[0]))
    else if b[3] > MAX_PAYLOAD then Take(1, Dropped(SOF))
    else
      var total := b[3] as int + 5;
      if |b| < total then Wait
      else if XorFold(0, b[1..total - 1]) != b[total - 1] then Take(total, Mismatched(b[..total]))
      else Take(total, Decoded(b[1], b[2], b[4..total - 1], b[total - 1]))
  }

  function Spelling(e: Event): seq<byte> {
    match e
    case Dropped(value) => [value]
    case Mismatched(raw) => raw
    case Decoded(version, kind, payload, checksum) =>
      if |payload| < 256 then [SOF, version, kind, |payload|] + payload + [checksum] else []
  }

  /** The viewer's TYPES table. */
  predicate IsListed(kind: byte) {
    || 0x01 <= kind <= 0x05
    || 0x10 <= kind <= 0x14
    || 0x20 <= kind <= 0x29
    || 0x30 <= kind <= 0x36
    || 0x40 <= kind <= 0x46
  }

  /** The counters and the frames passed on to the decoders. */
  datatype Tally = Tally(
    frames: nat, unknownFrames: nat, checksumErrors: nat, syncDrops: nat, passedOn: seq<(byte, seq<byte>)>)

  function Count(t: Tally, e: Event): Tally {
    match e
    case Dropped(_) => t.(syncDrops := t.syncDrops + 1)
    case Mismatched(_) => t.(checksumErrors := t.checksumErrors + 1)
    case Decoded(version, kind, payload, _) =>
      if version != VERSION || !IsListed(kind) then t.(frames := t.frames + 1, unknownFrames := t.unknownFrames + 1)
      else t.(frames := t.frames + 1, passedOn := t.passedOn + [(kind, payload)])
  }

  function CountAll(t: Tally, events: seq<Event>): Tally
    decreases |events|
  {
    if events == [] then t else CountAll(Count(t, events[0]), events[1..])
  }

  datatype State = State(tally: Tally, rx: seq<byte>)

  function Settle(s: State): State {
    var scan := Scan(Next, s.rx);
    State(CountAll(s.tally, scan.events), scan.rest)
  }

  /** The parser after a chunk, and after several. */
  function AfterChunk(s: State, chunk: seq<byte>): State {
    Settle(s.(rx := s.rx + chunk))
  }

  function AfterAll(s: State, chunks: seq<seq<byte>>): State
    decreases |chunks|
  {
    if chunks == [] then s else AfterAll(AfterChunk(s, chunks[0]), chunks[1..])
  }

  /** One event was handled as `Next` says. */
  ghost predicate IsStep(s: State, t: State) {
    && Next(s.rx).Take? && 0 < Next(s.rx).n <= |s.rx|
    && t == State(Count(s.tally, Next(s.rx).event), s.rx[Next(s.rx).n..])
  }

  lemma Stepped(s: State, t: State)
    requires IsStep(s, t)
    ensures Settle(t) == Settle(s)
  {
  }

  class FrameParser {
    var rx: seq<byte>
    var frames: nat
    var unknownFrames: nat
    var checksumErrors: nat
    var syncDrops: nat
    var passedOn: seq<(byte, seq<byte>)>

    function Current(): State
      reads this
    {
      State(Tally(frames, unknownFrames, checksumErrors, syncDrops, passedOn), rx)
    }

    constructor ()
      ensures Current() == State(Tally(0, 0, 0, 0, []), [])
    {
      rx, passedOn := [], [];
      frames, unknownFrames, checksumErrors, syncDrops := 0, 0, 0, 0;
    }

    /** `appendRxBytes` followed by `parseAvailableFrames`. */
    method Receive(bytes: seq<byte>)
      modifies this
      ensures Current() == AfterChunk(old(Current()), bytes)
    {
      rx := rx + bytes;
      ParseAvailableFrames();
    }

    method ParseAvailableFrames()
      modifies this
      ensures Current() == Settle(old(Current()))
    {
      while 5 <= |rx|
        invariant Settle(Current()) == Settle(old(Current()))
        decreases |rx|
      {
        ghost var s := Current();
        var waiting := HandleHead();
        if waiting {
          return;
        }
        Stepped(s, Current());
      }
    }

    /** One turn of the loop. */
    method HandleHead() returns (waiting: bool)
      requires 5 <= |rx|
      modifies this
      ensures if waiting then Current() == old(Current()) && Next(rx).Wait? else IsStep(old(Current()), Current())
    {
      var len := rx[3] as int;
      if rx[0] != SOF || len > MAX_PAYLOAD {
        rx := rx[1..];
        syncDrops := syncDrops + 1;
        return false;
      }
      var total := 5 + len;
      if |rx| < total {
        return true;
      }
      var raw := rx[..total];
      SliceOfPrefix(rx, total, 1, total - 1);
      SliceOfPrefix(rx, total, 4, total - 1);
      rx := rx[total..];
      var actual := Checksum(raw[1..total - 1]);
      if actual != raw[total - 1] {
        checksumErrors := checksumErrors + 1;
      } else {
        DecodeFrame(raw[1], raw[2], raw[4..total - 1], raw[total - 1]);
      }
      return false;
    }

    /** `decodeFrame`, up to the dispatch over the type. */
    method DecodeFrame(version: byte, kind: byte, payload: seq<byte>, ghost checksum: byte)
      modifies `frames, `unknownFrames, `passedOn
      ensures Current() == State(Count(old(Current()).tally, Decoded(version, kind, payload, checksum)), rx)
    {
      frames := frames + 1;
      if version != VERSION || !IsListed(kind) {
        unknownFrames := unknownFrames + 1;
        return;
      }
      passedOn := passedOn + [(kind, payload)];
    }
  }

  // ----------------------------------------------------------------------- theorems

  lemma NextIsStable()
    ensures Stable(Next)
  {
    forall b, x
      ensures StableAt(Next, b, x)
    {
      if 5 <= |b| && b[0] == SOF && b[3] as int + 5 <= |b| {
        var total := b[3] as int + 5;
        assert (b + x)[..total] == b[..total];
        assert (b + x)[1..total - 1] == b[1..total - 1];
        assert (b + x)[4..total - 1] == b[4..total - 1];
      }
    }
  }

  lemma EventsSpellTheirBytes()
    ensures forall b :: SpelledBy(Next, Spelling, b)
  {
  }

  /** For every chunking the events are those of one scan of the whole stream, and re-encoding them gives
      back every byte that is not still buffered. */
  lemma ChunksAreScanned(rx: seq<byte>, chunks: seq<seq<byte>>)
    requires Scan(Next, rx) == Scanned([], rx)
    ensures Feed(Next, rx, chunks) == Scan(Next, rx + Flatten(chunks))
    ensures EncodeAll(Spelling, Feed(Next, rx, chunks).events) + Feed(Next, rx, chunks).rest == rx + Flatten(chunks)
  {
    NextIsStable();
    EventsSpellTheirBytes();
    ChunkingIsIrrelevant(Next, rx, chunks);
    EventsAccountForInput(Next, Spelling, rx + Flatten(chunks));
  }

  function AsEvent(m: (byte, seq<byte>)): Event
    requires |m.1| <= MAX_PAYLOAD
  {
    Decoded(VERSION, m.0, m.1, XorFold(0, Body(m.0, m.1)))
  }

  predicate AllSized(messages: seq<(byte, seq<byte>)>) {
    forall k | 0 <= k < |messages| :: |messages[k].1| <= MAX_PAYLOAD
  }

  function AsEvents(messages: seq<(byte, seq<byte>)>): (events: seq<Event>)
    requires AllSized(messages)
    ensures |events| == |messages|
    ensures forall k | 0 <= k < |messages| :: events[k] == AsEvent(messages[k])
  {
    seq(|messages|, k requires 0 <= k < |messages| => AsEvent(messages[k]))
  }

  lemma FramesAreRecognised(m: (byte, seq<byte>))
    requires |m.1| <= MAX_PAYLOAD
    ensures Encodes(Next, Spelling, AsEvent(m))
    ensures Spelling(AsEvent(m)) == Frame(m.0, m.1)
  {
    var f := Frame(m.0, m.1);
    FrameParts(m.0, m.1);
    assert Spelling(AsEvent(m)) == f;
    forall k: nat
      ensures WaitsAt(Next, f, k)
    {
    }
  }

  /** A stream of frames, in any chunks, is decoded to exactly these frames. */
  lemma CleanStreamIsDecoded(messages: seq<(byte, seq<byte>)>, chunks: seq<seq<byte>>)
    requires AllSized(messages)
    requires Flatten(chunks) == EncodeAll(Spelling, AsEvents(messages))
    ensures Feed(Next, [], chunks) == Scanned(AsEvents(messages), [])
  {
    forall e | e in AsEvents(messages)
      ensures Encodes(Next, Spelling, e)
    {
      var k :| 0 <= k < |messages| && e == AsEvents(messages)[k];
      FramesAreRecognised(messages[k]);
    }
    NextIsStable();
    CompleteChunks(Next, Spelling, AsEvents(messages), chunks);
  }

  function Stream(messages: seq<(byte, seq<byte>)>): seq<byte>
    requires AllSized(messages)
  {
    EncodeAll(Spelling, AsEvents(messages))
  }

  lemma StreamIsScanned(messages: seq<(byte, seq<byte>)>)
    requires AllSized(messages)
    ensures Scan(Next, Stream(messages)) == Scanned(AsEvents(messages), [])
  {
    assert Flatten([Stream(messages)]) == Stream(messages);
    CleanStreamIsDecoded(messages, [Stream(messages)]);
    NextIsStable();
    ChunkingIsIrrelevant(Next, [], [Stream(messages)]);
    assert [] + Stream(messages) == Stream(messages);
  }

  // ----------------------------------------------------------------------- counters

  lemma {:induction false} CountAllAppend(t: Tally, a: seq<Event>, b: seq<Event>)
    ensures CountAll(t, a + b) == CountAll(CountAll(t, a), b)
    decreases |a|
  {
    if a == [] {
      assert a + b == b;
    } else {
      assert (a + b)[1..] == a[1..] + b;
      CountAllAppend(Count(t, a[0]), a[1..], b);
    }
  }

  /** However the bytes are cut, counters, frames passed on and leftover are those of one scan. */
  lemma {:induction false} ChunksAreSettled(s: State, chunks: seq<seq<byte>>)
    ensures var scan := Feed(Next, s.rx, chunks);
            AfterAll(s, chunks) == State(CountAll(s.tally, scan.events), scan.rest)
    decreases |chunks|
  {
    if chunks != [] {
      var t := AfterChunk(s, chunks[0]);
      ChunksAreSettled(t, chunks[1..]);
      CountAllAppend(s.tally, Scan(Next, s.rx + chunks[0]).events, Feed(Next, t.rx, chunks[1..]).events);
    }
  }

  /** The messages whose type is in the viewer's table. */
  function Listed(messages: seq<(byte, seq<byte>)>): seq<(byte, seq<byte>)> {
    if messages == [] then []
    else (if IsListed(messages[0].0) then [messages[0]] else []) + Listed(messages[1..])
  }

  function Unlisted(messages: seq<(byte, seq<byte>)>): nat {
    if messages == [] then 0 else (if IsListed(messages[0].0) then 0 else 1) + Unlisted(messages[1..])
  }

  lemma KnownTypesAreListed(kind: byte)
    ensures IsKnown(kind) ==> IsListed(kind)
  {
  }

  lemma {:induction false} FramesAreCounted(t: Tally, messages: seq<(byte, seq<byte>)>)
    requires AllSized(messages)
    ensures CountAll(t, AsEvents(messages)) ==
            t.(frames := t.frames + |messages|, unknownFrames := t.unknownFrames + Unlisted(messages),
               passedOn := t.passedOn + Listed(messages))
    decreases |messages|
  {
    if messages == [] {
      assert t.passedOn + [] == t.passedOn;
    } else {
      var m := messages[0];
      assert AsEvents(messages)[1..] == AsEvents(messages[1..]);
      FramesAreCounted(Count(t, AsEvent(m)), messages[1..]);
      Associate(t.passedOn, if IsListed(m.0) then [m] else [], Listed(messages[1..]));
      assert t.passedOn + [] == t.passedOn;
    }
  }

  /** A stream of frames, in any chunks: exactly the frames with a listed type are handed on, in the order of the
      stream; all are counted, the others as unknown; no error counter moves and nothing stays buffered. */
  lemma FramesArePassedOn(s: State, messages: seq<(byte, seq<byte>)>, chunks: seq<seq<byte>>)
    requires s.rx == [] && AllSized(messages)
    requires Flatten(chunks) == Stream(messages)
    ensures AfterAll(s, chunks) ==
            State(s.tally.(frames := s.tally.frames + |messages|,
                           unknownFrames := s.tally.unknownFrames + Unlisted(messages),
                           passedOn := s.tally.passedOn + Listed(messages)), [])
  {
    assert Feed(Next, s.rx, chunks) == Scanned(AsEvents(messages), []) by {
      CleanStreamIsDecoded(messages, chunks);
    }
    ChunksAreSettled(s, chunks);
    FramesAreCounted(s.tally, messages);
  }

  /** The bytes of the candidates given up and of the frames decoded. */
  function Sizes(events: seq<Event>): nat {
    if events == [] then 0
    else
      (match events[0]
       case Dropped(_) => 0
       case Mismatched(raw) => |raw|
       case Decoded(_, _, payload, _) => |payload| + 5)
      + Sizes(events[1..])
  }

  function MismatchesIn(events: seq<Event>): nat {
    if events == [] then 0 else (if events[0].Mismatched? then 1 else 0) + MismatchesIn(events[1..])
  }

  function FramesIn(events: seq<Event>): nat {
    if events == [] then 0 else (if events[0].Decoded? then 1 else 0) + FramesIn(events[1..])
  }

  predicate Balanced(t: Tally) {
    t.frames == |t.passedOn| + t.unknownFrames
  }

  predicate IsSized(e: Event) {
    e.Decoded? ==> |e.payload| <= MAX_PAYLOAD
  }

  lemma {:induction false} ScannedAreSized(b: seq<byte>)
    ensures forall e | e in Scan(Next, b).events :: IsSized(e)
    ensures |Scan(Next, b).rest| <= 36
    decreases |b|
  {
    if Next(b).Take? {
      ScannedAreSized(b[Next(b).n..]);
    }
  }

  lemma {:induction false} CountersFollowEvents(t: Tally, events: seq<Event>)
    requires forall e | e in events :: IsSized(e)
    ensures var u := CountAll(t, events);
            && |EncodeAll(Spelling, events)| == u.syncDrops - t.syncDrops + Sizes(events)
            && u.checksumErrors == t.checksumErrors + MismatchesIn(events)
            && u.frames == t.frames + FramesIn(events)
            && (Balanced(t) ==> Balanced(u))
    decreases |events|
  {
    if events != [] {
      assert IsSized(events[0]);
      CountersFollowEvents(Count(t, events[0]), events[1..]);
    }
  }

  /** On any bytes, in any chunks: every byte is still buffered, was dropped and counted, or belongs to a candidate
      given up or a frame decoded; these are counted too, and every frame decoded was handed on or is unknown. */
  lemma EveryByteIsAccountedFor(s: State, chunks: seq<seq<byte>>)
    requires Scan(Next, s.rx) == Scanned([], s.rx)
    ensures var events := Feed(Next, s.rx, chunks).events;
            var t := AfterAll(s, chunks);
            && |s.rx| + |Flatten(chunks)| == |t.rx| + (t.tally.syncDrops - s.tally.syncDrops) + Sizes(events)
            && t.tally.checksumErrors == s.tally.checksumErrors + MismatchesIn(events)
            && t.tally.frames == s.tally.frames + FramesIn(events)
            && (Balanced(s.tally) ==> Balanced(t.tally))
            && |t.rx| <= 36
  {
    ChunksAreScanned(s.rx, chunks);
    ChunksAreSettled(s, chunks);
    ScannedAreSized(s.rx + Flatten(chunks));
    CountersFollowEvents(s.tally, Feed(Next, s.rx, chunks).events);
  }

  // ------------------------------------------------------------------------ garbage

  /** Foreign bytes in front of a stream cost exactly themselves if and only if the candidates taken from their
      head end where the stream begins. A candidate that reaches beyond swallows the beginning of the stream. */
  lemma GarbageCostsOnlyItselfIff(garbage: seq<byte>, stream: seq<byte>)
    ensures EndsAt(Next, garbage + stream, |garbage|) <==>
            exists k: nat :: CostsOnlyItself(Next, Spelling, garbage, stream, k)
  {
    NextIsStable();
    EventsSpellTheirBytes();
    CostsOnlyItselfIff(Next, Spelling, garbage, stream);
  }

  /** In that case every later frame is decoded, after the events that spell the foreign bytes. */
  lemma FramesAfterGarbageAreDecoded(garbage: seq<byte>, messages: seq<(byte, seq<byte>)>) returns (skipped: seq<Event>)
    requires AllSized(messages)
    requires EndsAt(Next, garbage + Stream(messages), |garbage|)
    ensures EncodeAll(Spelling, skipped) == garbage
    ensures Scan(Next, garbage + Stream(messages)) == Scanned(skipped + AsEvents(messages), [])
  {
    NextIsStable();
    EventsSpellTheirBytes();
    StreamIsScanned(messages);
    var k := EndsThenCosts(Next, Spelling, garbage, Stream(messages));
    var events := Scan(Next, garbage + Stream(messages)).events;
    skipped := events[..k];
    assert events == skipped + events[k..];
  }

  /** A frame with one damaged payload byte is given up whole. */
  lemma DamagedFrameIsGivenUp(kind: byte, payload: seq<byte>, i: nat, x: byte, more: seq<byte>)
    requires i < |payload| <= MAX_PAYLOAD && x != payload[i]
    ensures var f := Frame(kind, payload)[4 + i := x];
            Next(f + more) == Take(|f|, Mismatched(f))
  {
    var check := DamagedFrame(kind, payload, i, x);
    WrongChecksumIsGivenUp(kind, payload[i := x], check);
    NextIsStable();
    assert StableAt(Next, FrameWith(kind, payload[i := x], check), more);
  }

  lemma WrongChecksumIsGivenUp(kind: byte, payload: seq<byte>, check: byte)
    requires |payload| <= MAX_PAYLOAD && check != XorFold(0, Body(kind, payload))
    ensures var f := FrameWith(kind, payload, check);
            Next(f) == Take(|f|, Mismatched(f))
  {
    FrameWithParts(kind, payload, check);
  }

  /** A candidate with the bytes `inner` as payload and `check` as checksum. */
  function Candidate(version: byte, kind: byte, inner: seq<byte>, check: byte): seq<byte>
    requires |inner| <= MAX_PAYLOAD
  {
    [SOF, version, kind, |inner|] + inner + [check]
  }

  lemma DamagedCandidateIsOneEvent(version: byte, kind: byte, inner: seq<byte>, wrong: byte, more: seq<byte>)
    requires |inner| <= MAX_PAYLOAD
    requires wrong != XorFold(0, [version, kind, |inner|] + inner)
    ensures var b := Candidate(version, kind, inner, wrong);
            Scan(Next, b + more) == Scanned([Mismatched(b)] + Scan(Next, more).events, Scan(Next, more).rest)
  {
    var b := Candidate(version, kind, inner, wrong);
    DamagedCandidateIsTaken(version, kind, inner, wrong);
    NextIsStable();
    assert StableAt(Next, b, more);
    assert (b + more)[|b|..] == more;
  }

  lemma DamagedCandidateIsTaken(version: byte, kind: byte, inner: seq<byte>, wrong: byte)
    requires |inner| <= MAX_PAYLOAD
    requires wrong != XorFold(0, [version, kind, |inner|] + inner)
    ensures var b := Candidate(version, kind, inner, wrong);
            Next(b) == Take(|b|, Mismatched(b))
  {
    var b := Candidate(version, kind, inner, wrong);
    assert b[1..|b| - 1] == [version, kind, |inner|] + inner;
    assert b[..|b|] == b;
  }

  /** The price of giving up whole candidates: a valid frame that lies anywhere inside a damaged candidate is
      not decoded. It appears among the events only if it is sent again afterwards. */
  lemma FrameInsideDamagedCandidateIsLost(
    version: byte, kind: byte, before: seq<byte>, lost: (byte, seq<byte>), after: seq<byte>, wrong: byte,
    messages: seq<(byte, seq<byte>)>)
    requires |before| + |lost.1| + 5 + |after| <= MAX_PAYLOAD && AllSized(messages)
    requires var inner := before + Frame(lost.0, lost.1) + after;
             wrong != XorFold(0, [version, kind, |inner|] + inner)
    ensures var b := Candidate(version, kind, before + Frame(lost.0, lost.1) + after, wrong);
            var scan := Scan(Next, b + Stream(messages));
            && scan == Scanned([Mismatched(b)] + AsEvents(messages), [])
            && (AsEvent(lost) in scan.events <==> lost in messages)
  {
    DamagedCandidateIsOneEvent(version, kind, before + Frame(lost.0, lost.1) + after, wrong, Stream(messages));
    StreamIsScanned(messages);
    assert AsEvent(lost) in AsEvents(messages) <==> lost in messages by {
      if lost in messages {
        var k :| 0 <= k < |messages| && messages[k] == lost;
        assert AsEvents(messages)[k] == AsEvent(lost);
      }
    }
  }

  lemma NoFrameAtDamagedCandidate(kind: byte, inner: seq<byte>, wrong: byte, more: seq<byte>)
    requires |inner| <= MAX_PAYLOAD && wrong != XorFold(0, Body(kind, inner))
    ensures D.NoFrameAt(Candidate(VERSION, kind, inner, wrong) + more)
  {
    var b := Candidate(VERSION, kind, inner, wrong);
    assert b[1..|b| - 1] == Body(kind, inner);
    assert D.NoFrameAt(b);
    D.NextIsStable();
    assert StableAt(UartDecoder.Next, b, more);
  }

  lemma DamagedHeaderIsSteppedOver(kind: byte, inner: seq<byte>, wrong: byte, more: seq<byte>)
    requires 5 <= |inner| <= MAX_PAYLOAD && kind != SOF
    requires wrong != XorFold(0, Body(kind, inner))
    ensures D.NoFrameIn([SOF, VERSION, kind, |inner|], inner + [wrong] + more)
  {
    var header: seq<byte> := [SOF, VERSION, kind, |inner|];
    var rest := inner + [wrong] + more;
    NoFrameAtDamagedCandidate(kind, inner, wrong, more);
    assert header[0..] + rest == Candidate(VERSION, kind, inner, wrong) + more;
    assert D.NoFrameAt(header[1..] + rest);
    assert D.NoFrameAt(header[2..] + rest);
    assert D.NoFrameAt(header[3..] + rest);
  }

  /** The board validator's decoder, on the same bytes, steps over the damaged header and receives the frame. */
  lemma TheOtherDecoderReceivesIt(
    kind: byte, lost: (byte, seq<byte>), after: seq<byte>, wrong: byte, more: seq<byte>)
    requires |lost.1| + 5 + |after| <= MAX_PAYLOAD && IsKnown(lost.0) && kind != SOF
    requires wrong != XorFold(0, Body(kind, Frame(lost.0, lost.1) + after))
    ensures var b := Candidate(VERSION, kind, Frame(lost.0, lost.1) + after, wrong);
            UartDecoder.Received(lost.0, lost.1) in Scan(UartDecoder.Next, b + more).events
  {
    var inner := Frame(lost.0, lost.1) + after;
    var tail := after + [wrong] + more;
    DamagedHeaderIsSteppedOver(kind, inner, wrong, more);
    HeaderThenFrame(kind, Frame(lost.0, lost.1), after, wrong, more);
    FrameAfterSkipped([SOF, VERSION, kind, |inner|], lost, tail);
  }

  lemma HeaderThenFrame(kind: byte, frame: seq<byte>, after: seq<byte>, wrong: byte, more: seq<byte>)
    requires |frame| + |after| <= MAX_PAYLOAD
    ensures frame + after + [wrong] + more == frame + (after + [wrong] + more)
    ensures [SOF, VERSION, kind, |frame + after|] + (frame + (after + [wrong] + more)) ==
            Candidate(VERSION, kind, frame + after, wrong) + more
  {
  }

  lemma FrameAfterSkipped(garbage: seq<byte>, m: (byte, seq<byte>), tail: seq<byte>)
    requires IsKnown(m.0) && |m.1| <= MAX_PAYLOAD
    requires D.NoFrameIn(garbage, Frame(m.0, m.1) + tail)
    ensures UartDecoder.Received(m.0, m.1) in Scan(UartDecoder.Next, garbage + (Frame(m.0, m.1) + tail)).events
  {
    ReceivedFirst(m, tail);
    var skipped := D.SkippedThenScanned(garbage, Frame(m.0, m.1) + tail);
  }

  lemma ReceivedFirst(m: (byte, seq<byte>), tail: seq<byte>)
    requires IsKnown(m.0) && |m.1| <= MAX_PAYLOAD
    ensures var events := Scan(UartDecoder.Next, Frame(m.0, m.1) + tail).events;
            events != [] && events[0] == UartDecoder.Received(m.0, m.1)
  {
    var e := UartDecoder.Received(m.0, m.1);
    D.NextIsStable();
    D.FramesAreRecognised(e);
    ScanHead(UartDecoder.Next, UartDecoder.Spelling, e, tail);
  }
}
