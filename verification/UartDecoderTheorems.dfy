/** What the board validator's decoder guarantees on every byte stream. */
module UartDecoderTheorems {
  import opened Bytes
  import opened DebugProtocol
  import opened StreamScan
  import opened UartDecoder

  lemma NextIsStable()
    ensures Stable(Next)
  {
    forall b, x
      ensures StableAt(Next, b, x)
    {
      NextIsStableAt(b, x);
    }
  }

  lemma NextIsStableAt(b: seq<byte>, x: seq<byte>)
    ensures StableAt(Next, b, x)
  {
    if 5 <= |b| && b[3] as int + 5 <= |b| {
      SameBeginning(b, x, b[3] as int + 5);
    }
  }

  lemma SameBeginning(b: seq<byte>, x: seq<byte>, total: nat)
    requires 5 <= total <= |b|
    ensures (b + x)[..total] == b[..total]
    ensures (b + x)[1..total - 1] == b[1..total - 1]
    ensures (b + x)[4..total - 1] == b[4..total - 1]
  {
  }

  lemma EventsSpellTheirBytes()
    ensures forall b :: SpelledBy(Next, Spelling, b)
  {
    forall b
      ensures SpelledBy(Next, Spelling, b)
    {
      if Next(b).Take? && Next(b).event.Received? {
        var raw := b[..Next(b).n];
        assert raw[1..|raw| - 1] == b[1..|raw| - 1];
        assert raw[4..|raw| - 1] == b[4..|raw| - 1];
        FrameFromParts(raw);
      }
    }
  }

  /** A frame the decoder is meant to receive. */
  predicate Deliverable(e: Event) {
    e.Received? && IsKnown(e.kind) && |e.payload| <= MAX_PAYLOAD
  }

  lemma FramesAreRecognised(e: Event)
    requires Deliverable(e)
    ensures Encodes(Next, Spelling, e)
  {
    var f := Spelling(e);
    FrameParts(e.kind, e.payload);
    forall k: nat
      ensures WaitsAt(Next, f, k)
    {
    }
  }

  /** A frame with one damaged payload byte is not received where it stands, whatever follows. */
  lemma DamagedFrameIsRejected(kind: byte, payload: seq<byte>, i: nat, x: byte, more: seq<byte>)
    requires IsKnown(kind) && i < |payload| <= MAX_PAYLOAD && x != payload[i]
    ensures var f := Frame(kind, payload)[4 + i := x];
            Next(f + more) == Take(1, Rejected(f))
  {
    var check := DamagedFrame(kind, payload, i, x);
    WrongChecksumIsRejected(kind, payload[i := x], check);
    NextIsStableAt(FrameWith(kind, payload[i := x], check), more);
  }

  lemma WrongChecksumIsRejected(kind: byte, payload: seq<byte>, check: byte)
    requires IsKnown(kind) && |payload| <= MAX_PAYLOAD && check != XorFold(0, Body(kind, payload))
    ensures var f := FrameWith(kind, payload, check);
            Next(f) == Take(1, Rejected(f))
  {
    FrameWithParts(kind, payload, check);
  }

  // ------------------------------------------------------------------ chunking

  lemma {:induction false} CountAllAppend(t: Tally, a: seq<Event>, b: seq<Event>)
    ensures CountAll(t, a + b) == CountAll(CountAll(t, a), b)
    decreases |a|
  {
    if a == [] {
      assert a + b == b;
    } else {
      assert (a + b)[1..] == a[1..] + b;
      CountAllAppend(Count(t, a[0]), a[1..], b);
    }
  }

  function AfterAll(s: State, chunks: seq<seq<byte>>): State
    decreases |chunks|
  {
    if chunks == [] then s else AfterAll(After(s, chunks[0]), chunks[1..])
  }

  /** Nothing more can be taken from the kept bytes; true initially and after every `Feed`. */
  ghost predicate Settled(s: State) {
    Settle(s) == s
  }

  lemma FeedSettles(s: State, data: seq<byte>)
    ensures Settled(INITIAL) && Settled(After(s, data))
  {
    NextIsStable();
    RestIsStuck(Next, s.buffer + data);
  }

  /** Any chunking of a stream leaves the decoder in the state one scan of the whole stream does. */
  lemma {:induction false} ChunkingDoesNotMatter(s: State, chunks: seq<seq<byte>>)
    requires Settled(s)
    ensures AfterAll(s, chunks) == After(s, Flatten(chunks))
    decreases |chunks|
  {
    if chunks == [] {
      assert s.buffer + Flatten(chunks) == s.buffer;
    } else {
      FeedSettles(s, chunks[0]);
      ChunkingDoesNotMatter(After(s, chunks[0]), chunks[1..]);
      FeedTwice(s, chunks[0], Flatten(chunks[1..]));
    }
  }

  lemma FeedTwice(s: State, a: seq<byte>, b: seq<byte>)
    ensures After(After(s, a), b) == After(s, a + b)
  {
    var first := Scan(Next, s.buffer + a);
    NextIsStable();
    ScanSplit(Next, s.buffer + a, b);
    CountAllAppend(s.tally, first.events, Scan(Next, first.rest + b).events);
    Associate(s.buffer, a, b);
  }

  // ---------------------------------------------------------------- accounting

  function FrameBytes(frames: seq<(byte, seq<byte>)>): nat {
    if frames == [] then 0 else FrameBytes(frames[..|frames| - 1]) + |frames[|frames| - 1].1| + 5
  }

  function Accounted(t: Tally): nat {
    t.syncDrops + t.checksumErrors + FrameBytes(t.frames)
  }

  lemma {:induction false} CountAllAccounts(t: Tally, events: seq<Event>)
    requires forall e | e in events :: e.Received? ==> |e.payload| < 256
    ensures Accounted(CountAll(t, events)) == Accounted(t) + |EncodeAll(Spelling, events)|
    ensures CountAll(t, events).versionErrors == t.versionErrors
    decreases |events|
  {
    if events != [] {
      var u := Count(t, events[0]);
      if events[0].Received? {
        assert u.frames[..|t.frames|] == t.frames;
      }
      CountAllAccounts(u, events[1..]);
    }
  }

  lemma {:induction false} ScannedFramesAreDeliverable(b: seq<byte>)
    ensures forall e | e in Scan(Next, b).events :: e.Received? ==> Deliverable(e)
    decreases |b|
  {
    if Next(b).Take? {
      ScannedFramesAreDeliverable(b[Next(b).n..]);
    }
  }

  lemma {:induction false} KeptBytesAreFew(b: seq<byte>)
    ensures |Scan(Next, b).rest| <= 36
    decreases |b|
  {
    if Next(b).Take? {
      KeptBytesAreFew(b[Next(b).n..]);
    }
  }

  /** After every `Feed`, each byte ever fed is still buffered, was dropped and counted once, or
      belongs to a received frame; re-encoding the events reproduces the bytes exactly. */
  lemma EveryByteIsAccountedFor(s: State, data: seq<byte>)
    ensures var scan := Scan(Next, s.buffer + data);
            EncodeAll(Spelling, scan.events) + scan.rest == s.buffer + data
    ensures Accounted(After(s, data).tally) + |After(s, data).buffer| ==
            Accounted(s.tally) + |s.buffer| + |data|
    ensures |After(s, data).buffer| <= 36
    ensures After(s, data).tally.versionErrors == s.tally.versionErrors
  {
    var input := s.buffer + data;
    NextIsStable();
    EventsSpellTheirBytes();
    EventsAccountForInput(Next, Spelling, input);
    ScannedFramesAreDeliverable(input);
    CountAllAccounts(s.tally, Scan(Next, input).events);
    KeptBytesAreFew(input);
  }

  /** The decoder is locked once it has received a frame; only then are checksum errors counted, and the
      first four damaged candidates kept. */
  predicate IsConsistent(t: Tally) {
    && (t.locked <==> t.frames != [])
    && (!t.locked ==> t.checksumErrors == 0)
    && |t.badFrames| == Min(4, t.checksumErrors)
  }

  lemma {:induction false} TallyStaysConsistent(t: Tally, events: seq<Event>)
    requires IsConsistent(t)
    ensures IsConsistent(CountAll(t, events))
    decreases |events|
  {
    if events != [] {
      TallyStaysConsistent(Count(t, events[0]), events[1..]);
    }
  }

  /** The damaged candidates among the events, from the first frame on. */
  function DamagedOnceLocked(locked: bool, events: seq<Event>): seq<seq<byte>>
    decreases |events|
  {
    if events == [] then []
    else (if locked && events[0].Rejected? then [events[0].raw] else [])
         + DamagedOnceLocked(locked || events[0].Received?, events[1..])
  }

  /** The decoder counts them all and keeps the first four. */
  lemma {:induction false} FirstDamagedAreKept(t: Tally, events: seq<Event>)
    requires IsConsistent(t)
    ensures var u, damaged := CountAll(t, events), DamagedOnceLocked(t.locked, events);
            && u.checksumErrors == t.checksumErrors + |damaged|
            && u.badFrames == t.badFrames + damaged[..Min(4 - |t.badFrames|, |damaged|)]
    decreases |events|
  {
    if events == [] {
      assert t.badFrames + [] == t.badFrames;
    } else {
      var u := Count(t, events[0]);
      FirstDamagedAreKept(u, events[1..]);
      OneEventKept(t, u, events[0], DamagedOnceLocked(u.locked, events[1..]));
    }
  }

  lemma OneEventKept(t: Tally, u: Tally, e: Event, rest: seq<seq<byte>>)
    requires IsConsistent(t) && u == Count(t, e)
    ensures var damaged := (if t.locked && e.Rejected? then [e.raw] else []) + rest;
            && u.checksumErrors + |rest| == t.checksumErrors + |damaged|
            && |u.badFrames| <= 4 && u.locked == (t.locked || e.Received?) && IsConsistent(u)
            && u.badFrames + rest[..Min(4 - |u.badFrames|, |rest|)] ==
               t.badFrames + damaged[..Min(4 - |t.badFrames|, |damaged|)]
  {
    if t.locked && e.Rejected? {
      if |t.badFrames| < 4 {
        KeepOneMore(t.badFrames, e.raw, rest);
      }
    } else {
      assert [] + rest == rest;
    }
  }

  lemma KeepOneMore(kept: seq<seq<byte>>, raw: seq<byte>, rest: seq<seq<byte>>)
    requires |kept| < 4
    ensures kept + [raw] + rest[..Min(3 - |kept|, |rest|)] ==
            kept + ([raw] + rest)[..Min(4 - |kept|, |rest| + 1)]
  {
  }

  /** In every state a decoder reaches, however it is fed. */
  lemma {:induction false} LockingIsConsistent(s: State, chunks: seq<seq<byte>>)
    requires IsConsistent(s.tally)
    ensures IsConsistent(INITIAL.tally) && IsConsistent(AfterAll(s, chunks).tally)
    decreases |chunks|
  {
    if chunks != [] {
      TallyStaysConsistent(s.tally, Scan(Next, s.buffer + chunks[0]).events);
      LockingIsConsistent(After(s, chunks[0]), chunks[1..]);
    }
  }

  // -------------------------------------------------------------- clean streams

  function AsEvent(m: (byte, seq<byte>)): Event {
    Received(m.0, m.1)
  }

  function AsEvents(messages: seq<(byte, seq<byte>)>): seq<Event> {
    seq(|messages|, i requires 0 <= i < |messages| => AsEvent(messages[i]))
  }

  function Stream(messages: seq<(byte, seq<byte>)>): seq<byte> {
    EncodeAll(Spelling, AsEvents(messages))
  }

  lemma StreamHead(messages: seq<(byte, seq<byte>)>)
    requires messages != [] && |messages[0].1| < 256
    ensures Stream(messages) == Frame(messages[0].0, messages[0].1) + Stream(messages[1..])
  {
    assert AsEvents(messages)[1..] == AsEvents(messages[1..]);
  }

  predicate AllDeliverable(messages: seq<(byte, seq<byte>)>) {
    forall m | m in messages :: IsKnown(m.0) && |m.1| <= MAX_PAYLOAD
  }

  lemma {:induction false} CountReceived(t: Tally, messages: seq<(byte, seq<byte>)>)
    ensures CountAll(t, AsEvents(messages)) ==
            t.(frames := t.frames + messages, locked := t.locked || messages != [])
    decreases |messages|
  {
    if messages == [] {
      assert t.frames + messages == t.frames;
    } else {
      var u := Count(t, AsEvent(messages[0]));
      assert AsEvents(messages)[1..] == AsEvents(messages[1..]);
      CountReceived(u, messages[1..]);
      assert u.frames + messages[1..] == t.frames + messages;
    }
  }

  lemma MessagesAreRecognised(messages: seq<(byte, seq<byte>)>, tail: seq<byte>)
    requires AllDeliverable(messages)
    ensures forall e | e in AsEvents(messages) :: Encodes(Next, Spelling, e)
    ensures Scan(Next, Stream(messages) + tail) ==
            Scanned(AsEvents(messages) + Scan(Next, tail).events, Scan(Next, tail).rest)
  {
    forall e | e in AsEvents(messages)
      ensures Encodes(Next, Spelling, e)
    {
      var i :| 0 <= i < |messages| && e == AsEvent(messages[i]);
      assert messages[i] in messages;
      FramesAreRecognised(e);
    }
    NextIsStable();
    CleanStream(Next, Spelling, AsEvents(messages), tail);
  }

  lemma CleanStreamIsScanned(messages: seq<(byte, seq<byte>)>, input: seq<byte>) returns (k: nat)
    requires AllDeliverable(messages)
    requires input <= Stream(messages)
    ensures k <= |messages|
    ensures Scan(Next, input).events == AsEvents(messages[..k])
    ensures input == Stream(messages[..k]) + Scan(Next, input).rest
    ensures if k == |messages| then Scan(Next, input).rest == []
            else Scan(Next, input).rest < Spelling(AsEvent(messages[k]))
  {
    var events := AsEvents(messages);
    NextIsStable();
    MessagesAreRecognised(messages, []);
    k := TruncatedStream(Next, Spelling, events, input);
    assert events[..k] == AsEvents(messages[..k]);
  }

  /** Feeding any beginning of a stream of frames yields exactly the frames that are complete, in
      order, and no error of any kind. */
  lemma CleanStreamIsDecoded(messages: seq<(byte, seq<byte>)>, input: seq<byte>) returns (k: nat)
    requires AllDeliverable(messages)
    requires input <= Stream(messages)
    ensures k <= |messages|
    ensures After(INITIAL, input).tally == NOTHING_YET.(frames := messages[..k], locked := 0 < k)
    ensures input == Stream(messages[..k]) + After(INITIAL, input).buffer
    ensures k < |messages| ==> After(INITIAL, input).buffer < Spelling(AsEvent(messages[k]))
    ensures k == |messages| ==> After(INITIAL, input).buffer == []
  {
    k := CleanStreamIsScanned(messages, input);
    assert INITIAL.buffer + input == input;
    CountReceived(NOTHING_YET, messages[..k]);
  }

  /** The same for a beginning that arrives in chunks. */
  lemma CleanChunksAreDecoded(messages: seq<(byte, seq<byte>)>, chunks: seq<seq<byte>>) returns (k: nat)
    requires AllDeliverable(messages)
    requires Flatten(chunks) <= Stream(messages)
    ensures var s := AfterAll(INITIAL, chunks);
            && k <= |messages|
            && s.tally == NOTHING_YET.(frames := messages[..k], locked := 0 < k)
            && Flatten(chunks) == Stream(messages[..k]) + s.buffer
            && (k < |messages| ==> s.buffer < Spelling(AsEvent(messages[k])))
            && (k == |messages| ==> s.buffer == [])
  {
    FeedSettles(INITIAL, []);
    ChunkingDoesNotMatter(INITIAL, chunks);
    k := CleanStreamIsDecoded(messages, Flatten(chunks));
  }

  // -------------------------------------------------------------------- garbage

  /** No frame can be taken at the head of `b`, however many bytes follow. */
  predicate NoFrameAt(b: seq<byte>) {
    Next(b).Take? && !Next(b).event.Received?
  }

  /** No position of `garbage` starts a frame when `stream` follows. */
  predicate NoFrameIn(garbage: seq<byte>, stream: seq<byte>) {
    forall i | 0 <= i < |garbage| :: NoFrameAt(garbage[i..] + stream)
  }

  /** The scan steps over the first `n` bytes one at a time. */
  predicate SkipsByteByByte(b: seq<byte>, n: nat) {
    n <= |Scan(Next, b).events| && forall e | e in Scan(Next, b).events[..n] :: !e.Received?
  }

  lemma NoFrameInStep(garbage: seq<byte>, stream: seq<byte>)
    requires garbage != []
    ensures NoFrameIn(garbage, stream) <==> NoFrameAt(garbage + stream) && NoFrameIn(garbage[1..], stream)
  {
    assert garbage[0..] == garbage;
    assert forall i | 0 <= i < |garbage| - 1 :: garbage[1..][i..] == garbage[i + 1..];
    if NoFrameAt(garbage + stream) && NoFrameIn(garbage[1..], stream) {
      forall i | 1 <= i < |garbage|
        ensures NoFrameAt(garbage[i..] + stream)
      {
        assert garbage[i..] == garbage[1..][i - 1..];
      }
    }
  }

  lemma SkipsStep(b: seq<byte>, n: nat)
    requires 0 < n <= |b|
    ensures SkipsByteByByte(b, n) <==> NoFrameAt(b) && SkipsByteByByte(b[1..], n - 1)
    ensures NoFrameAt(b) ==> Scan(Next, b).events[1..] == Scan(Next, b[1..]).events
                             && Scan(Next, b).rest == Scan(Next, b[1..]).rest
  {
    var events := Scan(Next, b).events;
    if Next(b).Take? {
      assert events[0] == Next(b).event;
      if !Next(b).event.Received? {
        var tail := Scan(Next, b[1..]).events;
        assert events == [events[0]] + tail;
        if n <= |events| {
          assert events[..n] == [events[0]] + tail[..n - 1];
        }
      } else if n <= |events| {
        assert events[0] in events[..n];
      }
    }
  }

  /** Foreign bytes in front of a stream cost exactly themselves if and only if no position in them
      starts a candidate that is valid or still incomplete. */
  lemma {:induction false} GarbageCostsOnlyItself(garbage: seq<byte>, stream: seq<byte>)
    ensures SkipsByteByByte(garbage + stream, |garbage|) <==> NoFrameIn(garbage, stream)
    ensures NoFrameIn(garbage, stream) ==>
              && Scan(Next, garbage + stream).events[|garbage|..] == Scan(Next, stream).events
              && Scan(Next, garbage + stream).rest == Scan(Next, stream).rest
    decreases |garbage|
  {
    var b := garbage + stream;
    if garbage == [] {
      assert b == stream;
    } else {
      assert b[1..] == garbage[1..] + stream;
      NoFrameInStep(garbage, stream);
      SkipsStep(b, |garbage|);
      GarbageCostsOnlyItself(garbage[1..], stream);
    }
  }

  lemma {:induction false} CountSkipped(t: Tally, events: seq<Event>)
    requires forall e | e in events :: !e.Received?
    ensures var u := CountAll(t, events);
            u.frames == t.frames && u.syncDrops + u.checksumErrors == t.syncDrops + t.checksumErrors + |events|
    decreases |events|
  {
    if events != [] {
      CountSkipped(Count(t, events[0]), events[1..]);
    }
  }

  lemma SkippedThenScanned(garbage: seq<byte>, stream: seq<byte>) returns (skipped: seq<Event>)
    requires NoFrameIn(garbage, stream)
    ensures forall e | e in skipped :: !e.Received?
    ensures |skipped| == |garbage|
    ensures Scan(Next, garbage + stream).events == skipped + Scan(Next, stream).events
  {
    GarbageCostsOnlyItself(garbage, stream);
    var events := Scan(Next, garbage + stream).events;
    skipped := events[..|garbage|];
    assert events == skipped + events[|garbage|..];
  }

  lemma CompleteStreamIsScanned(messages: seq<(byte, seq<byte>)>)
    requires AllDeliverable(messages)
    ensures Scan(Next, Stream(messages)) == Scanned(AsEvents(messages), [])
  {
    NextIsStable();
    MessagesAreRecognised(messages, []);
    WholeStream(Next, Spelling, AsEvents(messages));
  }

  /** In that case every complete frame after the foreign bytes is received. */
  lemma FramesAfterGarbageAreRecovered(garbage: seq<byte>, messages: seq<(byte, seq<byte>)>)
    requires AllDeliverable(messages)
    requires NoFrameIn(garbage, Stream(messages))
    ensures var t := After(INITIAL, garbage + Stream(messages)).tally;
            t.frames == messages && t.syncDrops + t.checksumErrors == |garbage|
  {
    var skipped := SkippedThenScanned(garbage, Stream(messages));
    CompleteStreamIsScanned(messages);
    assert INITIAL.buffer + (garbage + Stream(messages)) == garbage + Stream(messages);
    CountSkippedThenReceived(skipped, messages);
  }

  lemma CountSkippedThenReceived(skipped: seq<Event>, messages: seq<(byte, seq<byte>)>)
    requires forall e | e in skipped :: !e.Received?
    ensures var t := CountAll(NOTHING_YET, skipped + AsEvents(messages));
            t.frames == messages && t.syncDrops + t.checksumErrors == |skipped|
  {
    CountAllAppend(NOTHING_YET, skipped, AsEvents(messages));
    CountSkipped(NOTHING_YET, skipped);
    CountReceived(CountAll(NOTHING_YET, skipped), messages);
  }
}
