/** What the debug core guarantees for every input trace. */
module DebugCoreTheorems {
  import opened Bytes
  import opened Wrappers
  import opened DebugProtocol
  import opened DebugCore
  import UartDecoder
  import D = UartDecoderTheorems

  // ------------------------------------------------------------------- conservation

  /** Bytes already sent, the rest of the current frame and the frames of the queue are the frames of
      all accepted messages, in the order they were accepted. */
  ghost predicate Conserved(c: Core) {
    c.transferred + (c.packetizer.pending + FramesOf(c.queue)) == FramesOf(c.accepted)
  }

  /** The output side moves bytes and messages but changes neither their content nor their order. */
  lemma OutputKeepsBytes(c: Core, ready: bool)
    requires Sound(c)
    ensures var left := if Reads(c) then c.queue[1..] else c.queue;
            var p := PacketizerNext(c.packetizer, Offered(c), ready);
            Taken(c.packetizer, ready) + (p.pending + FramesOf(left)) == c.packetizer.pending + FramesOf(c.queue)
  {
    var p := c.packetizer;
    if Reads(c) {
      assert c.queue[0] in c.queue;
      assert FramesOf(c.queue) == FrameOf(c.queue[0]) + FramesOf(c.queue[1..]);
    } else if p.pending == [] {
      assert c.queue != [] ==> !Takes(p, c.queue[0]);
    } else if p.loaded && ready {
      assert p.pending == [p.pending[0]] + p.pending[1..];
      Associate([p.pending[0]], p.pending[1..], FramesOf(c.queue));
    }
  }

  lemma StepConserves(c: Core, i: Inputs)
    requires Sound(c) && ValidInputs(i)
    requires Conserved(c)
    ensures Conserved(Next(c, i))
  {
    var d, e := Next(c, i), Enqueued(c, i);
    var written := if e.Some? then [e.value.1] else [];
    var left := if Reads(c) then c.queue[1..] else c.queue;
    OutputKeepsBytes(c, i.byteReady);
    FramesOfAppend(left, written);
    FramesOfAppend(c.accepted, written);
    Regroup4(c.transferred, Taken(c.packetizer, i.byteReady), d.packetizer.pending, FramesOf(left), FramesOf(written));
  }

  lemma Regroup4<T>(a: seq<T>, b: seq<T>, c: seq<T>, d: seq<T>, e: seq<T>)
    ensures (a + b) + (c + (d + e)) == (a + (b + (c + d))) + e
  {
  }

  /** In every run, for every pattern of readiness, the bytes transferred are the beginning of the frames
      of the accepted messages in acceptance order; the rest is still in the packetizer and the queue. */
  lemma {:induction false} EveryByteIsConserved(c: Core, inputs: seq<Inputs>)
    requires Sound(c) && AllValid(inputs)
    requires Conserved(c)
    ensures Conserved(Run(c, inputs))
    ensures Run(c, inputs).transferred <= FramesOf(Run(c, inputs).accepted)
    decreases |inputs|
  {
    if inputs != [] {
      StepConserves(c, inputs[0]);
      EveryByteIsConserved(Next(c, inputs[0]), inputs[1..]);
    }
  }

  // --------------------------------------------------------------------- arbitration

  /** A handshaked source sees valid and ready together exactly when its message is the one enqueued. */
  lemma HandshakesAreExact(c: Core, i: Inputs)
    requires Sound(c)
    ensures i.monitor.Some? && MonitorReady(c) <==> Enqueued(c, i).Some? && Enqueued(c, i).value.0 == Monitor
    ensures i.trace.Some? && TraceReady(c, i) <==> Enqueued(c, i).Some? && Enqueued(c, i).value.0 == Trace
    ensures i.la.Some? && AnalyzerReady(c, i) <==> Enqueued(c, i).Some? && Enqueued(c, i).value.0 == Analyzer
    ensures i.profiler.Some? && ProfilerReady(c, i) <==> Enqueued(c, i).Some? && Enqueued(c, i).value.0 == Profiler
    ensures Enqueued(c, i).Some? ==>
              match Enqueued(c, i).value.0
              case Monitor => i.monitor == Some(Enqueued(c, i).value.1)
              case Trace => i.trace == Some(Enqueued(c, i).value.1)
              case Analyzer => i.la == Some(Enqueued(c, i).value.1)
              case Profiler => i.profiler == Some(Enqueued(c, i).value.1)
              case source => i.monitor.None? && HasPulse(i, source)
  {
  }

  /** A stream source never fills the last two entries. */
  lemma StreamsLeaveHeadroom(c: Core, i: Inputs)
    requires Sound(c) && ValidInputs(i)
    requires Enqueued(c, i).Some? && Enqueued(c, i).value.0 in {Trace, Analyzer, Profiler}
    ensures |Next(c, i).queue| <= c.depth - 2
  {
  }

  /** With that headroom a response of the monitor, or a pulse, is always taken at once when only stream
      messages have been enqueued since the queue had room. */
  lemma HeadroomAdmitsPulses(c: Core, i: Inputs)
    requires Sound(c) && |c.queue| <= c.depth - 2
    requires i.monitor.Some? || exists s :: HasPulse(i, s)
    ensures Enqueued(c, i).Some? && Enqueued(c, i).value.0 !in {Trace, Analyzer, Profiler}
  {
  }

  // ------------------------------------------------------------------------ counters

  function TraceDropsIn(inputs: seq<Inputs>): nat {
    if inputs == [] then 0 else (if inputs[0].traceDropped then 1 else 0) + TraceDropsIn(inputs[1..])
  }

  /** The sources whose messages were enqueued, in order. */
  function SourcesIn(c: Core, inputs: seq<Inputs>): seq<Source>
    requires Sound(c) && AllValid(inputs)
    decreases |inputs|
  {
    if inputs == [] then []
    else
      (if Enqueued(c, inputs[0]).Some? then [Enqueued(c, inputs[0]).value.0] else [])
      + SourcesIn(Next(c, inputs[0]), inputs[1..])
  }

  function One(b: bool): nat {
    if b then 1 else 0
  }

  /** In how many cycles the source has a pulse. */
  function PulsesOf(inputs: seq<Inputs>, s: Source): nat {
    if inputs == [] then 0 else One(HasPulse(inputs[0], s)) + PulsesOf(inputs[1..], s)
  }

  predicate IsEnqueued(c: Core, i: Inputs, s: Source)
    requires Sound(c)
  {
    Enqueued(c, i).Some? && Enqueued(c, i).value.0 == s
  }

  /** In how many cycles a message of the source is enqueued. */
  function EnqueuedOf(c: Core, inputs: seq<Inputs>, s: Source): nat
    requires Sound(c) && AllValid(inputs)
    decreases |inputs|
  {
    if inputs == [] then 0 else One(IsEnqueued(c, inputs[0], s)) + EnqueuedOf(Next(c, inputs[0]), inputs[1..], s)
  }

  /** The pulses of the source that got no place. */
  function LostOf(c: Core, inputs: seq<Inputs>, s: Source): int
    requires Sound(c) && AllValid(inputs)
  {
    PulsesOf(inputs, s) - EnqueuedOf(c, inputs, s)
  }

  /** All pulses that got no place, source by source. */
  function LostPulses(c: Core, inputs: seq<Inputs>): int
    requires Sound(c) && AllValid(inputs)
  {
    LostOf(c, inputs, Event) + LostOf(c, inputs, Watch) + LostOf(c, inputs, Print) + LostOf(c, inputs, Heartbeat)
    + LostOf(c, inputs, Status)
  }

  function LostNow(c: Core, i: Inputs): nat
    requires Sound(c)
  {
    One(i.event.Some? && !IsEnqueued(c, i, Event)) + One(i.watch.Some? && !IsEnqueued(c, i, Watch))
    + One(i.print_.Some? && !IsEnqueued(c, i, Print)) + One(i.heartbeat && !IsEnqueued(c, i, Heartbeat))
    + One(i.status && !IsEnqueued(c, i, Status))
  }

  /** In one cycle the core drops each pulse whose message is not the one enqueued. */
  lemma StepCounts(c: Core, i: Inputs)
    requires Sound(c) && ValidInputs(i)
    ensures |Next(c, i).accepted| == |c.accepted| + One(Enqueued(c, i).Some?)
    ensures Dropped(Next(c, i)) == Dropped(c) + LostNow(c, i) + One(i.traceDropped)
    ensures forall s :: IsEnqueued(c, i, s) && s !in {Monitor, Trace, Analyzer, Profiler} ==> HasPulse(i, s)
  {
  }

  /** Every message of a pulsed source in the queue answers a pulse of that source. */
  lemma {:induction false} PulsesAreEnqueuedOrLost(c: Core, inputs: seq<Inputs>, s: Source)
    requires Sound(c) && AllValid(inputs) && s !in {Monitor, Trace, Analyzer, Profiler}
    ensures 0 <= LostOf(c, inputs, s)
    ensures inputs != [] ==>
              LostOf(c, inputs, s) == One(HasPulse(inputs[0], s) && !IsEnqueued(c, inputs[0], s))
                                      + LostOf(Next(c, inputs[0]), inputs[1..], s)
    decreases |inputs|
  {
    if inputs != [] {
      StepCounts(c, inputs[0]);
      PulsesAreEnqueuedOrLost(Next(c, inputs[0]), inputs[1..], s);
    }
  }

  /** Over every run: one queue entry per enqueuing cycle; the drops are, for each of the five pulsed sources, its
      pulses less its enqueued messages, and the drops of the trace adapter. */
  lemma {:induction false} CountersAreExact(c: Core, inputs: seq<Inputs>)
    requires Sound(c) && AllValid(inputs)
    ensures var d := Run(c, inputs);
            && |d.accepted| == |c.accepted| + |SourcesIn(c, inputs)|
            && Dropped(d) == Dropped(c) + LostPulses(c, inputs) + TraceDropsIn(inputs)
    decreases |inputs|
  {
    if inputs != [] {
      StepCounts(c, inputs[0]);
      LostStep(c, inputs);
      CountersAreExact(Next(c, inputs[0]), inputs[1..]);
    }
  }

  lemma LostStep(c: Core, inputs: seq<Inputs>)
    requires Sound(c) && AllValid(inputs) && inputs != []
    ensures LostPulses(c, inputs) == LostNow(c, inputs[0]) + LostPulses(Next(c, inputs[0]), inputs[1..])
  {
    PulsesAreEnqueuedOrLost(c, inputs, Event);
    PulsesAreEnqueuedOrLost(c, inputs, Watch);
    PulsesAreEnqueuedOrLost(c, inputs, Print);
    PulsesAreEnqueuedOrLost(c, inputs, Heartbeat);
    PulsesAreEnqueuedOrLost(c, inputs, Status);
  }

  // ------------------------------------------------------------------------ progress

  /** Clock cycles the output side still needs when every byte is taken at once: one cycle to take a
      message, one to load its first byte, one for each byte. */
  function Work(c: Core): nat
    requires Sound(c)
  {
    QueueWork(c.queue) + |c.packetizer.pending| +
    (if c.packetizer.pending != [] && !c.packetizer.loaded then 1 else 0)
  }

  function QueueWork(queue: seq<Msg>): nat {
    if queue == [] then 0 else |FrameOf(queue[0])| + 2 + QueueWork(queue[1..])
  }

  predicate Silent(i: Inputs) {
    i.monitor.None? && !LegacyValid(i) && i.trace.None? && i.la.None? && i.profiler.None? && i.byteReady
  }

  predicate AllFit(queue: seq<Msg>) {
    forall k | 0 <= k < |queue| :: Fits(queue[k])
  }

  lemma StepWorks(c: Core, i: Inputs)
    requires Sound(c) && ValidInputs(i) && Silent(i) && AllFit(c.queue)
    ensures AllFit(Next(c, i).queue)
    ensures Work(Next(c, i)) == if Work(c) == 0 then 0 else Work(c) - 1
    ensures Next(c, i).accepted == c.accepted
  {
    var left := if Reads(c) then c.queue[1..] else c.queue;
    assert left + [] == left;
    assert c.accepted + [] == c.accepted;
    if c.packetizer.pending == [] && c.queue != [] {
      assert Fits(c.queue[0]) && Reads(c);
    }
  }

  predicate AllSilent(inputs: seq<Inputs>) {
    forall k | 0 <= k < |inputs| :: Silent(inputs[k])
  }

  /** Nothing is stuck: after exactly `Work` quiet cycles with a ready receiver every frame has left. */
  lemma {:induction false} QueueDrains(c: Core, inputs: seq<Inputs>)
    requires Sound(c) && AllValid(inputs) && AllSilent(inputs) && AllFit(c.queue)
    ensures Work(Run(c, inputs)) == if Work(c) <= |inputs| then 0 else Work(c) - |inputs|
    ensures Run(c, inputs).accepted == c.accepted
    decreases |inputs|
  {
    if inputs != [] {
      StepWorks(c, inputs[0]);
      QueueDrains(Next(c, inputs[0]), inputs[1..]);
    }
  }

  lemma DrainedMeansSent(c: Core, inputs: seq<Inputs>)
    requires Sound(c) && AllValid(inputs) && AllSilent(inputs) && AllFit(c.queue)
    requires Conserved(c) && Work(c) <= |inputs|
    ensures Run(c, inputs).transferred == FramesOf(c.accepted)
  {
    QueueDrains(c, inputs);
    EveryByteIsConserved(c, inputs);
    var d := Run(c, inputs);
    assert d.queue == [] && d.packetizer.pending == [];
    assert d.transferred + ([] + []) == d.transferred;
  }

  /** A message that claims more than 32 payload bytes is accepted by the queue but never leaves it:
      once it is at the head, nothing is transferred any more. */
  lemma {:induction false} OversizedHeadBlocks(c: Core, inputs: seq<Inputs>)
    requires Sound(c) && AllValid(inputs)
    requires c.queue != [] && MAX_PAYLOAD < c.queue[0].len && c.packetizer.pending == []
    ensures var d := Run(c, inputs);
            d.transferred == c.transferred && d.queue != [] && d.queue[0] == c.queue[0] && d.packetizer.pending == []
    decreases |inputs|
  {
    if inputs != [] {
      OversizedHeadBlocks(Next(c, inputs[0]), inputs[1..]);
    }
  }

  /** Such a state is one cycle away from reset: one oversized message of the Monitor, which is always admitted
      into an empty queue, and no byte is ever transferred. */
  lemma OversizedMessageStopsTheCore(depth: nat, first: Inputs, inputs: seq<Inputs>)
    requires Sound(AfterReset(depth)) && ValidInputs(first) && AllValid(inputs)
    requires first.monitor.Some? && MAX_PAYLOAD < first.monitor.value.len
    ensures var d := Run(AfterReset(depth), [first] + inputs);
            AllValid([first] + inputs) && d.transferred == [] && d.queue != [] && d.queue[0] == first.monitor.value
  {
    var c := Next(AfterReset(depth), first);
    assert c.queue == [first.monitor.value] && c.packetizer.pending == [] && c.transferred == [];
    OversizedHeadBlocks(c, inputs);
    assert ([first] + inputs)[1..] == inputs;
  }

  predicate HasUnfit(queue: seq<Msg>) {
    exists k :: 0 <= k < |queue| && MAX_PAYLOAD < queue[k].len
  }

  lemma {:induction false} UnfitMessageNeverLeaves(c: Core, inputs: seq<Inputs>)
    requires Sound(c) && AllValid(inputs) && HasUnfit(c.queue)
    ensures HasUnfit(Run(c, inputs).queue)
    decreases |inputs|
  {
    if inputs != [] {
      var d := Next(c, inputs[0]);
      var k :| 0 <= k < |c.queue| && MAX_PAYLOAD < c.queue[k].len;
      assert d.queue[if Reads(c) then k - 1 else k] == c.queue[k];
      UnfitMessageNeverLeaves(d, inputs[1..]);
    }
  }

  /** Given enough quiet cycles, everything leaves if and only if no queued message is too long. */
  lemma QueueEmptiesIff(c: Core, inputs: seq<Inputs>)
    requires Sound(c) && AllValid(inputs) && AllSilent(inputs) && Work(c) <= |inputs|
    ensures Run(c, inputs).queue == [] && Run(c, inputs).packetizer.pending == [] <==> AllFit(c.queue)
  {
    if AllFit(c.queue) {
      QueueDrains(c, inputs);
    } else {
      var k :| 0 <= k < |c.queue| && !Fits(c.queue[k]);
      assert c.queue[k] in c.queue;
      UnfitMessageNeverLeaves(c, inputs);
    }
  }

  // ---------------------------------------------------------------------- end to end

  /** The messages the host validator knows. */
  predicate Known(messages: seq<Msg>) {
    forall k | 0 <= k < |messages| :: Fits(messages[k]) && IsKnown(messages[k].kind)
  }

  function AsPair(m: Msg): (byte, seq<byte>)
    requires Fits(m)
  {
    (m.kind, m.payload[..m.len])
  }

  function AsPairs(messages: seq<Msg>): (pairs: seq<(byte, seq<byte>)>)
    requires Known(messages)
    ensures |pairs| == |messages|
    ensures forall k | 0 <= k < |messages| :: pairs[k] == AsPair(messages[k])
  {
    seq(|messages|, k requires 0 <= k < |messages| => AsPair(messages[k]))
  }

  lemma {:induction false} FramesAreTheStream(messages: seq<Msg>)
    requires Known(messages)
    ensures FramesOf(messages) == D.Stream(AsPairs(messages))
    decreases |messages|
  {
    if messages != [] {
      FramesAreTheStream(messages[1..]);
      var pairs := AsPairs(messages);
      assert pairs[1..] == AsPairs(messages[1..]);
      D.StreamHead(pairs);
    }
  }

  lemma {:induction false} KnownAreDeliverable(messages: seq<Msg>)
    requires Known(messages)
    ensures D.AllDeliverable(AsPairs(messages))
  {
  }

  lemma PairsOfPrefix(messages: seq<Msg>, k: nat)
    requires Known(messages) && k <= |messages|
    ensures Known(messages[..k]) && AsPairs(messages[..k]) == AsPairs(messages)[..k]
  {
  }

  /** Any beginning of the frames of known messages, in any chunks, is decoded without error. */
  lemma BeginningIsDecoded(accepted: seq<Msg>, chunks: seq<seq<byte>>) returns (k: nat)
    requires Known(accepted)
    requires Flatten(chunks) <= FramesOf(accepted)
    ensures var s := D.AfterAll(UartDecoder.INITIAL, chunks);
            && k <= |accepted|
            && s.tally == UartDecoder.NOTHING_YET.(frames := AsPairs(accepted[..k]), locked := 0 < k)
            && Flatten(chunks) == FramesOf(accepted[..k]) + s.buffer
            && (k < |accepted| ==> s.buffer < FrameOf(accepted[k]))
            && (k == |accepted| ==> s.buffer == [])
  {
    var pairs := AsPairs(accepted);
    FramesAreTheStream(accepted);
    KnownAreDeliverable(accepted);
    k := D.CleanChunksAreDecoded(pairs, chunks);
    FramesAreTheStream(accepted[..k]);
    PairsOfPrefix(accepted, k);
  }

  /** The handshaked messages of a cycle fit and have known types. */
  predicate KnownSources(i: Inputs) {
    && (i.monitor.Some? ==> Fits(i.monitor.value) && IsKnown(i.monitor.value.kind))
    && (i.trace.Some? ==> Fits(i.trace.value) && IsKnown(i.trace.value.kind))
    && (i.la.Some? ==> Fits(i.la.value) && IsKnown(i.la.value.kind))
    && (i.profiler.Some? ==> Fits(i.profiler.value) && IsKnown(i.profiler.value.kind))
  }

  predicate AllKnownSources(inputs: seq<Inputs>) {
    forall k | 0 <= k < |inputs| :: KnownSources(inputs[k])
  }

  /** Every message the arbiter builds for a pulse fits and has a type the host validator knows. */
  lemma PulseMessagesAreKnown(i: Inputs, streamReady: bool, report: Report)
    requires Arbitrate(i, streamReady, report).Some?
    ensures var (source, m) := Arbitrate(i, streamReady, report).value;
            source !in {Monitor, Trace, Analyzer, Profiler} || KnownSources(i) ==> Fits(m) && IsKnown(m.kind)
  {
  }

  lemma {:induction false} AcceptedAreKnown(c: Core, inputs: seq<Inputs>)
    requires Sound(c) && AllValid(inputs) && AllKnownSources(inputs) && Known(c.accepted)
    ensures Known(Run(c, inputs).accepted)
    decreases |inputs|
  {
    if inputs != [] {
      var i := inputs[0];
      if Enqueued(c, i).Some? {
        PulseMessagesAreKnown(i, StreamReady(c), ReportOf(c));
      }
      AcceptedAreKnown(Next(c, i), inputs[1..]);
    }
  }

  /** From the sources to the host: whatever the inputs and the readiness of the receiver, and however the
      transferred bytes are cut into reads, the host decoder yields the first messages the core accepted,
      as many as were completely transferred, with no error of any kind. */
  lemma DecoderReceivesAcceptedMessages(depth: nat, inputs: seq<Inputs>, chunks: seq<seq<byte>>) returns (k: nat)
    requires Sound(AfterReset(depth)) && AllValid(inputs)
    requires Known(Run(AfterReset(depth), inputs).accepted)
    requires Flatten(chunks) == Run(AfterReset(depth), inputs).transferred
    ensures var accepted := Run(AfterReset(depth), inputs).accepted;
            var s := D.AfterAll(UartDecoder.INITIAL, chunks);
            && k <= |accepted|
            && s.tally == UartDecoder.NOTHING_YET.(frames := AsPairs(accepted[..k]), locked := 0 < k)
            && Flatten(chunks) == FramesOf(accepted[..k]) + s.buffer
            && (k < |accepted| ==> s.buffer < FrameOf(accepted[k]))
            && (k == |accepted| ==> s.buffer == [])
  {
    EveryByteIsConserved(AfterReset(depth), inputs);
    k := BeginningIsDecoded(Run(AfterReset(depth), inputs).accepted, chunks);
  }
  /** The same for every run whose handshaked messages are known; the core's own messages always are. */
  lemma DecoderReceivesKnownSources(depth: nat, inputs: seq<Inputs>, chunks: seq<seq<byte>>) returns (k: nat)
    requires Sound(AfterReset(depth)) && AllValid(inputs) && AllKnownSources(inputs)
    requires Flatten(chunks) == Run(AfterReset(depth), inputs).transferred
    ensures var accepted := Run(AfterReset(depth), inputs).accepted;
            var s := D.AfterAll(UartDecoder.INITIAL, chunks);
            && k <= |accepted| && Known(accepted[..k])
            && s.tally == UartDecoder.NOTHING_YET.(frames := AsPairs(accepted[..k]), locked := 0 < k)
            && Flatten(chunks) == FramesOf(accepted[..k]) + s.buffer
            && (k < |accepted| ==> s.buffer < FrameOf(accepted[k]))
            && (k == |accepted| ==> s.buffer == [])
  {
    AcceptedAreKnown(AfterReset(depth), inputs);
    k := DecoderReceivesAcceptedMessages(depth, inputs, chunks);
  }
}
