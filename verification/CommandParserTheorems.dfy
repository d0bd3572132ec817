/** What the command parser guarantees on every byte stream and for every pattern of readiness. */
module CommandParserTheorems {
  import opened Bytes
  import opened Wrappers
  import opened DebugProtocol
  import opened StreamScan
  import opened CommandParser

  lemma NextIsStable()
    ensures Stable(Next)
  {
    forall b, x
      ensures StableAt(Next, b, x)
    {
      if 4 <= |b| && b[0] == SOF && b[1] == VERSION {
        assert (b + x)[..4] == b[..4];
        var total := b[3] as int + 5;
        if total <= |b| {
          assert (b + x)[..total] == b[..total];
          assert (b + x)[4..total - 1] == b[4..total - 1];
        }
      }
    }
  }

  // ------------------------------------------------------------------- requests

  predicate IsRequest(r: Request) {
    IsWidth(r.width) && (!r.write ==> r.data == 0 && r.mask == 0)
  }

  /** The fields of a payload are read back as they were written. */
  lemma FieldsReadBack(r: Request)
    ensures var read := U16(r.sequence) + U16(r.address) + [r.width];
            var write := read + U32(r.data) + U32(r.mask);
            && ReadU16(read, 0) == ReadU16(write, 0) == r.sequence
            && ReadU16(read, 2) == ReadU16(write, 2) == r.address
            && read[4] == write[4] == r.width
            && ReadU32(write, 5) == r.data && ReadU32(write, 9) == r.mask
  {
    var s, a, w, d, m := U16(r.sequence), U16(r.address), [r.width], U32(r.data), U32(r.mask);
    ReadU16At([], r.sequence, a + w);
    assert [] + s + (a + w) == s + a + w;
    ReadU16At([], r.sequence, a + w + d + m);
    assert [] + s + (a + w + d + m) == s + a + w + d + m;
    ReadU16At(s, r.address, w);
    ReadU16At(s, r.address, w + d + m);
    assert s + a + (w + d + m) == s + a + w + d + m;
    ReadU32At(s + a + w, r.data, m);
    ReadU32At(s + a + w + d, r.mask, []);
    assert s + a + w + d + m + [] == s + a + w + d + m;
  }

  /** A payload of the right length is the encoding of the fields read from it. */
  lemma FieldsDetermineReadPayload(p: seq<byte>)
    requires |p| == 5
    ensures p == U16(ReadU16(p, 0)) + U16(ReadU16(p, 2)) + [p[4]]
  {
    U16OfRead(p, 0);
    U16OfRead(p, 2);
    assert p == p[0..2] + p[2..4] + [p[4]];
  }

  lemma FieldsDetermineWritePayload(p: seq<byte>)
    requires |p| == 13
    ensures p == U16(ReadU16(p, 0)) + U16(ReadU16(p, 2)) + [p[4]] + U32(ReadU32(p, 5)) + U32(ReadU32(p, 9))
  {
    U16OfRead(p, 0);
    U16OfRead(p, 2);
    U32OfRead(p, 5);
    U32OfRead(p, 9);
    assert p == p[0..2] + p[2..4] + [p[4]] + p[5..9] + p[9..13];
  }

  lemma JudgedRequestIsFrame(kind: byte, payload: seq<byte>, checksum: byte, raw: seq<byte>)
    requires |payload| <= MAX_PAYLOAD
    requires Judge(kind, payload, checksum, raw).Requested?
    ensures [SOF] + Body(kind, payload) + [checksum] == RequestFrame(Judge(kind, payload, checksum, raw).request)
    ensures IsRequest(Judge(kind, payload, checksum, raw).request)
  {
    if kind == MONITOR_READ_REQ {
      FieldsDetermineReadPayload(payload);
    } else {
      FieldsDetermineWritePayload(payload);
    }
  }

  lemma CutFrame(b: seq<byte>, total: nat)
    requires 5 <= total <= |b| && total < 261 && b[0] == SOF && b[1] == VERSION && b[3] == total - 5
    ensures b[..total] == [SOF] + Body(b[2], b[4..total - 1]) + [b[total - 1]]
  {
  }

  /** A request is raised only with a legal width and, for reads, without data. */
  predicate RaisesLegally(b: seq<byte>) {
    Next(b).Take? && Next(b).event.Requested? ==> IsRequest(Next(b).event.request)
  }

  /** Every event spells the bytes it took: a request is raised only by the bytes of a checksum-valid read or
      write frame with exactly its fields and width 1, 2 or 4. */
  lemma EventsSpellTheirBytes()
    ensures forall b :: SpelledBy(Next, Spelling, b)
    ensures forall b :: RaisesLegally(b)
  {
    forall b
      ensures SpelledBy(Next, Spelling, b) && RaisesLegally(b)
    {
      if Next(b).Take? && Next(b).event.Requested? {
        var raw := b[..Next(b).n];
        CutFrame(b, |raw|);
        JudgedRequestIsFrame(b[2], b[4..|raw| - 1], b[|raw| - 1], raw);
      }
    }
  }

  lemma RequestsAreRecognised(r: Request)
    requires IsRequest(r)
    ensures Encodes(Next, Spelling, Requested(r))
  {
    var payload := if r.write then U16(r.sequence) + U16(r.address) + [r.width] + U32(r.data) + U32(r.mask)
                   else U16(r.sequence) + U16(r.address) + [r.width];
    var f := RequestFrame(r);
    FrameParts(if r.write then MONITOR_WRITE_REQ else MONITOR_READ_REQ, payload);
    FieldsReadBack(r);
    forall k: nat
      ensures WaitsAt(Next, f, k)
    {
    }
  }

  /** A frame with one damaged payload byte is refused, and raises no request. */
  lemma DamagedFrameIsRefused(kind: byte, payload: seq<byte>, i: nat, x: byte, more: seq<byte>)
    requires i < |payload| <= MAX_PAYLOAD && x != payload[i]
    ensures var f := Frame(kind, payload)[4 + i := x];
            Next(f + more) == Take(|f|, Refused(f, ChecksumError))
  {
    var check := DamagedFrame(kind, payload, i, x);
    WrongChecksumIsRefused(kind, payload[i := x], check);
    NextIsStable();
    assert StableAt(Next, FrameWith(kind, payload[i := x], check), more);
  }

  lemma WrongChecksumIsRefused(kind: byte, payload: seq<byte>, check: byte)
    requires |payload| <= MAX_PAYLOAD && check != XorFold(0, Body(kind, payload))
    ensures var f := FrameWith(kind, payload, check);
            Next(f) == Take(|f|, Refused(f, ChecksumError))
  {
    FrameWithParts(kind, payload, check);
  }

  /** A complete candidate of legal length is judged in this order: checksum, type, then length and width. What is
      left is a request with the frame it was read from. */
  lemma FramesAreJudged(kind: byte, payload: seq<byte>, check: byte)
    requires |payload| <= MAX_PAYLOAD
    ensures var f := FrameWith(kind, payload, check);
            var sized := |payload| == (if kind == 0x20 then 5 else 13) && payload[4] in {1, 2, 4};
            && Next(f).Take? && Next(f).n == |f|
            && Next(f).event ==
               (if check != XorFold(0, Body(kind, payload)) then Refused(f, ChecksumError)
                else if kind != 0x20 && kind != 0x22 then Refused(f, Unsupported)
                else if !sized then Refused(f, BadLength)
                else Next(f).event)
            && (Next(f).event.Requested? <==>
                  check == XorFold(0, Body(kind, payload)) && (kind == 0x20 || kind == 0x22) && sized)
            && (Next(f).event.Requested? ==>
                  RequestFrame(Next(f).event.request) == f && (Next(f).event.request.write <==> kind == 0x22))
  {
    var f := FrameWith(kind, payload, check);
    FrameWithParts(kind, payload, check);
    EventsSpellTheirBytes();
    assert SpelledBy(Next, Spelling, f);
  }

  /** A header that announces more than 32 payload bytes is refused as soon as it is there. */
  lemma LongFrameIsRefused(kind: byte, length: byte, more: seq<byte>)
    requires MAX_PAYLOAD < length
    ensures var h: seq<byte> := [SOF, VERSION, kind, length];
            Next(h + more) == Take(4, Refused(h, BadLength))
  {
    var h: seq<byte> := [SOF, VERSION, kind, length];
    assert (h + more)[..4] == h;
  }

  // ------------------------------------------------------------------------ runs

  predicate EndsWith(s: seq<byte>, end: seq<byte>) {
    |end| <= |s| && s[|s| - |end|..] == end
  }

  /** The request on offer and those delivered are the requests in the consumed bytes, all of legal width. While
      a request is on offer, the consumed bytes end with its frame: nothing further was consumed. */
  ghost predicate Consistent(p: Parser) {
    && Scan(Next, p.consumed).rest == p.kept
    && p.delivered + OnOffer(p.held) == RequestsIn(Scan(Next, p.consumed).events)
    && AllRequests(p.delivered + OnOffer(p.held))
    && (p.held.Some? ==> p.kept == [] && EndsWith(p.consumed, RequestFrame(p.held.value)))
  }

  predicate AllRequests(requests: seq<Request>) {
    forall k | 0 <= k < |requests| :: IsRequest(requests[k])
  }

  lemma {:induction false} RequestsInAppend(a: seq<Event>, b: seq<Event>)
    ensures RequestsIn(a + b) == RequestsIn(a) + RequestsIn(b)
    decreases |a|
  {
    if a == [] {
      assert a + b == b;
    } else {
      assert (a + b)[1..] == a[1..] + b;
      RequestsInAppend(a[1..], b);
      Associate(if a[0].Requested? then [a[0].request] else [], RequestsIn(a[1..]), RequestsIn(b));
    }
  }

  /** These requests were raised by the whole of `b`. */
  predicate RaisedBy(requests: seq<Request>, b: seq<byte>) {
    |requests| <= 1 && (requests != [] ==> IsRequest(requests[0]) && b == RequestFrame(requests[0]))
  }

  lemma WholeCandidateRaises(b: seq<byte>, events: seq<Event>)
    requires Next(b).Take? && Next(b).n == |b| && events == [Next(b).event]
    ensures RaisedBy(RequestsIn(events), b)
  {
    EventsSpellTheirBytes();
    assert SpelledBy(Next, Spelling, b) && RaisesLegally(b);
    assert b[..|b|] == b;
    assert RequestsIn(events[1..]) == [];
  }

  /** One more byte raises at most one request, the kept bytes with that byte are then its frame, and nothing
      is kept any more. */
  lemma OneByteRaisesOne(kept: seq<byte>, x: byte)
    requires Scan(Next, kept) == Scanned([], kept)
    ensures var scan := Scan(Next, kept + [x]);
            && RaisedBy(RequestsIn(scan.events), kept + [x])
            && (RequestsIn(scan.events) != [] ==> scan.rest == [])
  {
    var b := kept + [x];
    assert !Next(kept).Take? by {
      NextIsStable();
      assert StableAt(Next, kept, []);
    }
    if Next(b).Take? {
      var n := Next(b).n;
      var tail := Scan(Next, b[n..]);
      assert Scan(Next, b).events == [Next(b).event] + tail.events;
      if n == |b| {
        assert b[n..] == [];
        WholeCandidateRaises(b, Scan(Next, b).events);
      } else {
        assert |b| == 2 && n == 1;
        SecondByte(x, b[n..]);
        assert ([Next(b).event] + tail.events)[1..] == tail.events;
      }
    }
  }

  lemma SecondByte(x: byte, tail: seq<byte>)
    requires tail == [x]
    ensures RequestsIn(Scan(Next, tail).events) == []
  {
  }

  lemma ConsumeOne(consumed: seq<byte>, x: byte)
    ensures var kept := Scan(Next, consumed).rest;
            var before, after, more := Scan(Next, consumed), Scan(Next, consumed + [x]), Scan(Next, kept + [x]);
            && after.rest == more.rest
            && RequestsIn(after.events) == RequestsIn(before.events) + RequestsIn(more.events)
            && RaisedBy(RequestsIn(more.events), kept + [x])
            && (RequestsIn(more.events) != [] ==> more.rest == [])
  {
    NextIsStable();
    RestIsStuck(Next, consumed);
    var kept := Scan(Next, consumed).rest;
    OneByteRaisesOne(kept, x);
    ScanSplit(Next, consumed, [x]);
    RequestsInAppend(Scan(Next, consumed).events, Scan(Next, kept + [x]).events);
  }

  lemma EndsWithRest(start: seq<byte>, rest: seq<byte>, x: byte)
    ensures EndsWith(start + rest + [x], rest + [x])
  {
  }

  lemma KeptIsTheEnd(consumed: seq<byte>, x: byte)
    ensures EndsWith(consumed + [x], Scan(Next, consumed).rest + [x])
  {
    NextIsStable();
    EventsSpellTheirBytes();
    EventsAccountForInput(Next, Spelling, consumed);
    EndsWithRest(EncodeAll(Spelling, Scan(Next, consumed).events), Scan(Next, consumed).rest, x);
  }

  lemma StepIsConsistent(p: Parser, i: Inputs)
    requires Consistent(p)
    ensures Consistent(Step(p, i))
  {
    if i.arriving.Some? && !Blocked(p, i.ready) {
      ConsumedByteIsConsistent(p, i);
    } else {
      assert p.delivered + [] == p.delivered && p.delivered + OnOffer(p.held) + [] == p.delivered + OnOffer(p.held);
    }
  }

  lemma ConsumedByteIsConsistent(p: Parser, i: Inputs)
    requires Consistent(p) && i.arriving.Some? && !Blocked(p, i.ready)
    ensures Consistent(Step(p, i))
  {
    var x := i.arriving.value;
    ConsumeOne(p.consumed, x);
    KeptIsTheEnd(p.consumed, x);
    ByteGoesOn(p, i.ready, x, RequestsIn(Scan(Next, p.kept + [x]).events), Step(p, i));
  }

  /** The state after a byte that raised `raised`. */
  lemma ByteGoesOn(p: Parser, ready: bool, x: byte, raised: seq<Request>, q: Parser)
    requires Consistent(p) && !Blocked(p, ready)
    requires RaisedBy(raised, p.kept + [x]) && EndsWith(p.consumed + [x], p.kept + [x])
    requires q.consumed == p.consumed + [x] && q.kept == Scan(Next, q.consumed).rest
    requires RequestsIn(Scan(Next, q.consumed).events) == p.delivered + OnOffer(p.held) + raised
    requires q.held == Latest(if ready then None else p.held, raised)
    requires q.delivered == p.delivered + (if ready then OnOffer(p.held) else [])
    requires raised != [] ==> q.kept == []
    ensures Consistent(q)
  {
    NothingIsOverwritten(p.delivered, p.held, ready, raised);
    AllAreLegal(p.delivered + OnOffer(p.held), raised);
    if raised == [] {
      assert q.held.None?;
    } else {
      assert q.held == Some(raised[0]);
    }
  }

  lemma AllAreLegal(requests: seq<Request>, raised: seq<Request>)
    requires AllRequests(requests) && |raised| <= 1 && (raised != [] ==> IsRequest(raised[0]))
    ensures AllRequests(requests + raised)
  {
  }

  /** Writing the output register loses no request when it was empty or is being emptied. */
  lemma NothingIsOverwritten(delivered: seq<Request>, held: Option<Request>, ready: bool, raised: seq<Request>)
    requires held.None? || ready
    requires |raised| <= 1
    ensures delivered + (if ready then OnOffer(held) else []) + OnOffer(Latest(if ready then None else held, raised)) ==
            delivered + OnOffer(held) + raised
  {
  }

  /** In every run the requests delivered, followed by the one on offer, are those in the consumed bytes, in
      order and of legal width; while one is on offer the consumed bytes end with its frame. */
  lemma {:induction false} EveryRunIsConsistent(p: Parser, inputs: seq<Inputs>)
    requires Consistent(p)
    ensures Consistent(Run(p, inputs))
    decreases |inputs|
  {
    if inputs != [] {
      StepIsConsistent(p, inputs[0]);
      EveryRunIsConsistent(Step(p, inputs[0]), inputs[1..]);
    }
  }

  /** The error pulses of a run, in order. */
  function ReportedIn(p: Parser, inputs: seq<Inputs>): seq<Reason>
    decreases |inputs|
  {
    if inputs == [] then [] else Step(p, inputs[0]).reported + ReportedIn(Step(p, inputs[0]), inputs[1..])
  }

  lemma {:induction false} ReasonsInAppend(a: seq<Event>, b: seq<Event>)
    ensures ReasonsIn(a + b) == ReasonsIn(a) + ReasonsIn(b)
    decreases |a|
  {
    if a == [] {
      assert a + b == b;
    } else {
      assert (a + b)[1..] == a[1..] + b;
      ReasonsInAppend(a[1..], b);
      Associate(if a[0].Refused? then [a[0].reason] else [], ReasonsIn(a[1..]), ReasonsIn(b));
    }
  }

  lemma StepReports(p: Parser, i: Inputs)
    requires Scan(Next, p.consumed).rest == p.kept
    ensures ReasonsIn(Scan(Next, Step(p, i).consumed).events) == ReasonsIn(Scan(Next, p.consumed).events) + Step(p, i).reported
  {
    if i.arriving.Some? && !Blocked(p, i.ready) {
      NextIsStable();
      ScanSplit(Next, p.consumed, [i.arriving.value]);
      ReasonsInAppend(Scan(Next, p.consumed).events, Scan(Next, p.kept + [i.arriving.value]).events);
    }
  }

  /** Over every run exactly the refused frames in the consumed bytes are reported, each once, in order. */
  lemma {:induction false} ErrorsAreReported(p: Parser, inputs: seq<Inputs>)
    requires Consistent(p)
    ensures ReasonsIn(Scan(Next, Run(p, inputs).consumed).events) ==
            ReasonsIn(Scan(Next, p.consumed).events) + ReportedIn(p, inputs)
    decreases |inputs|
  {
    if inputs == [] {
      assert ReasonsIn(Scan(Next, p.consumed).events) + [] == ReasonsIn(Scan(Next, p.consumed).events);
    } else {
      var q := Step(p, inputs[0]);
      StepReports(p, inputs[0]);
      StepIsConsistent(p, inputs[0]);
      ErrorsAreReported(q, inputs[1..]);
      Associate(ReasonsIn(Scan(Next, p.consumed).events), q.reported, ReportedIn(q, inputs[1..]));
    }
  }

  lemma HeldRequestIsStable(p: Parser, i: Inputs)
    requires Blocked(p, i.ready)
    ensures var q := Step(p, i);
            q.held == p.held && q.delivered == p.delivered && q.kept == p.kept && q.consumed == p.consumed
  {
  }

  /** Every arriving byte is consumed, except those that arrive while a request waits: they are lost. */
  lemma {:induction false} BytesAreConsumedOrLost(p: Parser, inputs: seq<Inputs>)
    ensures |Run(p, inputs).consumed| + Run(p, inputs).lost == |p.consumed| + p.lost + |Arriving(inputs)|
    ensures Run(p, inputs).lost == p.lost <==> Run(p, inputs).consumed == p.consumed + Arriving(inputs)
    ensures p.lost <= Run(p, inputs).lost
    decreases |inputs|
  {
    if inputs == [] {
      assert p.consumed + [] == p.consumed;
    } else {
      var q := Step(p, inputs[0]);
      BytesAreConsumedOrLost(q, inputs[1..]);
      if inputs[0].arriving.Some? {
        Associate(p.consumed, [inputs[0].arriving.value], Arriving(inputs[1..]));
      } else {
        assert [] + Arriving(inputs[1..]) == Arriving(inputs[1..]);
      }
    }
  }

  // ----------------------------------------------------------------- host requests

  function AsEvents(requests: seq<Request>): seq<Event> {
    seq(|requests|, k requires 0 <= k < |requests| => Requested(requests[k]))
  }

  function HostStream(requests: seq<Request>): seq<byte> {
    EncodeAll(Spelling, AsEvents(requests))
  }

  lemma {:induction false} RequestsInAsEvents(requests: seq<Request>)
    ensures RequestsIn(AsEvents(requests)) == requests
    decreases |requests|
  {
    if requests != [] {
      assert AsEvents(requests)[1..] == AsEvents(requests[1..]);
      RequestsInAsEvents(requests[1..]);
      assert requests == [requests[0]] + requests[1..];
    }
  }

  lemma AllAreRecognised(requests: seq<Request>)
    requires AllRequests(requests)
    ensures forall e | e in AsEvents(requests) :: Encodes(Next, Spelling, e)
  {
    forall e | e in AsEvents(requests)
      ensures Encodes(Next, Spelling, e)
    {
      var j :| 0 <= j < |requests| && e == Requested(requests[j]);
      RequestsAreRecognised(requests[j]);
    }
  }

  lemma BeginningIsParsed(requests: seq<Request>, input: seq<byte>) returns (k: nat)
    requires AllRequests(requests) && input <= HostStream(requests)
    ensures k <= |requests| && RequestsIn(Scan(Next, input).events) == requests[..k]
    ensures input == HostStream(requests[..k]) + Scan(Next, input).rest
    ensures if k == |requests| then Scan(Next, input).rest == []
            else Scan(Next, input).rest < RequestFrame(requests[k])
  {
    NextIsStable();
    AllAreRecognised(requests);
    k := TruncatedStream(Next, Spelling, AsEvents(requests), input);
    assert AsEvents(requests)[..k] == AsEvents(requests[..k]);
    RequestsInAsEvents(requests[..k]);
  }

  /** A stream of encoded requests, with any timing in which no byte arrives while a request waits, yields
      exactly those requests, in order: those completely received are delivered or on offer. */
  lemma HostRequestsArrive(requests: seq<Request>, inputs: seq<Inputs>) returns (k: nat)
    requires AllRequests(requests)
    requires Arriving(inputs) <= HostStream(requests)
    requires Run(AFTER_RESET, inputs).lost == 0
    ensures k <= |requests|
    ensures var p := Run(AFTER_RESET, inputs);
            && p.delivered + OnOffer(p.held) == requests[..k]
            && Arriving(inputs) == HostStream(requests[..k]) + p.kept
            && (k == |requests| <==> Arriving(inputs) == HostStream(requests))
  {
    var p := Run(AFTER_RESET, inputs);
    EveryRunIsConsistent(AFTER_RESET, inputs);
    NothingLost(inputs);
    k := BeginningIsParsed(requests, p.consumed);
    HostStreamSplit(requests, k);
    if k == |requests| {
      assert requests[..k] == requests && Arriving(inputs) == HostStream(requests) + [];
    }
  }

  lemma NothingLost(inputs: seq<Inputs>)
    ensures Run(AFTER_RESET, inputs).lost == 0 <==> Run(AFTER_RESET, inputs).consumed == Arriving(inputs)
  {
    BytesAreConsumedOrLost(AFTER_RESET, inputs);
    assert [] + Arriving(inputs) == Arriving(inputs);
  }

  lemma HostStreamSplit(requests: seq<Request>, k: nat)
    requires k <= |requests|
    ensures k < |requests| ==> |HostStream(requests[..k])| + |RequestFrame(requests[k])| <= |HostStream(requests)|
  {
    if k < |requests| {
      var a, b := AsEvents(requests[..k]), AsEvents(requests[k..]);
      assert AsEvents(requests) == a + b;
      EncodeAllAppend(Spelling, a, b);
      assert b[0] == Requested(requests[k]);
    }
  }

  /** The host's encoders produce such frames, with width 4. */
  lemma HostFramesAreRequestFrames(sequence: u16, address: u16, data: u32, mask: u32)
    ensures MonitorReadFrame(sequence, address) == RequestFrame(Request(sequence, address, false, 4, 0, 0))
    ensures MonitorWriteFrame(sequence, address, data, mask) == RequestFrame(Request(sequence, address, true, 4, data, mask))
  {
  }
}
