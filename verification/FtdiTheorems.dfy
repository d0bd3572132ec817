/** The FT232H backend against the mock backend, over a target whose payload scan consumes the bytes
    in hardware. */
module FtdiTheorems {
  import opened Bytes
  import opened Wrappers
  import opened Mailbox
  import opened MailboxHeader
  import opened MailboxTheorems
  import opened BridgeTransaction
  import opened BridgeWorld
  import opened FtdiBackend

  // --------------------------------------------------------- the deferred commit check

  /** A sequence of attempts to start a transaction, each with the header scan it got. */
  function Attempts(buildId: u32, s: FtdiBackend.State, scans: seq<FtdiBackend.Scan>): FtdiBackend.State
    decreases |scans|
  {
    if scans == [] then s
    else Attempts(buildId, AfterReadHeader(buildId, s, scans[0]), scans[1..])
  }

  /** The target confirms the read count that the last commit expects. */
  predicate Confirms(buildId: u32, scan: FtdiBackend.Scan, expected: u32) {
    ParseHeader(scan).Ok? && ParseHeader(scan).value.buildId == buildId && ParseHeader(scan).value.readCount == expected
  }

  /** Exactly which headers are let through, and what is then remembered. */
  lemma HeaderIsLetThroughIff(buildId: u32, s: FtdiBackend.State, scan: FtdiBackend.Scan)
    ensures var r, t := Gate(buildId, s, scan), AfterReadHeader(buildId, s, scan);
            && (r.Ok? <==>
                  && s.isOpen && scan.Some? && Unpack(scan.value).Ok? && Unpack(scan.value).value.buildId == buildId
                  && (s.expectedReadCount.Some? ==> Unpack(scan.value).value.readCount == s.expectedReadCount.value))
            && (r.Ok? ==> r.value == Unpack(scan.value).value && t.header == Some(r.value) && t.expectedReadCount.None?)
            && (r.Err? ==> t == s)
            && t.lastBlock == s.lastBlock && t.isOpen == s.isOpen
  {
  }

  /** Exactly which blocks are taken: one at a time, of a length the last header announced, complete, under the
      numbers of that header. */
  lemma BlockIsTakenIff(s: FtdiBackend.State, length: int, scan: FtdiBackend.Scan)
    ensures var r, t := TakeBlock(s, length, scan), AfterReadBlock(s, length, scan);
            && (r.Ok? <==>
                  && s.isOpen && s.lastBlock.None? && s.header.Some? && 1 <= length <= s.header.value.availableBytes
                  && scan.Some? && |scan.value| == length)
            && (r.Ok? ==>
                  && r.value.sessionId == s.header.value.sessionId && r.value.startCount == s.header.value.readCount
                  && r.value.data == scan.value && t.lastBlock == Some(r.value))
            && (r.Err? ==> t == s)
            && t.header == s.header && t.expectedReadCount == s.expectedReadCount && t.isOpen == s.isOpen
  {
  }

  /** A block is committed at most once, and a closed backend takes nothing until it is opened again. */
  lemma CommittedOnce(s: FtdiBackend.State, b: Block, length: int, scan: FtdiBackend.Scan, buildId: u32)
    ensures !IsLastBlock(AfterCommit(s, b), b)
    ensures !IsLastBlock(Closed(s), b)
    ensures Gate(buildId, Closed(s), scan).Err? && TakeBlock(Closed(s), length, scan).Err?
  {
  }

  /** After a commit the next header is let through exactly when it shows `start + length`. */
  lemma NextHeaderChecksTheCommit(buildId: u32, s: FtdiBackend.State, b: Block, scan: FtdiBackend.Scan)
    requires s.isOpen && IsLastBlock(s, b)
    ensures Gate(buildId, AfterCommit(s, b), scan).Ok? <==> Confirms(buildId, scan, Low32(b.startCount + |b.data|))
  {
  }

  /** Until such a header arrives every attempt fails and changes nothing, however many there are. */
  lemma {:induction false} MismatchKeepsFailing(buildId: u32, s: FtdiBackend.State, scans: seq<FtdiBackend.Scan>)
    requires s.isOpen && s.expectedReadCount.Some?
    requires forall scan | scan in scans :: !Confirms(buildId, scan, s.expectedReadCount.value)
    ensures Attempts(buildId, s, scans) == s
    ensures forall scan | scan in scans :: Gate(buildId, s, scan).Err?
    decreases |scans|
  {
    if scans != [] {
      assert !Confirms(buildId, scans[0], s.expectedReadCount.value);
      assert AfterReadHeader(buildId, s, scans[0]) == s;
      MismatchKeepsFailing(buildId, s, scans[1..]);
      assert scans == [scans[0]] + scans[1..];
    }
  }

  // ------------------------------------------------------------- the hardware target

  /** A header scan of a target in state `f`. */
  function HeaderScan(f: Fifo, buildId: u32): FtdiBackend.Scan
    requires Mailbox.Ok(f)
  {
    Some(Pack(HeaderOf(f, buildId)))
  }

  function Zeros(n: nat): (zeros: seq<byte>)
    ensures |zeros| == n
  {
    if n == 0 then [] else [0] + Zeros(n - 1)
  }

  /** The bytes a payload scan of `length` bytes returns: those that wait, then zeros. */
  function Scanned(f: Fifo, length: nat): seq<byte>
    requires Mailbox.Ok(f)
  {
    var k := Min(length, Available(f));
    Contents(f)[..k] + Zeros(length - k)
  }

  /** The queue after it. */
  function Taken(f: Fifo, length: nat): (g: Fifo)
    requires Mailbox.Ok(f)
    ensures Mailbox.Ok(g)
  {
    f.(consumed := f.consumed + Min(length, Available(f)))
  }

  /** A payload scan of a legal length returns that many bytes and consumes what it took from the queue; once
      the queue is empty the target shifts out zeros. Other requests the target ignores. */
  function PayloadScan(f: Fifo, length: int): (r: (Fifo, FtdiBackend.Scan))
    requires Mailbox.Ok(f)
    ensures Mailbox.Ok(r.0)
  {
    if length < 1 || MAX_BLOCK_SIZE < length then (f, None) else (Taken(f, length), Some(Scanned(f, length)))
  }

  /** Block and commit of a transaction over the FT232H backend, after the header `h` was let through. */
  function FtdiTakeBlock(
    f1: Fifo, s1: FtdiBackend.State, h: Header, length: int, afterBlock: seq<FpgaAction>)
    : (r: (Fifo, FtdiBackend.State, Outcome))
    requires Mailbox.Ok(f1)
    ensures Mailbox.Ok(r.0)
  {
    var (f2, payload) := PayloadScan(f1, length);
    var read := TakeBlock(s1, length, payload);
    var s2 := AfterReadBlock(s1, length, payload);
    if read.Err? then (f2, s2, Raised)
    else
      var b := read.value;
      if b.sessionId != h.sessionId || b.startCount != h.readCount || |b.data| != length then (f2, s2, Raised)
      else
        var f3 := Fpga(f2, afterBlock);
        if !IsLastBlock(s2, b) then (f3, s2, Raised)
        else (f3, AfterCommit(s2, b), Delivered(h, b.data))
  }

  /** `_read_transaction` over the FT232H backend. */
  function FtdiTransact(
    c: Setup, f: Fifo, s: FtdiBackend.State, afterHeader: seq<FpgaAction>, afterBlock: seq<FpgaAction>)
    : (r: (Fifo, FtdiBackend.State, Outcome))
    requires Mailbox.Ok(f)
    ensures Mailbox.Ok(r.0)
  {
    var scan := HeaderScan(f, c.buildId);
    var gate := Gate(c.identityBuildId, s, scan);
    var s1 := AfterReadHeader(c.identityBuildId, s, scan);
    if gate.Err? then (f, s1, Raised)
    else
      var h := gate.value;
      if h.buildId != c.identityBuildId then (f, s1, Raised)
      else if h.availableBytes == 0 then (f, s1, Idle(h))
      else FtdiTakeBlock(Fpga(f, afterHeader), s1, h, Min(h.availableBytes, c.blockSize), afterBlock)
  }

  /** The deferred check passes: the target shows the read count the backend expects. */
  predicate InStep(f: Fifo, s: FtdiBackend.State)
    requires Mailbox.Ok(f)
  {
    s.isOpen && s.lastBlock.None? && (s.expectedReadCount.Some? ==> s.expectedReadCount.value == ReadCount(f))
  }

  lemma GateInStep(c: Setup, f: Fifo, s: FtdiBackend.State)
    requires Mailbox.Ok(f) && InStep(f, s)
    ensures Gate(c.identityBuildId, s, HeaderScan(f, c.buildId)) ==
            if c.buildId != c.identityBuildId then Err(BuildIdentityChanged)
            else Result.Ok(HeaderOf(f, c.buildId))
  {
    PublishedHeaderIsValid(f, c.buildId);
  }

  /** The payload scan returns and consumes what the mock's block read and commit do. */
  lemma PayloadScanIsReadAndCommit(f: Fifo, length: int, afterHeader: seq<FpgaAction>)
    requires Mailbox.Ok(f) && 1 <= length <= Min(Available(f), MAX_BLOCK_SIZE) && Quiet(afterHeader)
    ensures var f1 := Fpga(f, afterHeader);
            var t := Transaction(SessionId(Epoch(f)), ReadCount(f), Contents(f)[..length]);
            && BeginRead(f1, length) == Result.Ok(t)
            && Accepts(f1, t)
            && PayloadScan(f1, length) == (Commit(f1, t), Some(t.data))
            && ReadCount(Commit(f1, t)) == Low32(ReadCount(f) + length)
  {
    FpgaKeepsConsumed(f, afterHeader);
    BlockIsReadIff(f, length, afterHeader);
    Low32Add(f.consumed, length);
    ScannedInFull(Fpga(f, afterHeader), length);
  }

  lemma ScannedInFull(f1: Fifo, length: nat)
    requires Mailbox.Ok(f1) && length <= Available(f1)
    ensures Scanned(f1, length) == Contents(f1)[..length]
  {
    assert Contents(f1)[..length] + Zeros(0) == Contents(f1)[..length];
  }

  /** Nothing is pending but the check of a read count. */
  predicate Expects(s: FtdiBackend.State, readCount: u32) {
    s.isOpen && s.lastBlock.None? && s.expectedReadCount == Some(readCount)
  }

  lemma BlockIsAlwaysTaken(
    f1: Fifo, s1: FtdiBackend.State, h: Header, length: int, afterBlock: seq<FpgaAction>)
    requires Mailbox.Ok(f1) && s1.isOpen && s1.lastBlock.None? && s1.header == Some(h)
    requires 1 <= length <= Min(h.availableBytes, MAX_BLOCK_SIZE)
    ensures var r := FtdiTakeBlock(f1, s1, h, length, afterBlock);
            && r.0 == Fpga(Taken(f1, length), afterBlock)
            && Expects(r.1, Low32(h.readCount + length))
            && r.2 == Delivered(h, Scanned(f1, length))
  {
  }

  /** In step, with bytes announced, a transaction over this backend always delivers: the bytes that wait at the
      payload scan, filled up with zeros, under the numbers of the header. */
  lemma FtdiAlwaysDelivers(
    c: Setup, f: Fifo, s: FtdiBackend.State, afterHeader: seq<FpgaAction>, afterBlock: seq<FpgaAction>)
    requires ValidSetup(c) && Mailbox.Ok(f) && InStep(f, s)
    requires c.buildId == c.identityBuildId && Available(f) != 0
    ensures var r := FtdiTransact(c, f, s, afterHeader, afterBlock);
            var length := Min(Available(f), c.blockSize);
            var f1 := Fpga(f, afterHeader);
            && r.0 == Fpga(Taken(f1, length), afterBlock)
            && Expects(r.1, Low32(ReadCount(f) + length))
            && r.2 == Delivered(HeaderOf(f, c.buildId), Scanned(f1, length))
  {
    GateInStep(c, f, s);
    var h := HeaderOf(f, c.buildId);
    var s1 := s.(expectedReadCount := None, header := Some(h));
    BlockIsAlwaysTaken(Fpga(f, afterHeader), s1, h, Min(Available(f), c.blockSize), afterBlock);
  }

  lemma MockDeliversBlock(c: Setup, f: Fifo, afterHeader: seq<FpgaAction>)
    requires ValidSetup(c) && Mailbox.Ok(f) && Quiet(afterHeader)
    requires c.buildId == c.identityBuildId && Available(f) != 0
    ensures var length := Min(Available(f), c.blockSize);
            var f1 := Fpga(f, afterHeader);
            Transact(c, f, afterHeader, []) == (Taken(f1, length), Delivered(HeaderOf(f, c.buildId), Scanned(f1, length)))
  {
    FpgaKeepsConsumed(f, afterHeader);
    TransactionDelivers(c, f, afterHeader, []);
    ScannedInFull(Fpga(f, afterHeader), Min(Available(f), c.blockSize));
    assert Fpga(Fpga(f, afterHeader), []) == Fpga(f, afterHeader);
  }

  lemma StaysInStep(f: Fifo, s: FtdiBackend.State, afterHeader: seq<FpgaAction>, length: nat)
    requires Mailbox.Ok(f) && Quiet(afterHeader) && length <= Available(f)
    requires Expects(s, Low32(ReadCount(f) + length))
    ensures InStep(Taken(Fpga(f, afterHeader), length), s)
  {
    FpgaKeepsConsumed(f, afterHeader);
    Low32Add(f.consumed, length);
  }

  /** While no reset falls between the header scan and the payload scan, a transaction over this backend
      is the mock's transaction with nothing between block and commit, followed by whatever the FPGA did
      after the payload scan; and the backend expects exactly the read count the target then shows. */
  lemma FtdiTransactionIsMockTransaction(
    c: Setup, f: Fifo, s: FtdiBackend.State, afterHeader: seq<FpgaAction>, afterBlock: seq<FpgaAction>)
    requires ValidSetup(c) && Mailbox.Ok(f) && InStep(f, s) && Quiet(afterHeader)
    ensures var (g, s', outcome) := FtdiTransact(c, f, s, afterHeader, afterBlock);
            var (m, mock) := Transact(c, f, afterHeader, []);
            && outcome == mock
            && g == (if outcome.Delivered? then Fpga(m, afterBlock) else m)
            && InStep(m, s')
  {
    if c.buildId == c.identityBuildId && Available(f) != 0 {
      FtdiAlwaysDelivers(c, f, s, afterHeader, afterBlock);
      MockDeliversBlock(c, f, afterHeader);
      var t := FtdiTransact(c, f, s, afterHeader, afterBlock).1;
      StaysInStep(f, t, afterHeader, Min(Available(f), c.blockSize));
    } else {
      NothingToTransact(c, f, s, afterHeader, afterBlock);
    }
  }

  lemma NothingToTransact(
    c: Setup, f: Fifo, s: FtdiBackend.State, afterHeader: seq<FpgaAction>, afterBlock: seq<FpgaAction>)
    requires ValidSetup(c) && Mailbox.Ok(f) && InStep(f, s)
    requires c.buildId != c.identityBuildId || Available(f) == 0
    ensures var r := FtdiTransact(c, f, s, afterHeader, afterBlock);
            (r.0, r.2) == Transact(c, f, afterHeader, []) && r.0 == f && InStep(f, r.1) && !r.2.Delivered?
  {
    GateInStep(c, f, s);
  }

  /** The backend that is out of step raises and touches nothing. */
  lemma OutOfStepRaises(
    c: Setup, f: Fifo, s: FtdiBackend.State, afterHeader: seq<FpgaAction>, afterBlock: seq<FpgaAction>)
    requires Mailbox.Ok(f) && s.lastBlock.None? && !InStep(f, s)
    ensures FtdiTransact(c, f, s, afterHeader, afterBlock) == (f, s, Raised)
  {
    PublishedHeaderIsValid(f, c.buildId);
  }

  /** The target after a reset and one new byte. */
  lemma ResetThenWrite(c: Setup, f: Fifo, newByte: byte)
    requires ValidSetup(c) && Mailbox.Ok(f)
    ensures var g := Fpga(f, [FpgaResets, FpgaWrites([newByte])]);
            && g == Fifo(f.capacity, f.past + [f.accepted], [newByte], 0, 0, 0)
            && BeginRead(g, 1) == Result.Ok(Transaction(SessionId(Epoch(f) + 1), 0, [newByte]))
  {
    var actions := [FpgaResets, FpgaWrites([newByte])];
    assert actions == [FpgaResets] + [FpgaWrites([newByte])];
    FpgaAppend(f, [FpgaResets], [FpgaWrites([newByte])]);
    OneAction(f, FpgaResets);
    OneAction(Reset(f), FpgaWrites([newByte]));
    var g := Fpga(f, actions);
    assert Reset(f).accepted + [newByte][..1] == [newByte];
    assert Contents(g)[..1] == [newByte];
  }

  /** A reset between header and payload scan is not noticed: the block carries bytes of the new
      session under the old identifier. */
  lemma ResetInsideTransactionMislabels(c: Setup, f: Fifo, s: FtdiBackend.State, newByte: byte)
    requires ValidSetup(c) && Mailbox.Ok(f) && InStep(f, s) && c.buildId == c.identityBuildId
    requires Available(f) == 1
    ensures FtdiTransact(c, f, s, [FpgaResets, FpgaWrites([newByte])], []).2 == Delivered(HeaderOf(f, c.buildId), [newByte])
    ensures AcceptedIn(FtdiTransact(c, f, s, [FpgaResets, FpgaWrites([newByte])], []).0, Epoch(f) + 1) == [newByte]
  {
    GateInStep(c, f, s);
    ResetThenWrite(c, f, newByte);
    var g := PayloadScan(Fpga(f, [FpgaResets, FpgaWrites([newByte])]), 1).0;
    assert Fpga(g, []) == g;
  }

  /** The exact condition, for any number of resets between header and payload scan: the outcome is the mock's if
      and only if the target still shows the numbers of the header and has the bytes it announced. */
  lemma OutcomeIsMockOutcomeIff(
    c: Setup, f: Fifo, s: FtdiBackend.State, afterHeader: seq<FpgaAction>, afterBlock: seq<FpgaAction>)
    requires ValidSetup(c) && Mailbox.Ok(f) && InStep(f, s)
    requires c.buildId == c.identityBuildId && Available(f) != 0
    ensures FtdiTransact(c, f, s, afterHeader, afterBlock).2 == Transact(c, f, afterHeader, []).1 <==>
            StillShows(f, Min(Available(f), c.blockSize), afterHeader)
    ensures ResetCount(afterHeader) < SESSIONS ==>
              (StillShows(f, Min(Available(f), c.blockSize), afterHeader) <==> Quiet(afterHeader))
  {
    var length := Min(Available(f), c.blockSize);
    FtdiAlwaysDelivers(c, f, s, afterHeader, afterBlock);
    TransactionDeliversIff(c, f, afterHeader, []);
    if ResetCount(afterHeader) < SESSIONS {
      FewResetsStillShow(f, length, afterHeader);
    }
  }

  /** After a reset between header and payload scan the next header shows the mistake exactly when the bytes
      taken from the new session do not add up to the read count the backend expects. */
  lemma NextHeaderRefusedIff(
    c: Setup, f: Fifo, s: FtdiBackend.State, afterHeader: seq<FpgaAction>, afterBlock: seq<FpgaAction>)
    requires ValidSetup(c) && Mailbox.Ok(f) && InStep(f, s)
    requires c.buildId == c.identityBuildId && Available(f) != 0
    requires !Quiet(afterHeader) && Quiet(afterBlock)
    ensures var (g, s', _) := FtdiTransact(c, f, s, afterHeader, afterBlock);
            var length := Min(Available(f), c.blockSize);
            Gate(c.identityBuildId, s', HeaderScan(g, c.buildId)) == Err(CommitMismatch) <==>
              Low32(ReadCount(f) + length) != Min(length, Available(Fpga(f, afterHeader)))
  {
    FtdiAlwaysDelivers(c, f, s, afterHeader, afterBlock);
    FpgaKeepsConsumed(f, afterHeader);
    var (g, s', _) := FtdiTransact(c, f, s, afterHeader, afterBlock);
    FpgaKeepsConsumed(Taken(Fpga(f, afterHeader), Min(Available(f), c.blockSize)), afterBlock);
    GateOfHeader(c, g, s');
  }

  lemma GateOfHeader(c: Setup, g: Fifo, s: FtdiBackend.State)
    requires Mailbox.Ok(g) && s.isOpen && s.expectedReadCount.Some? && c.buildId == c.identityBuildId
    ensures Gate(c.identityBuildId, s, HeaderScan(g, c.buildId)) == Err(CommitMismatch) <==>
            s.expectedReadCount.value != ReadCount(g)
  {
    PublishedHeaderIsValid(g, c.buildId);
  }

  /** Over the mock backend the same interference makes the transaction raise. */
  lemma MockNoticesTheReset(c: Setup, f: Fifo, newByte: byte)
    requires ValidSetup(c) && Mailbox.Ok(f) && Available(f) == 1
    ensures Transact(c, f, [FpgaResets, FpgaWrites([newByte])], []).1 == Raised
  {
    ResetThenWrite(c, f, newByte);
    SessionIdRepeats(Epoch(f), 1);
  }

  // ------------------------------------------------- early and late consumption compared

  predicate MoreRoom(g: Fifo, h: Fifo)
    requires Mailbox.Ok(g) && Mailbox.Ok(h)
  {
    Room(g) <= Room(h) && h.dropped <= g.dropped
  }

  lemma {:induction false} MoreRoomDropsLess(g: Fifo, h: Fifo, actions: seq<FpgaAction>)
    requires Mailbox.Ok(g) && Mailbox.Ok(h) && Quiet(actions) && MoreRoom(g, h)
    ensures MoreRoom(Fpga(g, actions), Fpga(h, actions))
    ensures h.dropped < g.dropped ==> Fpga(h, actions).dropped < Fpga(g, actions).dropped
    decreases |actions|
  {
    if actions != [] {
      assert actions[0] in actions && actions[0].FpgaWrites?;
      assert AsActions(actions)[1..] == AsActions(actions[1..]);
      var data := actions[0].data;
      MoreRoomDropsLess(Write(g, data), Write(h, data), actions[1..]);
    }
  }

  lemma {:induction false} NothingRefused(g: Fifo, n: nat, actions: seq<FpgaAction>)
    requires Mailbox.Ok(g) && Quiet(actions) && 0 < n <= Available(g)
    ensures var h := g.(consumed := g.consumed + n);
            Fpga(h, actions) == Fpga(g, actions).(consumed := g.consumed + n) <==> Fpga(g, actions).dropped == g.dropped
    ensures g.dropped <= Fpga(g, actions).dropped
    decreases |actions|
  {
    if actions != [] {
      assert actions[0] in actions && actions[0].FpgaWrites?;
      assert AsActions(actions)[1..] == AsActions(actions[1..]);
      var h := g.(consumed := g.consumed + n);
      var data := actions[0].data;
      if |data| <= Room(g) {
        NothingRefused(Write(g, data), n, actions[1..]);
        assert Write(h, data) == Write(g, data).(consumed := g.consumed + n);
      } else {
        NothingRefused(Write(g, data), n, actions[1..]);
        MoreRoomDropsLess(Write(g, data), Write(h, data), actions[1..]);
      }
    }
  }

  /** Consuming at the payload scan and consuming at the later commit leave the same queue if and only
      if none of the bytes written in between was refused. */
  lemma EarlyConsumptionMattersOnlyWhenFull(f: Fifo, length: int, afterBlock: seq<FpgaAction>)
    requires Mailbox.Ok(f) && BeginRead(f, length).Ok? && Quiet(afterBlock)
    ensures var t := BeginRead(f, length).value;
            && Accepts(f, t) && Accepts(Fpga(f, afterBlock), t)
            && (Fpga(Commit(f, t), afterBlock) == Commit(Fpga(f, afterBlock), t) <==>
                Fpga(f, afterBlock).dropped == f.dropped)
  {
    FpgaKeepsConsumed(f, afterBlock);
    CommitSucceedsIff(f, length, afterBlock);
    NothingRefused(f, length, afterBlock);
  }

  // ------------------------------------------------------- the whole system over FTDI

  datatype FtdiStep =
    | FtdiPump(afterHeader: seq<FpgaAction>, afterBlock: seq<FpgaAction>)
    | Other(step: Step)

  /** Steps as they are over this backend: the pump is `FtdiPump`, and no reset falls between a header scan and
      its payload scan. A reconnect may fail, because the target is listed but its scanner cannot be opened. */
  predicate FtdiAllows(step: FtdiStep) {
    match step
    case FtdiPump(afterHeader, _) => Quiet(afterHeader)
    case Other(other) => !other.Pump?
  }

  function FtdiNext(c: Setup, w: World, s: FtdiBackend.State, step: FtdiStep): (r: (World, FtdiBackend.State))
    requires Mailbox.Ok(w.fifo)
    ensures Mailbox.Ok(r.0.fifo)
  {
    match step
    case FtdiPump(afterHeader, afterBlock) =>
      if !w.isOpen then (w, s)
      else
        var (g, s', outcome) := FtdiTransact(c, w.fifo, s, afterHeader, afterBlock);
        (Handle(c, w, g, outcome), s')
    case Other(other) =>
      var v := Next(c, w, other);
      if other.Reconnect? && v.isOpen then
        (v, Closed(s).(isOpen := true, header := Some(HeaderOf(w.fifo, c.buildId))))
      else if other.Reconnect? || other.Shutdown? then (v, Closed(s))
      else (v, s)
  }

  function FtdiRun(c: Setup, w: World, s: FtdiBackend.State, steps: seq<FtdiStep>): (r: (World, FtdiBackend.State))
    requires Mailbox.Ok(w.fifo)
    decreases |steps|
  {
    if steps == [] then (w, s)
    else
      var (v, t) := FtdiNext(c, w, s, steps[0]);
      FtdiRun(c, v, t, steps[1..])
  }

  function FpgaSteps(actions: seq<FpgaAction>): seq<Step> {
    if actions == [] then [] else [FpgaStep(actions[0])] + FpgaSteps(actions[1..])
  }

  /** The steps over the mock backend that have the same effect. */
  function AsMockSteps(c: Setup, w: World, s: FtdiBackend.State, step: FtdiStep): seq<Step>
    requires Mailbox.Ok(w.fifo)
  {
    match step
    case Other(other) => [other]
    case FtdiPump(afterHeader, afterBlock) =>
      if !w.isOpen || !InStep(w.fifo, s) then []
      else if Transact(c, w.fifo, afterHeader, []).1.Delivered? then [Pump(afterHeader, [])] + FpgaSteps(afterBlock)
      else [Pump(afterHeader, [])]
  }

  function AllAsMockSteps(c: Setup, w: World, s: FtdiBackend.State, steps: seq<FtdiStep>): seq<Step>
    requires Mailbox.Ok(w.fifo)
    decreases |steps|
  {
    if steps == [] then []
    else
      var (v, t) := FtdiNext(c, w, s, steps[0]);
      AsMockSteps(c, w, s, steps[0]) + AllAsMockSteps(c, v, t, steps[1..])
  }

  lemma {:induction false} RunWorldAppend(c: Setup, w: World, a: seq<Step>, b: seq<Step>)
    requires Mailbox.Ok(w.fifo)
    ensures RunWorld(c, w, a + b) == RunWorld(c, RunWorld(c, w, a), b)
    decreases |a|
  {
    if a == [] {
      assert a + b == b;
    } else {
      assert (a + b)[1..] == a[1..] + b;
      RunWorldAppend(c, Next(c, w, a[0]), a[1..], b);
    }
  }

  lemma {:induction false} RunFpgaSteps(c: Setup, w: World, actions: seq<FpgaAction>)
    requires Mailbox.Ok(w.fifo)
    ensures RunWorld(c, w, FpgaSteps(actions)) == w.(fifo := Fpga(w.fifo, actions))
    ensures forall step | step in FpgaSteps(actions) :: FewResets(step)
    decreases |actions|
  {
    if actions != [] {
      var v := w.(fifo := Fpga(w.fifo, [actions[0]]));
      assert FpgaSteps(actions)[1..] == FpgaSteps(actions[1..]);
      RunFpgaSteps(c, v, actions[1..]);
      FpgaAppend(w.fifo, [actions[0]], actions[1..]);
      assert [actions[0]] + actions[1..] == actions;
    }
  }

  lemma HandleCommutes(c: Setup, w: World, m: Fifo, g: Fifo, outcome: Outcome)
    ensures Handle(c, w, g, outcome) == Handle(c, w, m, outcome).(fifo := g)
    ensures Handle(c, w, m, outcome).fifo == m
  {
  }

  /** What the FPGA does after the commit may as well be done after the pump. */
  lemma PumpThenFpga(c: Setup, w: World, a: seq<FpgaAction>, b: seq<FpgaAction>, g: Fifo)
    requires Mailbox.Ok(w.fifo) && w.isOpen && Quiet(a)
    requires var (m, outcome) := Transact(c, w.fifo, a, []);
             g == if outcome.Delivered? then Fpga(m, b) else m
    ensures var (_, outcome) := Transact(c, w.fifo, a, []);
            var steps := if outcome.Delivered? then [Pump(a, [])] + FpgaSteps(b) else [Pump(a, [])];
            && Handle(c, w, g, outcome) == RunWorld(c, w, steps)
            && forall other | other in steps :: FewResets(other)
  {
    var (m, outcome) := Transact(c, w.fifo, a, []);
    FpgaKeepsConsumed(w.fifo, a);
    HandleCommutes(c, w, m, g, outcome);
    OneStep(c, w, Pump(a, []));
    if outcome.Delivered? {
      RunFpgaSteps(c, Handle(c, w, m, outcome), b);
      RunWorldAppend(c, w, [Pump(a, [])], FpgaSteps(b));
    }
  }

  lemma FtdiPumpInStep(c: Setup, w: World, s: FtdiBackend.State, a: seq<FpgaAction>, b: seq<FpgaAction>)
    requires ValidSetup(c) && Mailbox.Ok(w.fifo) && Quiet(a) && w.isOpen && InStep(w.fifo, s)
    ensures var (v, t) := FtdiNext(c, w, s, FtdiPump(a, b));
            && v == RunWorld(c, w, AsMockSteps(c, w, s, FtdiPump(a, b)))
            && t.isOpen && t.lastBlock.None? && v.isOpen
    ensures forall other | other in AsMockSteps(c, w, s, FtdiPump(a, b)) :: FewResets(other)
  {
    FtdiTransactionIsMockTransaction(c, w.fifo, s, a, b);
    PumpThenFpga(c, w, a, b, FtdiTransact(c, w.fifo, s, a, b).0);
  }

  lemma FtdiPumpIsMockPump(c: Setup, w: World, s: FtdiBackend.State, step: FtdiStep)
    requires ValidSetup(c) && Mailbox.Ok(w.fifo) && step.FtdiPump? && FtdiAllows(step)
    requires s.isOpen == w.isOpen && s.lastBlock.None?
    ensures var (v, t) := FtdiNext(c, w, s, step);
            && v == RunWorld(c, w, AsMockSteps(c, w, s, step))
            && t.isOpen == v.isOpen && t.lastBlock.None?
    ensures forall other | other in AsMockSteps(c, w, s, step) :: FewResets(other)
  {
    var a, b := step.afterHeader, step.afterBlock;
    if w.isOpen {
      if InStep(w.fifo, s) {
        FtdiPumpInStep(c, w, s, a, b);
      } else {
        OutOfStepRaises(c, w.fifo, s, a, b);
        assert w.(fifo := w.fifo) == w;
      }
    }
  }

  lemma OneStep(c: Setup, w: World, step: Step)
    requires Mailbox.Ok(w.fifo)
    ensures RunWorld(c, w, [step]) == Next(c, w, step)
  {
  }

  /** The bridge over this backend produces what the bridge over the mock does, for some schedule of the
      same FPGA actions; so exactly-once delivery and gap-free streams carry over. */
  lemma {:induction false} FtdiRunIsMockRun(c: Setup, w: World, s: FtdiBackend.State, steps: seq<FtdiStep>)
    requires ValidSetup(c) && Mailbox.Ok(w.fifo)
    requires s.isOpen == w.isOpen && s.lastBlock.None?
    requires forall step | step in steps :: FtdiAllows(step)
    ensures FtdiRun(c, w, s, steps).0 == RunWorld(c, w, AllAsMockSteps(c, w, s, steps))
    ensures forall step | step in AllAsMockSteps(c, w, s, steps) :: FewResets(step)
    decreases |steps|
  {
    if steps != [] {
      var (v, t) := FtdiNext(c, w, s, steps[0]);
      var first := AsMockSteps(c, w, s, steps[0]);
      assert FtdiAllows(steps[0]);
      if steps[0].FtdiPump? {
        FtdiPumpIsMockPump(c, w, s, steps[0]);
      } else {
        OtherStepIsMockStep(c, w, s, steps[0]);
      }
      FtdiRunIsMockRun(c, v, t, steps[1..]);
      RunWorldAppend(c, w, first, AllAsMockSteps(c, v, t, steps[1..]));
    }
  }

  lemma OtherStepIsMockStep(c: Setup, w: World, s: FtdiBackend.State, step: FtdiStep)
    requires Mailbox.Ok(w.fifo) && step.Other? && FtdiAllows(step)
    requires s.isOpen == w.isOpen && s.lastBlock.None?
    ensures var (v, t) := FtdiNext(c, w, s, step);
            && v == RunWorld(c, w, AsMockSteps(c, w, s, step))
            && t.isOpen == v.isOpen && t.lastBlock.None?
    ensures forall other | other in AsMockSteps(c, w, s, step) :: FewResets(other)
  {
  }
}
