/** One header / block / commit transaction of the bridge, with the FPGA writing and resetting the
    mailbox between the three calls. */
module BridgeTransaction {
  import opened Bytes
  import opened Wrappers
  import opened Mailbox
  import opened MailboxHeader
  import opened MailboxTheorems

  /** What the FPGA may do to the mailbox at any time. */
  datatype FpgaAction = FpgaWrites(data: seq<byte>) | FpgaResets

  function AsAction(a: FpgaAction): Action {
    match a
    case FpgaWrites(data) => Writing(data)
    case FpgaResets => Resetting
  }

  function AsActions(actions: seq<FpgaAction>): seq<Action> {
    if actions == [] then [] else [AsAction(actions[0])] + AsActions(actions[1..])
  }

  function Fpga(f: Fifo, actions: seq<FpgaAction>): (g: Fifo)
    requires Mailbox.Ok(f)
    ensures Mailbox.Ok(g)
  {
    Run(f, AsActions(actions))
  }

  predicate Quiet(actions: seq<FpgaAction>) {
    FpgaResets !in actions
  }

  function ResetCount(actions: seq<FpgaAction>): nat {
    Resets(AsActions(actions))
  }

  datatype Outcome = Raised | Idle(header: Header) | Delivered(header: Header, data: seq<byte>)

  datatype Setup = Setup(
    buildId: u32,          // what the mailbox publishes
    identityBuildId: u32,  // what the selected target identity says
    blockSize: nat, queueDepth: nat)

  ghost predicate ValidSetup(c: Setup) {
    1 <= c.blockSize <= MAX_BLOCK_SIZE && 1 <= c.queueDepth
  }

  /** `_read_transaction` over the mock backend. `afterHeader` happens between the header read and the
      block read, `afterBlock` between the block read and the commit. */
  function Transact(c: Setup, f: Fifo, afterHeader: seq<FpgaAction>, afterBlock: seq<FpgaAction>): (r: (Fifo, Outcome))
    requires Mailbox.Ok(f)
    ensures Mailbox.Ok(r.0)
  {
    var h := HeaderOf(f, c.buildId);
    if h.buildId != c.identityBuildId then (f, Raised)
    else if h.availableBytes == 0 then (f, Idle(h))
    else
      var length := Min(h.availableBytes, c.blockSize);
      var f1 := Fpga(f, afterHeader);
      var read := BeginRead(f1, length);
      if read.Err? then (f1, Raised)
      else
        var t := read.value;
        if t.sessionId != h.sessionId || t.startCount != h.readCount || |t.data| != length then (f1, Raised)
        else
          var f2 := Fpga(f1, afterBlock);
          if !Accepts(f2, t) then (f2, Raised)
          else (Commit(f2, t), Delivered(h, t.data))
  }

  /** The actions that reach the mailbox during a transaction: what the FPGA does up to the point where the
      transaction ends, and its commit. */
  function TransactActions(c: Setup, f: Fifo, afterHeader: seq<FpgaAction>, afterBlock: seq<FpgaAction>): seq<Action>
    requires Mailbox.Ok(f)
  {
    if c.buildId != c.identityBuildId || Available(f) == 0 then []
    else
      var length := Min(Available(f), c.blockSize);
      var read := BeginRead(Fpga(f, afterHeader), length);
      if read.Err? || read.value.sessionId != SessionId(Epoch(f)) || read.value.startCount != ReadCount(f) then
        AsActions(afterHeader)
      else
        AsActions(afterHeader) + AsActions(afterBlock) + [Committing(read.value)]
  }

  lemma {:induction false} RunAppend(f: Fifo, a: seq<Action>, b: seq<Action>)
    requires Mailbox.Ok(f)
    ensures Run(f, a + b) == Run(Run(f, a), b)
    decreases |a|
  {
    if a == [] {
      assert a + b == b;
    } else {
      assert (a + b)[1..] == a[1..] + b;
      RunAppend(Step(f, a[0]), a[1..], b);
    }
  }

  lemma OneMailboxAction(f: Fifo, a: Action)
    requires Mailbox.Ok(f)
    ensures Run(f, [a]) == Step(f, a)
  {
    assert [a][1..] == [];
  }

  lemma BothThenCommit(f: Fifo, a: seq<FpgaAction>, b: seq<FpgaAction>, t: Transaction)
    requires Mailbox.Ok(f)
    ensures Run(f, AsActions(a) + AsActions(b) + [Committing(t)]) == Step(Fpga(Fpga(f, a), b), Committing(t))
  {
    RunAppend(f, AsActions(a), AsActions(b));
    RunAppend(f, AsActions(a) + AsActions(b), [Committing(t)]);
    OneMailboxAction(Fpga(Fpga(f, a), b), Committing(t));
  }

  /** The mailbox after a transaction is the one after these actions. */
  lemma TransactIsRun(c: Setup, f: Fifo, afterHeader: seq<FpgaAction>, afterBlock: seq<FpgaAction>)
    requires ValidSetup(c) && Mailbox.Ok(f)
    ensures Transact(c, f, afterHeader, afterBlock).0 == Run(f, TransactActions(c, f, afterHeader, afterBlock))
  {
    if c.buildId == c.identityBuildId && Available(f) != 0 {
      var read := BeginRead(Fpga(f, afterHeader), Min(Available(f), c.blockSize));
      if read.Ok? {
        BothThenCommit(f, afterHeader, afterBlock, read.value);
      }
    }
  }

  // -------------------------------------------------------------------- FPGA runs

  lemma {:induction false} FpgaKeepsConsumed(f: Fifo, actions: seq<FpgaAction>)
    requires Mailbox.Ok(f)
    ensures Quiet(actions) <==> ResetCount(actions) == 0
    ensures Epoch(Fpga(f, actions)) == Epoch(f) + ResetCount(actions)
    ensures Quiet(actions) ==>
              var g := Fpga(f, actions);
              g.consumed == f.consumed && f.accepted <= g.accepted && g.past == f.past
    ensures !Quiet(actions) ==> Fpga(f, actions).consumed == 0
    decreases |actions|
  {
    if actions != [] {
      var g := Step(f, AsAction(actions[0]));
      FpgaKeepsConsumed(g, actions[1..]);
      assert AsActions(actions)[1..] == AsActions(actions[1..]);
      assert actions == [actions[0]] + actions[1..];
    }
  }

  lemma OneAction(f: Fifo, a: FpgaAction)
    requires Mailbox.Ok(f)
    ensures Fpga(f, [a]) == Step(f, AsAction(a))
  {
    var actions := AsActions([a]);
    var none: seq<FpgaAction> := [a][1..];
    assert none == [] && AsActions(none) == [];
    assert actions == [AsAction(a)] + AsActions(none);
    assert actions[1..] == [];
    assert Run(f, actions) == Run(Step(f, actions[0]), actions[1..]);
  }

  lemma {:induction false} FpgaAppend(f: Fifo, a: seq<FpgaAction>, b: seq<FpgaAction>)
    requires Mailbox.Ok(f)
    ensures Fpga(f, a + b) == Fpga(Fpga(f, a), b)
    ensures ResetCount(a + b) == ResetCount(a) + ResetCount(b)
    decreases |a|
  {
    if a == [] {
      assert a + b == b;
    } else {
      assert (a + b)[1..] == a[1..] + b;
      assert AsActions(a)[1..] == AsActions(a[1..]);
      assert AsActions(a + b)[1..] == AsActions(a[1..] + b);
      FpgaAppend(Step(f, AsAction(a[0])), a[1..], b);
    }
  }

  /** After the header has been read, the block read finds the announced bytes unless a reset came
      in between; then it fails or shows another session. */
  lemma BlockIsReadIff(f: Fifo, length: int, afterHeader: seq<FpgaAction>)
    requires Mailbox.Ok(f) && 1 <= length <= Min(Available(f), MAX_BLOCK_SIZE)
    requires ResetCount(afterHeader) < SESSIONS
    ensures var f1 := Fpga(f, afterHeader);
            var read := BeginRead(f1, length);
            if Quiet(afterHeader) then
              && read == Result.Ok(Transaction(SessionId(Epoch(f)), ReadCount(f), Contents(f)[..length]))
              && f1.consumed == f.consumed && Epoch(f1) == Epoch(f)
            else
              read.Ok? ==> read.value.sessionId != SessionId(Epoch(f))
  {
    FpgaKeepsConsumed(f, afterHeader);
    if Quiet(afterHeader) {
      assert Contents(Fpga(f, afterHeader))[..length] == Contents(f)[..length];
    } else {
      SessionIdRepeats(Epoch(f), ResetCount(afterHeader));
    }
  }

  /** After the block has been read, its commit succeeds unless a reset came in between. */
  lemma CommitSucceedsIff(f: Fifo, length: int, afterBlock: seq<FpgaAction>)
    requires Mailbox.Ok(f) && BeginRead(f, length).Ok?
    requires ResetCount(afterBlock) < SESSIONS
    ensures Accepts(Fpga(f, afterBlock), BeginRead(f, length).value) <==> Quiet(afterBlock)
    ensures Quiet(afterBlock) ==> Fpga(f, afterBlock).consumed == f.consumed
  {
    FpgaKeepsConsumed(f, afterBlock);
    CommitIsTakenIffUndisturbed(f, length, AsActions(afterBlock));
  }

  // ---------------------------------------------------------------------- theorems

  /** After `actions` the mailbox still shows the identifying numbers of `f`, and `length` bytes wait: nothing
      was reset, or the session identifiers went round completely over a queue that had consumed nothing. */
  predicate StillShows(f: Fifo, length: nat, actions: seq<FpgaAction>)
    requires Mailbox.Ok(f)
  {
    && WholeRounds(ResetCount(actions))
    && (Quiet(actions) || (ReadCount(f) == 0 && length <= Available(Fpga(f, actions))))
  }

  lemma StillShowsIff(f: Fifo, length: nat, actions: seq<FpgaAction>)
    requires Mailbox.Ok(f) && 1 <= length <= Available(f)
    ensures var g := Fpga(f, actions);
            StillShows(f, length, actions) <==>
              SessionId(Epoch(g)) == SessionId(Epoch(f)) && ReadCount(g) == ReadCount(f) && length <= Available(g)
    ensures Quiet(actions) ==> length <= Available(Fpga(f, actions))
  {
    FpgaKeepsConsumed(f, actions);
    SessionIdRepeats(Epoch(f), ResetCount(actions));
  }

  /** Exactly when a transaction delivers, whatever the FPGA does in between and however often it resets;
      what it then delivers are the bytes at the head of the queue of the block read. */
  lemma TransactionDeliversIff(c: Setup, f: Fifo, afterHeader: seq<FpgaAction>, afterBlock: seq<FpgaAction>)
    requires ValidSetup(c) && Mailbox.Ok(f)
    ensures var (g, outcome) := Transact(c, f, afterHeader, afterBlock);
            var length := Min(Available(f), c.blockSize);
            var f1 := Fpga(f, afterHeader);
            var f2 := Fpga(f1, afterBlock);
            && (outcome.Delivered? <==>
                  && c.buildId == c.identityBuildId && Available(f) != 0
                  && StillShows(f, length, afterHeader) && StillShows(f1, length, afterBlock))
            && (outcome.Delivered? ==>
                  && length <= Available(f1)
                  && outcome == Delivered(HeaderOf(f, c.buildId), Contents(f1)[..length])
                  && g == f2.(consumed := f2.consumed + length))
  {
    if c.buildId == c.identityBuildId && Available(f) != 0 {
      var length := Min(Available(f), c.blockSize);
      StillShowsIff(f, length, afterHeader);
      if length <= Available(Fpga(f, afterHeader)) {
        StillShowsIff(Fpga(f, afterHeader), length, afterBlock);
      }
    }
  }

  lemma FewResetsStillShow(f: Fifo, length: nat, actions: seq<FpgaAction>)
    requires Mailbox.Ok(f) && ResetCount(actions) < SESSIONS
    ensures StillShows(f, length, actions) <==> Quiet(actions)
  {
    FpgaKeepsConsumed(f, actions);
  }

  /** With fewer than 2^32 - 1 resets between any two calls a transaction delivers exactly when the target
      identity holds, bytes were available and no reset happened; it then delivers the next bytes of the queue
      and consumes just those. */
  lemma TransactionDelivers(c: Setup, f: Fifo, afterHeader: seq<FpgaAction>, afterBlock: seq<FpgaAction>)
    requires ValidSetup(c) && Mailbox.Ok(f)
    requires ResetCount(afterHeader) < SESSIONS && ResetCount(afterBlock) < SESSIONS
    ensures var (g, outcome) := Transact(c, f, afterHeader, afterBlock);
            && (outcome.Delivered? <==>
                  && c.buildId == c.identityBuildId && Available(f) != 0
                  && Quiet(afterHeader) && Quiet(afterBlock))
            && (outcome.Delivered? ==>
                  && outcome.header == HeaderOf(f, c.buildId)
                  && outcome.data == Contents(f)[..Min(Available(f), c.blockSize)]
                  && g == Fpga(Fpga(f, afterHeader), afterBlock).(consumed := f.consumed + |outcome.data|))
  {
    var length := Min(Available(f), c.blockSize);
    TransactionDeliversIff(c, f, afterHeader, afterBlock);
    FewResetsStillShow(f, length, afterHeader);
    FewResetsStillShow(Fpga(f, afterHeader), length, afterBlock);
    FpgaKeepsConsumed(f, afterHeader);
    FpgaKeepsConsumed(Fpga(f, afterHeader), afterBlock);
  }

  /** The queue states the FPGA alone can bring about during a transaction. */
  ghost predicate OnlyFpga(f: Fifo, afterHeader: seq<FpgaAction>, afterBlock: seq<FpgaAction>, g: Fifo)
    requires Mailbox.Ok(f)
  {
    g == f || g == Fpga(f, afterHeader) || g == Fpga(f, afterHeader + afterBlock)
  }

  /** A transaction that raises or finds nothing consumes nothing. */
  lemma FailedTransactionConsumesNothing(
    c: Setup, f: Fifo, afterHeader: seq<FpgaAction>, afterBlock: seq<FpgaAction>)
    requires Mailbox.Ok(f)
    requires !Transact(c, f, afterHeader, afterBlock).1.Delivered?
    ensures OnlyFpga(f, afterHeader, afterBlock, Transact(c, f, afterHeader, afterBlock).0)
  {
    FpgaAppend(f, afterHeader, afterBlock);
  }

  /** The bound on resets is needed: after 2^32 - 1 resets a mailbox with no bytes consumed shows the
      same identifiers, and a block of another session passes for the next one. */
  lemma AfterAllSessionsTheBlockIsForeign(c: Setup, f: Fifo, resets: seq<FpgaAction>, foreign: seq<byte>)
    requires ValidSetup(c) && Mailbox.Ok(f) && c.buildId == c.identityBuildId
    requires f.consumed == 0 && |f.accepted| == |foreign| == 1
    requires forall a | a in resets :: a.FpgaResets?
    requires |resets| == SESSIONS
    ensures Transact(c, f, resets + [FpgaWrites(foreign)], []).1 == Delivered(HeaderOf(f, c.buildId), foreign)
  {
    FpgaKeepsConsumed(f, resets);
    OnlyResets(f, resets);
    var g := Fpga(f, resets);
    var w := [FpgaWrites(foreign)];
    FpgaAppend(f, resets, w);
    OneAction(g, FpgaWrites(foreign));
    SessionIdRepeats(Epoch(f), SESSIONS);
    assert [] + foreign[..1] == foreign;
    assert Contents(Write(g, foreign))[..1] == foreign;
  }

  lemma {:induction false} OnlyResets(f: Fifo, resets: seq<FpgaAction>)
    requires Mailbox.Ok(f) && resets != []
    requires forall a | a in resets :: a.FpgaResets?
    ensures ResetCount(resets) == |resets|
    ensures Fpga(f, resets).accepted == [] && Fpga(f, resets).capacity == f.capacity
    decreases |resets|
  {
    assert resets[0] in resets && resets[0].FpgaResets?;
    assert AsActions(resets)[1..] == AsActions(resets[1..]);
    if |resets| == 1 {
      assert resets == [FpgaResets];
      OneAction(f, FpgaResets);
      assert resets[1..] == [];
    } else {
      OnlyResets(Reset(f), resets[1..]);
    }
  }
}
