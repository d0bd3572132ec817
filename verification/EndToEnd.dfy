/** The whole path: messages accepted by the debug core, bytes through the mailbox, blocks through the
    bridge, records to a client, frames in the host decoder. */
module EndToEnd {
  import opened Bytes
  import opened Mailbox
  import opened BridgeTransaction
  import opened BridgeWorld
  import opened BridgeTheorems
  import DebugCore
  import DebugCoreTheorems
  import UartDecoder
  import D = UartDecoderTheorems
  import FtdiBackend
  import F = FtdiTheorems

  // ------------------------------------------------------------ what a client received

  /** The bytes of the DATA records of session number `epoch`, in order; `entries` are the log entries the records
      come from. */
  function BytesIn(records: seq<Record>, entries: seq<Entry>, epoch: nat): seq<byte>
    requires |records| == |entries|
    decreases |records|
  {
    if records == [] then []
    else
      var n := |records| - 1;
      BytesIn(records[..n], entries[..n], epoch) +
      (if records[n].Data? && entries[n].epoch == epoch then records[n].bytes else [])
  }

  lemma {:induction false} BytesAreDelivered(log: seq<Entry>, epoch: nat)
    ensures BytesIn(Records(log), log, epoch) == DeliveredIn(log, epoch)
    decreases |log|
  {
    if log != [] {
      var init := log[..|log| - 1];
      assert Records(log)[..|log| - 1] == Records(init);
      BytesAreDelivered(init, epoch);
    }
  }

  lemma {:induction false} DeliveredAppend(a: seq<Entry>, b: seq<Entry>, epoch: nat)
    ensures DeliveredIn(a + b, epoch) == DeliveredIn(a, epoch) + DeliveredIn(b, epoch)
    decreases |b|
  {
    if b == [] {
      assert a + b == a;
    } else {
      var n := |b| - 1;
      assert (a + b)[..|a + b| - 1] == a + b[..n];
      DeliveredAppend(a, b[..n], epoch);
      Associate(DeliveredIn(a, epoch), DeliveredIn(b[..n], epoch),
                if b[n].record.Data? && b[n].epoch == epoch then b[n].record.bytes else []);
    }
  }

  /** The log in three parts: before `i`, up to `j`, and the rest. */
  lemma DeliveredInParts(log: seq<Entry>, i: nat, j: nat, epoch: nat)
    requires i <= j <= |log|
    ensures DeliveredIn(log, epoch) ==
            DeliveredIn(log[..i], epoch) + DeliveredIn(log[i..j], epoch) + DeliveredIn(log[j..], epoch)
  {
    SliceJoin(log, i, j);
    DeliveredAppend(log[..i], log[i..j], epoch);
    DeliveredAppend(log[..j], log[j..], epoch);
    assert log == log[..j] + log[j..];
  }

  // --------------------------------------------------------------------- the theorems

  /** The FPGA writes to the mailbox, in session `epoch`, a beginning of what the core transfers, and none of it is
      refused. */
  predicate WritesWhatIsTransferred(s: Setup, capacity: nat, steps: seq<Step>, epoch: nat, transferred: seq<byte>)
    requires SupportedSize(capacity)
  {
    var actions := MailboxActions(s, Start(New(capacity)), steps);
    && Flatten(WritesIn(0, actions, epoch)) <= transferred
    && RefusedIn(New(capacity), actions, epoch) == 0
  }

  /** Whatever the bridge did: if the bytes the FPGA wrote in a session are a beginning of those the core
      transferred and the mailbox had room for them, then decoding what was delivered of that session, in any
      chunks, yields messages the core accepted, the first ones, in order, each once, and no error. */
  lemma MessagesSurviveTheBridge(
    s: Setup, capacity: nat, steps: seq<Step>, epoch: nat,
    depth: nat, inputs: seq<DebugCore.Inputs>, chunks: seq<seq<byte>>) returns (k: nat)
    requires ValidSetup(s) && SupportedSize(capacity)
    requires forall step | step in steps :: FewResets(step)
    requires DebugCore.Sound(DebugCore.AfterReset(depth)) && DebugCore.AllValid(inputs)
    requires DebugCoreTheorems.Known(DebugCore.Run(DebugCore.AfterReset(depth), inputs).accepted)
    requires WritesWhatIsTransferred(s, capacity, steps, epoch, DebugCore.Run(DebugCore.AfterReset(depth), inputs).transferred)
    requires Flatten(chunks) <= DeliveredIn(RunWorld(s, Start(New(capacity)), steps).log, epoch)
    ensures var accepted := DebugCore.Run(DebugCore.AfterReset(depth), inputs).accepted;
            var d := D.AfterAll(UartDecoder.INITIAL, chunks);
            && k <= |accepted|
            && d.tally == UartDecoder.NOTHING_YET.(frames := DebugCoreTheorems.AsPairs(accepted[..k]), locked := 0 < k)
            && Flatten(chunks) == DebugCore.FramesOf(accepted[..k]) + d.buffer
  {
    DeliveredIsTransferred(s, capacity, steps, epoch, DebugCore.Run(DebugCore.AfterReset(depth), inputs).transferred);
    DebugCoreTheorems.EveryByteIsConserved(DebugCore.AfterReset(depth), inputs);
    k := DebugCoreTheorems.BeginningIsDecoded(DebugCore.Run(DebugCore.AfterReset(depth), inputs).accepted, chunks);
  }

  lemma DeliveredIsTransferred(s: Setup, capacity: nat, steps: seq<Step>, epoch: nat, transferred: seq<byte>)
    requires ValidSetup(s) && SupportedSize(capacity)
    requires forall step | step in steps :: FewResets(step)
    requires WritesWhatIsTransferred(s, capacity, steps, epoch, transferred)
    ensures DeliveredIn(RunWorld(s, Start(New(capacity)), steps).log, epoch) <= transferred
  {
    ExactlyOnceDelivery(s, capacity, steps);
    var _ := WritesAreAccepted(s, capacity, steps, epoch);
    var w := RunWorld(s, Start(New(capacity)), steps);
    assert DeliveredIn(w.log, epoch) <= AcceptedIn(w.fifo, epoch);
  }

  /** The bytes of session `epoch` in `written` are what follows those delivered before log position `i`; the
      rest of the session's bytes comes later in the log. */
  predicate IsPartFrom(log: seq<Entry>, written: seq<Record>, i: nat, epoch: nat) {
    var j := i + |written|;
    && j <= |log|
    && DeliveredIn(log, epoch) ==
       DeliveredIn(log[..i], epoch) + BytesIn(written, log[i..j], epoch) + DeliveredIn(log[j..], epoch)
  }

  lemma RecordsOfPart(log: seq<Entry>, i: nat, j: nat)
    requires i <= j <= |log|
    ensures Records(log[i..j]) == Records(log)[i..j]
  {
  }

  lemma WrittenIsAPart(log: seq<Entry>, written: seq<Record>, i: nat, epoch: nat)
    requires i + |written| <= |log| && written == Records(log)[i..i + |written|]
    ensures IsPartFrom(log, written, i, epoch)
  {
    var j := i + |written|;
    RecordsOfPart(log, i, j);
    BytesAreDelivered(log[i..j], epoch);
    DeliveredInParts(log, i, j, epoch);
  }

  /** For every session: the bytes a client has been sent of it are a contiguous part of those delivered, which
      begins where the client joined; for a client that joined first they are their beginning. */
  lemma ClientReceivesAContiguousPart(s: Setup, capacity: nat, steps: seq<Step>, id: nat, epoch: nat)
    requires ValidSetup(s) && SupportedSize(capacity)
    requires forall step | step in steps :: FewResets(step)
    requires id in RunWorld(s, Start(New(capacity)), steps).clients
    ensures var w := RunWorld(s, Start(New(capacity)), steps);
            var c := w.clients[id];
            && IsPartFrom(w.log, c.written, c.joinedAt, epoch)
            && (c.joinedAt == 0 ==> BytesIn(c.written, w.log[..|c.written|], epoch) <= DeliveredIn(w.log, epoch))
  {
    ClientStreamsAreGapFree(s, capacity, steps);
    var w := RunWorld(s, Start(New(capacity)), steps);
    GapFreeIsAPart(s, w, w.clients[id], epoch);
  }

  lemma GapFreeIsAPart(s: Setup, w: World, c: Client, epoch: nat)
    requires GapFree(s, w, c)
    ensures IsPartFrom(w.log, c.written, c.joinedAt, epoch)
    ensures c.joinedAt == 0 ==> BytesIn(c.written, w.log[..|c.written|], epoch) <= DeliveredIn(w.log, epoch)
  {
    WrittenIsAPart(w.log, c.written, c.joinedAt, epoch);
    if c.joinedAt == 0 {
      assert w.log[..0] == [] && w.log[0..|c.written|] == w.log[..|c.written|];
    }
  }

  /** Exactly-once delivery and gap-free clients over the FT232H backend, for every run in which no reset
      falls between a header scan and its payload scan. */
  lemma FtdiDeliversExactlyOnce(s: Setup, capacity: nat, backend: FtdiBackend.State, steps: seq<F.FtdiStep>)
    requires ValidSetup(s) && SupportedSize(capacity)
    requires backend.isOpen && backend.lastBlock.None?
    requires forall step | step in steps :: F.FtdiAllows(step)
    ensures var w := F.FtdiRun(s, Start(New(capacity)), backend, steps).0;
            && (forall e: nat :: DeliveredIn(w.log, e) <= AcceptedIn(w.fifo, e))
            && w.fifo.consumed <= |w.fifo.accepted|
            && DeliveredIn(w.log, Epoch(w.fifo)) + Contents(w.fifo) == w.fifo.accepted
            && forall id | id in w.clients :: GapFree(s, w, w.clients[id])
  {
    var start := Start(New(capacity));
    F.FtdiRunIsMockRun(s, start, backend, steps);
    ExactlyOnceDelivery(s, capacity, F.AllAsMockSteps(s, start, backend, steps));
    ClientStreamsAreGapFree(s, capacity, F.AllAsMockSteps(s, start, backend, steps));
  }
}
