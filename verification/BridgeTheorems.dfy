/** Exactly-once delivery and gap-free client streams, for every interleaving. */
module BridgeTheorems {
  import opened Bytes
  import opened Mailbox
  import opened MailboxTheorems
  import opened BridgeTransaction
  import opened BridgeWorld

  // ---------------------------------------------------------------------- fan-out

  lemma OfferKeepsClient(c: Client, log: seq<Entry>, e: Entry, depth: nat)
    requires 1 <= depth && ClientOk(c, log, depth)
    ensures ClientOk(Offer(c, e.record, depth), log + [e], depth)
  {
    var d, longer := Offer(c, e.record, depth), log + [e];
    assert longer[..c.joinedAt] == log[..c.joinedAt];
    assert Records(longer) == Records(log) + [e.record];
    assert Records(longer)[c.joinedAt..] == Records(log)[c.joinedAt..] + [e.record];
    if c.registered && |c.queue| < depth {
      var k := c.joinedAt + |c.written|;
      assert Records(longer)[k..] == Records(log)[k..] + [e.record];
      assert Sends(Records(longer)[k..]) == Sends(Records(log)[k..]) + [Send(e.record)];
    }
  }

  lemma ServeKeepsClient(c: Client, log: seq<Entry>, depth: nat)
    requires 1 <= depth && ClientOk(c, log, depth)
    ensures ClientOk(Serve(c), log, depth)
  {
  }

  lemma BroadcastKeepsClients(s: Setup, w: World, e: Entry)
    requires ValidSetup(s) && ClientsOk(s, w)
    ensures ClientsOk(s, Broadcast(s, w, e))
  {
    forall id | id in w.clients
      ensures ClientOk(Offer(w.clients[id], e.record, s.queueDepth), w.log + [e], s.queueDepth)
    {
      OfferKeepsClient(w.clients[id], w.log, e, s.queueDepth);
    }
  }

  // --------------------------------------------------------------- sessions and data

  lemma BroadcastKeepsSessions(s: Setup, w: World, e: Entry, sessionId: u32)
    requires SessionsOk(w)
    requires sessionId == if e.record.Session? then e.record.current else w.sessionId
    requires MayFollow(w.sessionId, e)
    ensures SessionsOk(Broadcast(s, w.(sessionId := sessionId), e))
  {
    var longer := w.log + [e];
    assert Records(longer) == Records(w.log) + [e.record];
    assert Records(longer)[..|longer| - 1] == Records(w.log);
    forall i | 0 <= i < |longer|
      ensures MayFollow(Announced(0, Records(longer[..i])), longer[i])
    {
      assert longer[..i] == w.log[..i];
      if i == |w.log| {
        assert w.log[..i] == w.log;
      }
    }
  }

  lemma {:induction false} NothingFromLaterSessions(log: seq<Entry>, epoch: nat)
    requires forall i | 0 <= i < |log| :: log[i].epoch < epoch
    ensures DeliveredIn(log, epoch) == []
  {
    if log != [] {
      NothingFromLaterSessions(log[..|log| - 1], epoch);
    }
  }

  /** What the FPGA does keeps everything already delivered a prefix of what was accepted. */
  lemma FpgaKeepsDelivery(w: World, actions: seq<FpgaAction>)
    requires Mailbox.Ok(w.fifo) && DeliveryOk(w)
    ensures DeliveryOk(w.(fifo := Fpga(w.fifo, actions)))
  {
    var f, g := w.fifo, Fpga(w.fifo, actions);
    RunKeepsHistory(f, AsActions(actions));
    FpgaKeepsConsumed(f, actions);
    forall e: nat
      ensures DeliveredIn(w.log, e) <= AcceptedIn(g, e)
    {
      assert DeliveredIn(w.log, e) <= AcceptedIn(f, e);
      if e < Epoch(f) {
        assert g.past[e] == f.past[e];
      }
    }
    if Quiet(actions) {
      assert g.accepted[..g.consumed] == f.accepted[..f.consumed];
    } else {
      NothingFromLaterSessions(w.log, Epoch(g));
    }
  }

  /** A record that carries no data changes nothing about delivery. */
  lemma PlainRecordKeepsDelivery(s: Setup, w: World, e: Entry)
    requires DeliveryOk(w) && !e.record.Data? && e.epoch == Epoch(w.fifo)
    ensures DeliveryOk(Broadcast(s, w, e))
  {
  }

  /** Delivering the bytes that were consumed. */
  lemma BlockKeepsDelivery(s: Setup, w: World, g: Fifo, data: seq<byte>)
    requires Mailbox.Ok(w.fifo) && DeliveryOk(w)
    requires Epoch(g) == Epoch(w.fifo) && g.past == w.fifo.past && w.fifo.accepted <= g.accepted
    requires data <= Contents(w.fifo) && g.consumed == w.fifo.consumed + |data|
    ensures DeliveryOk(Broadcast(s, w.(fifo := g), Entry(Data(data), Epoch(g))))
  {
    var f, e := w.fifo, Entry(Data(data), Epoch(g));
    var longer := w.log + [e];
    assert longer[..|longer| - 1] == w.log;
    assert DeliveredIn(longer, Epoch(g)) == DeliveredIn(w.log, Epoch(g)) + data;
    assert data == f.accepted[f.consumed..f.consumed + |data|];
    assert g.accepted[..g.consumed] == f.accepted[..f.consumed] + data;
    forall n: nat
      ensures DeliveredIn(longer, n) <= AcceptedIn(g, n)
    {
      assert DeliveredIn(w.log, n) <= AcceptedIn(f, n);
      if n != Epoch(g) {
        assert DeliveredIn(longer, n) == DeliveredIn(w.log, n) + [];
      }
    }
  }

  // ------------------------------------------------------------------------- steps

  lemma AnnounceKeeps(s: Setup, w: World, sessionId: u32)
    requires ValidSetup(s) && Inv(s, w)
    ensures Inv(s, Announce(s, w, sessionId, Epoch(w.fifo)))
    ensures Announce(s, w, sessionId, Epoch(w.fifo)).sessionId == sessionId
    ensures Announce(s, w, sessionId, Epoch(w.fifo)).fifo == w.fifo
  {
    if sessionId != w.sessionId {
      var e := Entry(Session(w.sessionId, sessionId), Epoch(w.fifo));
      BroadcastKeepsClients(s, w.(sessionId := sessionId), e);
      BroadcastKeepsSessions(s, w, e, sessionId);
      PlainRecordKeepsDelivery(s, w.(sessionId := sessionId), e);
    }
  }

  lemma DeliveredPumpKeeps(s: Setup, w: World, afterHeader: seq<FpgaAction>, afterBlock: seq<FpgaAction>)
    requires ValidSetup(s) && Inv(s, w) && FewResets(Pump(afterHeader, afterBlock))
    requires w.isOpen && Transact(s, w.fifo, afterHeader, afterBlock).1.Delivered?
    ensures Inv(s, PumpOnce(s, w, afterHeader, afterBlock))
  {
    var (g, outcome) := Transact(s, w.fifo, afterHeader, afterBlock);
    var h, data, epoch := outcome.header, outcome.data, Epoch(w.fifo);
    TransactionDelivers(s, w.fifo, afterHeader, afterBlock);
    FpgaKeepsConsumed(w.fifo, afterHeader);
    FpgaKeepsConsumed(Fpga(w.fifo, afterHeader), afterBlock);
    AnnounceKeeps(s, w, h.sessionId);
    var v := Announce(s, w, h.sessionId, epoch);
    var e := Entry(Data(data), epoch);
    assert Announce(s, w.(fifo := g), h.sessionId, epoch) == v.(fifo := g);
    BlockKeepsDelivery(s, v, g, data);
    BroadcastKeepsClients(s, v.(fifo := g), e);
    BroadcastKeepsSessions(s, v.(fifo := g), e, v.sessionId);
  }

  lemma RaisedPumpKeeps(s: Setup, w: World, afterHeader: seq<FpgaAction>, afterBlock: seq<FpgaAction>)
    requires Inv(s, w)
    requires Transact(s, w.fifo, afterHeader, afterBlock).1.Raised?
    ensures Inv(s, w.(fifo := Transact(s, w.fifo, afterHeader, afterBlock).0))
  {
    FailedTransactionConsumesNothing(s, w.fifo, afterHeader, afterBlock);
    FpgaKeepsDelivery(w, afterHeader);
    FpgaKeepsDelivery(w, afterHeader + afterBlock);
  }

  lemma IdlePumpKeeps(s: Setup, w: World, afterHeader: seq<FpgaAction>, afterBlock: seq<FpgaAction>)
    requires ValidSetup(s) && Inv(s, w)
    requires w.isOpen && Transact(s, w.fifo, afterHeader, afterBlock).1.Idle?
    ensures Inv(s, PumpOnce(s, w, afterHeader, afterBlock))
  {
    var sessionId := Transact(s, w.fifo, afterHeader, afterBlock).1.header.sessionId;
    AnnounceKeeps(s, w, sessionId);
    IdlePumpIs(s, w, afterHeader, afterBlock);
  }

  lemma IdlePumpIs(s: Setup, w: World, afterHeader: seq<FpgaAction>, afterBlock: seq<FpgaAction>)
    requires Mailbox.Ok(w.fifo) && w.isOpen && Transact(s, w.fifo, afterHeader, afterBlock).1.Idle?
    ensures PumpOnce(s, w, afterHeader, afterBlock) ==
            Announce(s, w, Transact(s, w.fifo, afterHeader, afterBlock).1.header.sessionId, Epoch(w.fifo))
  {
    assert w.(fifo := w.fifo) == w;
  }

  lemma PumpKeeps(s: Setup, w: World, afterHeader: seq<FpgaAction>, afterBlock: seq<FpgaAction>)
    requires ValidSetup(s) && Inv(s, w) && FewResets(Pump(afterHeader, afterBlock))
    ensures Inv(s, PumpOnce(s, w, afterHeader, afterBlock))
  {
    if w.isOpen {
      match Transact(s, w.fifo, afterHeader, afterBlock).1
      case Raised => RaisedPumpKeeps(s, w, afterHeader, afterBlock);
      case Idle(_) => IdlePumpKeeps(s, w, afterHeader, afterBlock);
      case Delivered(_, _) => DeliveredPumpKeeps(s, w, afterHeader, afterBlock);
    }
  }

  lemma StatusKeeps(s: Setup, w: World)
    requires ValidSetup(s) && Inv(s, w)
    ensures Inv(s, Next(s, w, PublishStatus))
  {
    var e := Entry(Status, Epoch(w.fifo));
    BroadcastKeepsClients(s, w, e);
    BroadcastKeepsSessions(s, w, e, w.sessionId);
    PlainRecordKeepsDelivery(s, w, e);
  }

  lemma OthersKeep(s: Setup, w: World, id: nat, c: Client)
    requires ClientsOk(s, w) && ClientOk(c, w.log, s.queueDepth)
    ensures ClientsOk(s, w.(clients := w.clients[id := c]))
  {
  }

  lemma ClientsMayChange(s: Setup, w: World, v: World)
    requires Inv(s, w) && ClientsOk(s, v)
    requires v == w.(isOpen := v.isOpen, clients := v.clients)
    ensures Inv(s, v)
  {
  }

  lemma ReplaceClientKeeps(s: Setup, w: World, id: nat, c: Client)
    requires Inv(s, w) && ClientOk(c, w.log, s.queueDepth)
    ensures Inv(s, w.(clients := w.clients[id := c]))
  {
    OthersKeep(s, w, id, c);
    ClientsMayChange(s, w, w.(clients := w.clients[id := c]));
  }

  lemma NewClientOk(log: seq<Entry>, sessionId: u32, depth: nat)
    requires sessionId == Announced(0, Records(log))
    ensures ClientOk(Client(|log|, sessionId, [], [], true, false), log, depth)
  {
    assert log[..|log|] == log;
    assert Records(log)[|log|..] == [];
    assert Sends([]) == [];
  }

  lemma JoinIs(s: Setup, w: World, id: nat)
    requires Mailbox.Ok(w.fifo)
    ensures Next(s, w, Join(id)) ==
            if id in w.clients then w
            else w.(clients := w.clients[id := Client(|w.log|, w.sessionId, [], [], true, false)])
  {
  }

  lemma NewcomerKeeps(s: Setup, w: World, id: nat)
    requires Inv(s, w)
    ensures Inv(s, w.(clients := w.clients[id := Client(|w.log|, w.sessionId, [], [], true, false)]))
  {
    NewClientOk(w.log, w.sessionId, s.queueDepth);
    ReplaceClientKeeps(s, w, id, Client(|w.log|, w.sessionId, [], [], true, false));
  }

  lemma JoinKeeps(s: Setup, w: World, id: nat)
    requires ValidSetup(s) && Inv(s, w)
    ensures Inv(s, Next(s, w, Join(id)))
  {
    JoinIs(s, w, id);
    NewcomerKeeps(s, w, id);
  }

  lemma ServeKeeps(s: Setup, w: World, id: nat)
    requires ValidSetup(s) && Inv(s, w)
    ensures Inv(s, Next(s, w, ServeClient(id)))
    ensures Inv(s, Next(s, w, HangupClient(id)))
  {
    TurnIs(s, w, id);
    if id in w.clients {
      ClientIsOk(s, w, id);
      ServeKeepsClient(w.clients[id], w.log, s.queueDepth);
      HangupKeepsClient(w.clients[id], w.log, s.queueDepth);
      ReplaceClientKeeps(s, w, id, Serve(w.clients[id]));
      ReplaceClientKeeps(s, w, id, Hangup(w.clients[id]));
    }
  }

  lemma TurnIs(s: Setup, w: World, id: nat)
    requires Mailbox.Ok(w.fifo)
    ensures Next(s, w, ServeClient(id)) ==
            if id in w.clients then w.(clients := w.clients[id := Serve(w.clients[id])]) else w
    ensures Next(s, w, HangupClient(id)) ==
            if id in w.clients then w.(clients := w.clients[id := Hangup(w.clients[id])]) else w
  {
  }

  lemma HangupKeepsClient(c: Client, log: seq<Entry>, depth: nat)
    requires ClientOk(c, log, depth)
    ensures ClientOk(Hangup(c), log, depth)
  {
  }

  lemma ShutdownKeeps(s: Setup, w: World)
    requires ValidSetup(s) && Inv(s, w)
    ensures Inv(s, Next(s, w, Shutdown))
  {
    var v := Next(s, w, Shutdown);
    forall id | id in v.clients
      ensures ClientOk(v.clients[id], v.log, s.queueDepth)
    {
      ClientIsOk(s, w, id);
    }
    ClientsMayChange(s, w, v);
  }

  lemma StepKeeps(s: Setup, w: World, step: Step)
    requires ValidSetup(s) && Inv(s, w) && FewResets(step)
    ensures Inv(s, Next(s, w, step))
  {
    match step
    case FpgaStep(a) => FpgaKeepsDelivery(w, [a]);
    case Pump(afterHeader, afterBlock) => PumpKeeps(s, w, afterHeader, afterBlock);
    case PublishStatus => StatusKeeps(s, w);
    case Join(id) => JoinKeeps(s, w, id);
    case ServeClient(id) => ServeKeeps(s, w, id);
    case HangupClient(id) => ServeKeeps(s, w, id);
    case Reconnect(_) =>
    case Shutdown => ShutdownKeeps(s, w);
  }

  /** Every reachable state of the whole system satisfies the invariants, provided fewer than
      2^32 - 1 resets fall between any two calls of a transaction. */
  lemma {:induction false} EveryRunKeepsInvariants(s: Setup, w: World, steps: seq<Step>)
    requires ValidSetup(s) && Inv(s, w)
    requires forall step | step in steps :: FewResets(step)
    ensures Inv(s, RunWorld(s, w, steps))
    decreases |steps|
  {
    if steps != [] {
      assert FewResets(steps[0]);
      StepKeeps(s, w, steps[0]);
      EveryRunKeepsInvariants(s, Next(s, w, steps[0]), steps[1..]);
    }
  }

  lemma StartIsOk(s: Setup, capacity: nat)
    requires ValidSetup(s) && SupportedSize(capacity)
    ensures Inv(s, Start(New(capacity)))
  {
  }

  // ------------------------------------------------------------------ main theorems

  lemma InvDelivers(s: Setup, w: World)
    requires Inv(s, w)
    ensures forall e: nat :: DeliveredIn(w.log, e) <= AcceptedIn(w.fifo, e)
    ensures DeliveredIn(w.log, Epoch(w.fifo)) + Contents(w.fifo) == w.fifo.accepted
    ensures forall i, j | 0 <= i < j < |w.log| :: w.log[i].epoch <= w.log[j].epoch
  {
  }

  /** Exactly-once delivery. In every run from the start, the blocks delivered from each session, one
      after the other, are a prefix of the bytes the mailbox accepted in that session; for the current
      session they are exactly the consumed bytes, and no session is delivered after a later one. */
  lemma ExactlyOnceDelivery(s: Setup, capacity: nat, steps: seq<Step>)
    requires ValidSetup(s) && SupportedSize(capacity)
    requires forall step | step in steps :: FewResets(step)
    ensures var w := RunWorld(s, Start(New(capacity)), steps);
            && (forall e: nat :: DeliveredIn(w.log, e) <= AcceptedIn(w.fifo, e))
            && DeliveredIn(w.log, Epoch(w.fifo)) + Contents(w.fifo) == w.fifo.accepted
            && (forall i, j | 0 <= i < j < |w.log| :: w.log[i].epoch <= w.log[j].epoch)
  {
    StartIsOk(s, capacity);
    EveryRunKeepsInvariants(s, Start(New(capacity)), steps);
    InvDelivers(s, RunWorld(s, Start(New(capacity)), steps));
  }

  lemma HandleLeavesFifo(s: Setup, w: World, g: Fifo, outcome: Outcome)
    ensures Handle(s, w, g, outcome).fifo == g
  {
  }

  lemma StepIsMailboxRun(s: Setup, w: World, step: Step)
    requires ValidSetup(s) && Mailbox.Ok(w.fifo)
    ensures Next(s, w, step).fifo == Run(w.fifo, StepActions(s, w, step))
  {
    match step
    case FpgaStep(a) =>
      OneAction(w.fifo, a);
      OneMailboxAction(w.fifo, AsAction(a));
    case Pump(afterHeader, afterBlock) =>
      if w.isOpen {
        var (g, outcome) := Transact(s, w.fifo, afterHeader, afterBlock);
        TransactIsRun(s, w.fifo, afterHeader, afterBlock);
        HandleLeavesFifo(s, w, g, outcome);
      }
    case _ =>
  }

  /** The mailbox behind the bridge is, in every run, a mailbox after the actions that reached it. */
  lemma {:induction false} WorldIsMailboxRun(s: Setup, w: World, steps: seq<Step>)
    requires ValidSetup(s) && Mailbox.Ok(w.fifo)
    ensures RunWorld(s, w, steps).fifo == Run(w.fifo, MailboxActions(s, w, steps))
    decreases |steps|
  {
    if steps != [] {
      var v := Next(s, w, steps[0]);
      StepIsMailboxRun(s, w, steps[0]);
      WorldIsMailboxRun(s, v, steps[1..]);
      RunAppend(w.fifo, StepActions(s, w, steps[0]), MailboxActions(s, v, steps[1..]));
    }
  }

  /** What was written in each session is what was accepted in it, if nothing was refused; in any case the accepted
      bytes are made of beginnings of the writes, in order. */
  lemma WritesAreAccepted(s: Setup, capacity: nat, steps: seq<Step>, e: nat) returns (parts: seq<seq<byte>>)
    requires ValidSetup(s) && SupportedSize(capacity)
    ensures var start := Start(New(capacity));
            var actions := MailboxActions(s, start, steps);
            var accepted := AcceptedIn(RunWorld(s, start, steps).fifo, e);
            && AreBeginnings(parts, WritesIn(0, actions, e))
            && accepted == Flatten(parts)
            && (RefusedIn(New(capacity), actions, e) == 0 <==> accepted == Flatten(WritesIn(0, actions, e)))
  {
    var start := Start(New(capacity));
    var actions := MailboxActions(s, start, steps);
    WorldIsMailboxRun(s, start, steps);
    parts := AcceptedIsMadeOfBeginnings(New(capacity), actions, e);
    AcceptedIsWhatWasWrittenIff(New(capacity), actions, e);
    NothingHeld(New(capacity), e, Flatten(parts), Flatten(WritesIn(0, actions, e)));
  }

  lemma NothingHeld(f: Fifo, e: nat, a: seq<byte>, b: seq<byte>)
    requires f.accepted == []
    ensures HeldBefore(f, e) + a == a && HeldBefore(f, e) + b == b
  {
  }

  /** A turn of the pump that raises neither consumes nor sends anything. */
  lemma RaisingPumpIsInvisible(s: Setup, w: World, afterHeader: seq<FpgaAction>, afterBlock: seq<FpgaAction>)
    requires Mailbox.Ok(w.fifo) && w.isOpen
    requires Transact(s, w.fifo, afterHeader, afterBlock).1.Raised?
    ensures var v := PumpOnce(s, w, afterHeader, afterBlock);
            && OnlyFpga(w.fifo, afterHeader, afterBlock, v.fifo)
            && v == w.(fifo := v.fifo)
  {
    FailedTransactionConsumesNothing(s, w.fifo, afterHeader, afterBlock);
  }

  lemma {:induction false} AnnouncedAlong(initial: u32, a: seq<Record>, b: seq<Record>)
    ensures Announced(Announced(initial, a), b) == Announced(initial, a + b)
    decreases |b|
  {
    if b == [] {
      assert a + b == a;
    } else {
      assert (a + b)[..|a + b| - 1] == a + b[..|b| - 1];
      AnnouncedAlong(initial, a, b[..|b| - 1]);
    }
  }

  /** What one client has seen, in a state that satisfies the invariants. */
  ghost predicate GapFree(s: Setup, w: World, c: Client) {
    && c.joinedAt + |c.written| <= |w.log|
    && c.written == Records(w.log)[c.joinedAt..c.joinedAt + |c.written|]
    && (c.registered ==> c.queue == Sends(Records(w.log)[c.joinedAt + |c.written|..]))
    && |c.queue| <= s.queueDepth
    && forall k | 0 <= k < |c.written| :: MayFollow(Announced(c.greeting, c.written[..k]), w.log[c.joinedAt + k])
  }

  lemma WrittenRecords(c: Client, log: seq<Entry>, depth: nat, k: nat)
    requires ClientOk(c, log, depth) && k < |c.written|
    ensures c.joinedAt + k < |log| && c.written[k] == log[c.joinedAt + k].record
    ensures Records(log[..c.joinedAt + k]) == Records(log[..c.joinedAt]) + c.written[..k]
  {
    assert c.written[k] == Records(log)[c.joinedAt..][k];
    assert Records(log)[c.joinedAt..][..k] == Records(log)[c.joinedAt..c.joinedAt + k];
  }

  lemma ClientIsGapFree(s: Setup, w: World, c: Client)
    requires SessionsOk(w) && ClientOk(c, w.log, s.queueDepth)
    ensures GapFree(s, w, c)
  {
    forall k | 0 <= k < |c.written|
      ensures MayFollow(Announced(c.greeting, c.written[..k]), w.log[c.joinedAt + k])
    {
      WrittenRecords(c, w.log, s.queueDepth, k);
      AnnouncedAlong(0, Records(w.log[..c.joinedAt]), c.written[..k]);
    }
  }

  /** Gap-free client streams. After HELLO each client has been written a contiguous part of the
      broadcast log that begins where it joined; while it is registered its queue holds exactly the
      records it still lacks; no queue exceeds the configured depth; each DATA record carries bytes of
      the session last announced to this client by HELLO or SESSION, and each SESSION starts from that one. */
  lemma ClientStreamsAreGapFree(s: Setup, capacity: nat, steps: seq<Step>)
    requires ValidSetup(s) && SupportedSize(capacity)
    requires forall step | step in steps :: FewResets(step)
    ensures var w := RunWorld(s, Start(New(capacity)), steps);
            forall id | id in w.clients :: GapFree(s, w, w.clients[id])
  {
    StartIsOk(s, capacity);
    EveryRunKeepsInvariants(s, Start(New(capacity)), steps);
    var w := RunWorld(s, Start(New(capacity)), steps);
    forall id | id in w.clients
      ensures GapFree(s, w, w.clients[id])
    {
      ClientIsGapFree(s, w, w.clients[id]);
    }
  }

  // ------------------------------------------------------------------------ progress

  lemma TakeNext<T>(s: seq<T>, i: nat, k: nat)
    requires i <= k < |s|
    ensures s[i..k] + [s[k]] == s[i..k + 1]
  {
  }

  /** A turn writes the next record of the log to a client that lacks one, and nothing to one that has them all. */
  lemma ServeWritesTheNext(c: Client, log: seq<Entry>, depth: nat)
    requires ClientOk(c, log, depth) && c.registered
    ensures var d, k := Serve(c), c.joinedAt + |c.written|;
            && k <= |log| && d.joinedAt == c.joinedAt && d.registered
            && d.written == Records(log)[c.joinedAt..if k < |log| then k + 1 else k]
  {
    var k := c.joinedAt + |c.written|;
    var records := Records(log);
    assert c.written == records[c.joinedAt..k];
    if k < |log| {
      assert c.queue[0] == Send(records[k]);
      TakeNext(records, c.joinedAt, k);
    } else {
      assert c.queue == [];
    }
  }

  lemma AllWritten(c: Client, log: seq<Entry>, depth: nat)
    requires ClientOk(c, log, depth) && c.registered && c.joinedAt + |c.written| == |log|
    ensures c.written == Records(log)[c.joinedAt..] && c.queue == []
  {
    assert Records(log)[|log|..] == [];
  }

  lemma CutOffFinishes(c: Client, log: seq<Entry>, depth: nat)
    requires ClientOk(c, log, depth) && !c.registered
    ensures Serve(c).finished && !Serve(c).registered && Serve(c).written == c.written
  {
  }

  /** Steps that neither broadcast a record nor end the client. */
  predicate LeavesAlone(step: Step, id: nat) {
    step.FpgaStep? || step.Join? || step.ServeClient? || step.Reconnect? || (step.HangupClient? && step.id != id)
  }

  lemma StepLeavesAlone(s: Setup, w: World, step: Step, id: nat)
    requires Mailbox.Ok(w.fifo) && id in w.clients && LeavesAlone(step, id)
    ensures var v := Next(s, w, step);
            && v.log == w.log && id in v.clients
            && v.clients[id] == if step == ServeClient(id) then Serve(w.clients[id]) else w.clients[id]
  {
  }

  function TurnsOf(steps: seq<Step>, id: nat): nat {
    if steps == [] then 0 else (if steps[0] == ServeClient(id) then 1 else 0) + TurnsOf(steps[1..], id)
  }

  /** The registered client `id` has been written the first `n` records of `log` since it joined. */
  ghost predicate HasWritten(s: Setup, w: World, id: nat, log: seq<Entry>, joinedAt: nat, n: nat) {
    && w.log == log && id in w.clients && ClientOk(w.clients[id], log, s.queueDepth)
    && w.clients[id].registered && w.clients[id].joinedAt == joinedAt && |w.clients[id].written| == n
  }

  function OneTurnMore(step: Step, id: nat, n: nat, all: nat): nat {
    if step == ServeClient(id) && n < all then n + 1 else n
  }

  lemma StepWrites(s: Setup, w: World, step: Step, id: nat, log: seq<Entry>, joinedAt: nat, n: nat)
    requires ValidSetup(s) && Mailbox.Ok(w.fifo)
    requires HasWritten(s, w, id, log, joinedAt, n) && LeavesAlone(step, id)
    ensures joinedAt + n <= |log|
    ensures HasWritten(s, Next(s, w, step), id, log, joinedAt, OneTurnMore(step, id, n, |log| - joinedAt))
  {
    StepLeavesAlone(s, w, step, id);
    ServeKeepsClient(w.clients[id], log, s.queueDepth);
    ServeWritesTheNext(w.clients[id], log, s.queueDepth);
  }

  /** However its turns lie among such steps, each writes one more record, until it has them all. */
  lemma {:induction false} TurnsWrite(s: Setup, w: World, steps: seq<Step>, id: nat, log: seq<Entry>, joinedAt: nat, n: nat)
    requires ValidSetup(s) && Mailbox.Ok(w.fifo)
    requires HasWritten(s, w, id, log, joinedAt, n) && joinedAt + n <= |log|
    requires forall step | step in steps :: LeavesAlone(step, id)
    ensures HasWritten(s, RunWorld(s, w, steps), id, log, joinedAt, Min(n + TurnsOf(steps, id), |log| - joinedAt))
    decreases |steps|
  {
    if steps != [] {
      assert LeavesAlone(steps[0], id);
      StepWrites(s, w, steps[0], id, log, joinedAt, n);
      TurnsWrite(s, Next(s, w, steps[0]), steps[1..], id, log, joinedAt, OneTurnMore(steps[0], id, n, |log| - joinedAt));
    }
  }

  /** The client has been written every record since it joined. */
  ghost predicate HasCaughtUp(w: World, id: nat, log: seq<Entry>, joinedAt: nat) {
    && w.log == log && joinedAt <= |log| && id in w.clients && w.clients[id].registered
    && w.clients[id].written == Records(log)[joinedAt..] && w.clients[id].queue == []
  }

  lemma ClientCatchesUp(s: Setup, w: World, steps: seq<Step>, id: nat)
    requires ValidSetup(s) && Mailbox.Ok(w.fifo)
    requires id in w.clients && ClientOk(w.clients[id], w.log, s.queueDepth) && w.clients[id].registered
    requires forall step | step in steps :: LeavesAlone(step, id)
    requires |w.log| <= w.clients[id].joinedAt + |w.clients[id].written| + TurnsOf(steps, id)
    ensures HasCaughtUp(RunWorld(s, w, steps), id, w.log, w.clients[id].joinedAt)
  {
    var c := w.clients[id];
    ServeWritesTheNext(c, w.log, s.queueDepth);
    TurnsWrite(s, w, steps, id, w.log, c.joinedAt, |c.written|);
    AllWritten(RunWorld(s, w, steps).clients[id], w.log, s.queueDepth);
  }

  /** A turn of the client changes only that client. If it is registered and lacks records of the log, the turn
      writes it the next one, and with as many turns as it lacks it catches up. If it was cut off, the turn ends it. */
  ghost predicate MakesProgress(s: Setup, w: World, id: nat, turns: seq<Step>)
    requires Mailbox.Ok(w.fifo) && id in w.clients
  {
    var c := w.clients[id];
    var d := Serve(c);
    && Next(s, w, ServeClient(id)) == w.(clients := w.clients[id := d])
    && (c.registered && c.joinedAt + |c.written| < |w.log| ==>
          d.written == Records(w.log)[c.joinedAt..c.joinedAt + |c.written| + 1])
    && (c.registered && |w.log| <= c.joinedAt + |c.written| + TurnsOf(turns, id) ==>
          HasCaughtUp(RunWorld(s, w, turns), id, w.log, c.joinedAt))
    && (!c.registered ==> d.finished && d.written == c.written)
  }

  lemma ClientProgresses(s: Setup, w: World, id: nat, turns: seq<Step>)
    requires ValidSetup(s) && Mailbox.Ok(w.fifo) && id in w.clients && ClientOk(w.clients[id], w.log, s.queueDepth)
    requires forall step | step in turns :: LeavesAlone(step, id)
    ensures MakesProgress(s, w, id, turns)
  {
    var c := w.clients[id];
    if c.registered {
      ServeWritesTheNext(c, w.log, s.queueDepth);
      if |w.log| <= c.joinedAt + |c.written| + TurnsOf(turns, id) {
        ClientCatchesUp(s, w, turns, id);
      }
    } else {
      CutOffFinishes(c, w.log, s.queueDepth);
    }
  }

  /** Progress of the clients in every reachable world. `turns` are any steps without a broadcast. */
  lemma ClientsProgress(s: Setup, capacity: nat, steps: seq<Step>, id: nat, turns: seq<Step>)
    requires ValidSetup(s) && SupportedSize(capacity)
    requires forall step | step in steps :: FewResets(step)
    requires forall step | step in turns :: LeavesAlone(step, id)
    requires id in RunWorld(s, Start(New(capacity)), steps).clients
    ensures MakesProgress(s, RunWorld(s, Start(New(capacity)), steps), id, turns)
  {
    StartIsOk(s, capacity);
    EveryRunKeepsInvariants(s, Start(New(capacity)), steps);
    ClientIsOk(s, RunWorld(s, Start(New(capacity)), steps), id);
    ClientProgresses(s, RunWorld(s, Start(New(capacity)), steps), id, turns);
  }

  lemma ClientIsOk(s: Setup, w: World, id: nat)
    requires Inv(s, w) && id in w.clients
    ensures ClientOk(w.clients[id], w.log, s.queueDepth)
  {
  }

  ghost predicate IsCutOff(w: World, id: nat, written: seq<Record>) {
    id in w.clients && !w.clients[id].registered && w.clients[id].written == written
  }

  lemma PumpKeepsCutOff(s: Setup, w: World, afterHeader: seq<FpgaAction>, afterBlock: seq<FpgaAction>, id: nat, written: seq<Record>)
    requires Mailbox.Ok(w.fifo) && IsCutOff(w, id, written)
    ensures IsCutOff(PumpOnce(s, w, afterHeader, afterBlock), id, written)
  {
  }

  lemma StepKeepsCutOff(s: Setup, w: World, step: Step, id: nat, written: seq<Record>)
    requires ValidSetup(s) && Mailbox.Ok(w.fifo) && ClientsOk(s, w)
    requires IsCutOff(w, id, written)
    ensures IsCutOff(Next(s, w, step), id, written)
  {
    if step.Pump? {
      PumpKeepsCutOff(s, w, step.afterHeader, step.afterBlock, id, written);
    } else {
      assert ClientOk(w.clients[id], w.log, s.queueDepth);
    }
  }

  /** A client that was cut off is never written another record. */
  lemma {:induction false} CutOffMeansTheEnd(s: Setup, w: World, steps: seq<Step>, id: nat)
    requires ValidSetup(s) && Inv(s, w)
    requires id in w.clients && !w.clients[id].registered
    requires forall step | step in steps :: FewResets(step)
    ensures IsCutOff(RunWorld(s, w, steps), id, w.clients[id].written)
    decreases |steps|
  {
    if steps != [] {
      assert FewResets(steps[0]);
      StepKeeps(s, w, steps[0]);
      StepKeepsCutOff(s, w, steps[0], id, w.clients[id].written);
      CutOffMeansTheEnd(s, Next(s, w, steps[0]), steps[1..], id);
    }
  }

  /** The client `id` is out, and its loop is at its end, at the latest after the next turn. */
  ghost predicate IsLeaving(v: World, id: nat, written: seq<Record>) {
    IsCutOff(v, id, written) && Serve(v.clients[id]).finished
  }

  lemma HangupLeaves(s: Setup, w: World, id: nat)
    requires Mailbox.Ok(w.fifo) && id in w.clients
    ensures IsLeaving(Next(s, w, HangupClient(id)), id, w.clients[id].written)
  {
  }

  lemma ShutdownLeaves(s: Setup, w: World, id: nat)
    requires Mailbox.Ok(w.fifo) && id in w.clients && ClientOk(w.clients[id], w.log, s.queueDepth)
    ensures IsLeaving(Next(s, w, Shutdown), id, w.clients[id].written) && !Next(s, w, Shutdown).isOpen
  {
  }

  /** Neither is one whose connection broke, nor any client once the bridge was closed. */
  lemma LeavingMeansTheEnd(s: Setup, w: World, step: Step, v: World, steps: seq<Step>, id: nat)
    requires ValidSetup(s) && Inv(s, w) && id in w.clients
    requires step == HangupClient(id) || step == Shutdown
    requires v == Next(s, w, step)
    requires forall step | step in steps :: FewResets(step)
    ensures IsLeaving(v, id, w.clients[id].written)
    ensures IsCutOff(RunWorld(s, v, steps), id, w.clients[id].written)
  {
    StepKeeps(s, w, step);
    if step == Shutdown {
      ClientIsOk(s, w, id);
      ShutdownLeaves(s, w, id);
    } else {
      HangupLeaves(s, w, id);
    }
    CutOffMeansTheEnd(s, v, steps, id);
  }

  lemma ClosedStep(s: Setup, w: World, step: Step, e: nat)
    requires Mailbox.Ok(w.fifo) && !w.isOpen && !step.Reconnect?
    ensures !Next(s, w, step).isOpen && DeliveredIn(Next(s, w, step).log, e) == DeliveredIn(w.log, e)
  {
    if step.PublishStatus? {
      var entry := Entry(Status, Epoch(w.fifo));
      assert (w.log + [entry])[..|w.log|] == w.log;
      assert DeliveredIn(w.log, e) + [] == DeliveredIn(w.log, e);
    }
  }

  /** While the backend is closed nothing is delivered. */
  lemma {:induction false} ClosedDeliversNothing(s: Setup, w: World, steps: seq<Step>, e: nat)
    requires Mailbox.Ok(w.fifo) && !w.isOpen
    requires forall step | step in steps :: !step.Reconnect?
    ensures !RunWorld(s, w, steps).isOpen && DeliveredIn(RunWorld(s, w, steps).log, e) == DeliveredIn(w.log, e)
    decreases |steps|
  {
    if steps != [] {
      ClosedStep(s, w, steps[0], e);
      ClosedDeliversNothing(s, Next(s, w, steps[0]), steps[1..], e);
    }
  }

  /** A client whose queue is full when a record is broadcast is the one that is cut off. */
  lemma FullQueueIsCutOff(s: Setup, w: World, e: Entry, id: nat)
    requires id in w.clients && w.clients[id].registered
    ensures IsCutOff(Broadcast(s, w, e), id, w.clients[id].written) <==> |w.clients[id].queue| >= s.queueDepth
  {
  }
}
