/** The resident bridge: it moves blocks from the backend to a capture and to its clients. */
module BridgeImplementation {
  import opened Bytes
  import opened Wrappers
  import opened Mailbox
  import opened BridgeTransaction
  import opened BridgeWorld
  import opened MockBackendImplementation

  datatype Stats = Stats(
    blocks: nat, payloadBytes: nat, overflowCount: u32, droppedBytes: u32, bufferUsed: u32,
    reconnects: nat, slowClients: nat)

  /** The statistics show the mailbox as it was at the header read. */
  predicate HeaderIsCounted(stats: Stats, f: Fifo)
    requires Mailbox.Ok(f)
  {
    && stats.overflowCount == Low32(f.refusals)
    && stats.droppedBytes == Low32(f.dropped)
    && stats.bufferUsed == Available(f)
  }

  class Bridge {
    const backend: MockBackend
    const identity: TargetIdentity
    const blockSize: nat
    const queueDepth: nat
    var sessionId: u32
    var stats: Stats
    var capture: seq<byte>

    /** Every connection with its queue; `registered` says that the queue is among those served by
        broadcasts. */
    var clients: map<nat, Client>

    /** The number of broadcasts so far, kept to say where in the log a client joined. */
    var broadcasts: nat

    ghost var log: seq<Entry>

    ghost predicate Sound()
      reads this, backend, backend.model, backend.model.buffer
    {
      ValidSetup(Setting()) && backend.model.Valid() && broadcasts == |log|
    }

    /** In addition the capture holds every block that was sent, in order. */
    ghost predicate Valid()
      reads this, backend, backend.model, backend.model.buffer
    {
      && Sound()
      && capture == DataOf(log)
      && stats.payloadBytes == |capture|
    }

    function Setting(): Setup {
      Setup(backend.model.buildId, identity.buildId, blockSize, queueDepth)
    }

    /** The state as the state machine of `BridgeWorld` sees it. */
    ghost function State(): World
      requires Sound()
      reads this, backend, backend.model, backend.model.buffer
    {
      World(backend.model.fifo, backend.isOpen, sessionId, log, clients)
    }

    function Registered(): (ids: set<nat>)
      reads this
      ensures ids <= clients.Keys
    {
      set id | id in clients && clients[id].registered
    }

    /** The clients that cannot take another record. */
    ghost function FullQueues(): set<nat>
      reads this
    {
      set id | id in clients && clients[id].registered && queueDepth <= |clients[id].queue|
    }

    constructor (backend: MockBackend, identity: TargetIdentity, blockSize: nat, queueDepth: nat)
      requires backend.model.Valid()
      requires 1 <= blockSize <= MAX_BLOCK_SIZE && 1 <= queueDepth
      ensures Valid() && this.backend == backend && this.identity == identity
      ensures State() == Start(backend.model.fifo).(isOpen := backend.isOpen)
      ensures capture == []
    {
      this.backend, this.identity, this.blockSize, this.queueDepth := backend, identity, blockSize, queueDepth;
      sessionId, stats, capture := 0, Stats(0, 0, 0, 0, 0, 0, 0), [];
      clients, broadcasts, log := map[], 0, [];
    }

    // --------------------------------------------------------------------- fan-out

    /** `_disconnect`: deregister, empty the queue, put the sentinel. */
    method DisconnectQueue(id: nat)
      requires id in clients
      modifies this`clients
      ensures clients == old(clients)[id := Disconnect(old(clients)[id])]
    {
      var c := clients[id].(registered := false);
      while c.queue != []
        invariant c == old(clients)[id].(registered := false, queue := c.queue)
        decreases |c.queue|
      {
        c := c.(queue := c.queue[1..]);
      }
      clients := clients[id := c.(queue := [Stop])];
    }

    /** One `put_nowait`, or the disconnection of a slow client. */
    method OfferTo(id: nat, record: Record)
      requires id in clients && clients[id].registered
      modifies this`clients, this`stats
      ensures clients == old(clients)[id := Offer(old(clients)[id], record, queueDepth)]
      ensures stats == old(stats).(slowClients := old(stats).slowClients
                                                  + if |old(clients)[id].queue| < queueDepth then 0 else 1)
    {
      var c := clients[id];
      if |c.queue| < queueDepth {
        clients := clients[id := c.(queue := c.queue + [Send(record)])];
      } else {
        stats := stats.(slowClients := stats.slowClients + 1);
        DisconnectQueue(id);
      }
    }

    /** `_broadcast`, over a snapshot of the registered queues. */
    method Broadcast(record: Record, ghost epoch: nat)
      requires Sound()
      modifies this`clients, this`stats, this`log, this`broadcasts
      ensures Sound()
      ensures State() == BridgeWorld.Broadcast(Setting(), old(State()), Entry(record, epoch))
      ensures stats == old(stats).(slowClients := old(stats).slowClients + |old(FullQueues())|)
    {
      OfferToAll(record);
      log, broadcasts := log + [Entry(record, epoch)], broadcasts + 1;
    }

    method OfferToAll(record: Record)
      modifies this`clients, this`stats
      ensures clients == map id | id in old(clients) :: Offer(old(clients)[id], record, queueDepth)
      ensures stats == old(stats).(slowClients := old(stats).slowClients + |old(FullQueues())|)
    {
      ghost var before, full := clients, FullQueues();
      OfferEach(Registered(), record, full);
      assert clients == map id | id in before :: Offer(before[id], record, queueDepth);
    }

    /** The loop over the snapshot `ids`; the queues in `full` overflow. */
    method OfferEach(ids: set<nat>, record: Record, ghost full: set<nat>)
      requires IsOffered(clients, ids, record) && full <= ids && AreFull(clients, ids, full)
      modifies this`clients, this`stats
      ensures IsOffered(old(clients), {}, record)
      ensures stats == old(stats).(slowClients := old(stats).slowClients + |full|)
    {
      var todo := ids;
      ghost var before := clients;
      assert full - todo == {};
      while todo != {}
        invariant IsOffered(before, todo, record) && AreFull(before, todo, full)
        invariant stats == old(stats).(slowClients := old(stats).slowClients + |full - todo|)
      {
        var id :| id in todo;
        OfferInTurn(id, record, before, todo, full);
        todo := todo - {id};
      }
      assert full - todo == full;
    }

    /** Every client but those in `todo` was offered the record. */
    ghost predicate IsOffered(before: map<nat, Client>, todo: set<nat>, record: Record)
      reads this
    {
      && clients.Keys == before.Keys
      && (forall id | id in todo :: id in before && before[id].registered)
      && (forall id | id in before ::
            clients[id] == if id in todo then before[id] else Offer(before[id], record, queueDepth))
    }

    /** Of the clients in `todo`, those in `full` cannot take the record. */
    ghost predicate AreFull(before: map<nat, Client>, todo: set<nat>, full: set<nat>) {
      forall id | id in todo :: id in before && (id in full <==> queueDepth <= |before[id].queue|)
    }

    method OfferInTurn(id: nat, record: Record, ghost before: map<nat, Client>, ghost todo: set<nat>, ghost full: set<nat>)
      requires IsOffered(before, todo, record) && AreFull(before, todo, full) && id in todo
      modifies this`clients, this`stats
      ensures IsOffered(before, todo - {id}, record) && AreFull(before, todo - {id}, full)
      ensures stats == old(stats).(slowClients := stats.slowClients)
      ensures stats.slowClients + |full - todo| == old(stats).slowClients + |full - (todo - {id})|
    {
      OneMoreDone(full, todo, id);
      OfferTo(id, record);
    }

    // ------------------------------------------------------------------------ pump

    /** `_read_transaction`, with the FPGA acting between the calls to the backend. */
    method ReadTransaction(afterHeader: seq<FpgaAction>, afterBlock: seq<FpgaAction>) returns (outcome: Outcome)
      requires Valid()
      modifies backend.model, backend.model.buffer
      ensures Valid()
      ensures clients == old(clients) && backend.isOpen == old(backend.isOpen)
      ensures if !backend.isOpen then outcome == Raised && backend.model.fifo == old(backend.model.fifo)
              else (backend.model.fifo, outcome) == Transact(Setting(), old(backend.model.fifo), afterHeader, afterBlock)
    {
      var maybeHeader := backend.ReadHeader();
      if maybeHeader.Err? {
        return Raised;
      }
      var header := maybeHeader.value;
      if header.buildId != identity.buildId {
        return Raised;
      }
      if header.availableBytes == 0 {
        return Idle(header);
      }
      var length := Min(header.availableBytes, blockSize);
      PlayFpga(backend.model, afterHeader);
      var maybeBlock := backend.ReadBlock(length);
      if maybeBlock.Err? {
        return Raised;
      }
      var block := maybeBlock.value;
      if block.sessionId != header.sessionId || block.startCount != header.readCount || |block.data| != length {
        return Raised;
      }
      PlayFpga(backend.model, afterBlock);
      var committed := backend.Commit(block);
      if committed.Err? {
        return Raised;
      }
      return Delivered(header, block.data);
    }

    /** The session part of `pump_once`. */
    method AnnounceSession(newId: u32, ghost epoch: nat)
      requires Valid()
      modifies this
      ensures Valid()
      ensures State() == Announce(Setting(), old(State()), newId, epoch)
      ensures stats == old(stats).(slowClients := old(stats).slowClients
                                                  + if newId == old(sessionId) then 0 else |old(FullQueues())|)
    {
      if newId != sessionId {
        var previous := sessionId;
        sessionId := newId;
        Broadcast(Session(previous, newId), epoch);
        DataOfOne(old(log), log[|old(log)|]);
      }
    }

    /** The block part of `pump_once`: capture, count, broadcast. */
    method DeliverBlock(data: seq<byte>, ghost epoch: nat)
      requires Valid()
      modifies this
      ensures Valid()
      ensures State() == BridgeWorld.Broadcast(Setting(), old(State()), Entry(Data(data), epoch))
      ensures capture == old(capture) + data
      ensures stats == old(stats).(blocks := old(stats).blocks + 1, payloadBytes := old(stats).payloadBytes + |data|,
                                   slowClients := old(stats).slowClients + |old(FullQueues())|)
    {
      capture := capture + data;
      stats := stats.(blocks := stats.blocks + 1, payloadBytes := stats.payloadBytes + |data|);
      Broadcast(Data(data), epoch);
      DataOfOne(old(log), log[|old(log)|]);
    }

    method PumpOnce(afterHeader: seq<FpgaAction>, afterBlock: seq<FpgaAction>) returns (moved: Result<nat, ()>)
      requires Valid()
      modifies this, backend.model, backend.model.buffer
      ensures Valid()
      ensures State() == BridgeWorld.PumpOnce(Setting(), old(State()), afterHeader, afterBlock)
      ensures moved.Err? <==>
                || !old(backend.isOpen)
                || Transact(Setting(), old(backend.model.fifo), afterHeader, afterBlock).1.Raised?
      ensures |capture| == |old(capture)| + if moved.Ok? then moved.value else 0
      ensures moved.Err? ==> stats == old(stats)
      ensures moved.Ok? ==> HeaderIsCounted(stats, old(backend.model.fifo))
      ensures moved.Ok? ==> stats.blocks == old(stats).blocks + (if moved.value == 0 then 0 else 1)
      ensures moved.Ok? ==> stats.payloadBytes == old(stats).payloadBytes + moved.value
      ensures stats.reconnects == old(stats).reconnects && old(stats).slowClients <= stats.slowClients
    {
      ghost var epoch := Epoch(backend.model.fifo);
      var outcome := ReadTransaction(afterHeader, afterBlock);
      if outcome.Raised? {
        return Err(());
      }
      var header := outcome.header;
      AnnounceSession(header.sessionId, epoch);
      stats := stats.(overflowCount := header.overflowCount, droppedBytes := header.droppedBytes,
                      bufferUsed := header.availableBytes);
      if outcome.Idle? {
        return Result.Ok(0);
      }
      DeliverBlock(outcome.data, epoch);
      return Result.Ok(|outcome.data|);
    }

    method PublishStatus()
      requires Valid()
      modifies this
      ensures Valid()
      ensures State() == Next(Setting(), old(State()), BridgeWorld.PublishStatus)
      ensures stats == old(stats).(slowClients := old(stats).slowClients + |old(FullQueues())|)
    {
      Broadcast(Status, Epoch(backend.model.fifo));
      DataOfOne(old(log), log[|old(log)|]);
    }

    /** `reconnect_once`; the backend may list the original target once, not at all or repeatedly. */
    method ReconnectOnce() returns (r: Result<(), ()>)
      requires Valid()
      modifies this`stats, backend
      ensures Valid()
      ensures State() == Next(Setting(), old(State()), Reconnect(OccursOnce(backend.targets, identity)))
      ensures r.Ok? == backend.isOpen
      ensures r.Ok? <==> OccursOnce(backend.targets, identity) && backend.model.buildId == identity.buildId
      ensures stats == if r.Ok? then old(stats).(reconnects := old(stats).reconnects + 1) else old(stats)
    {
      backend.Close();
      var matches := Count(backend.targets, identity);
      if matches != 1 {
        return Err(());
      }
      var opened' := backend.Open(identity);
      if opened'.Err? {
        assert false;
      }
      var header := backend.ReadHeader();
      if header.value.buildId != identity.buildId {
        backend.Close();
        return Err(());
      }
      stats := stats.(reconnects := stats.reconnects + 1);
      return Result.Ok(());
    }

    method Close()
      requires Valid()
      modifies this, backend
      ensures Valid()
      ensures State() == Next(Setting(), old(State()), Shutdown)
    {
      var todo := Registered();
      ghost var before := clients;
      while todo != {}
        modifies this`clients
        invariant clients.Keys == before.Keys
        invariant forall id | id in todo :: id in before && before[id].registered
        invariant forall id | id in before ::
                    clients[id] == if id in todo || !before[id].registered then before[id] else Disconnect(before[id])
      {
        var id :| id in todo;
        DisconnectQueue(id);
        todo := todo - {id};
      }
      assert clients == map id | id in before :: if before[id].registered then Disconnect(before[id]) else before[id];
      backend.Close();
    }

    // --------------------------------------------------------------------- clients

    /** A client connects: its queue is registered and HELLO is written before anything else. */
    method JoinClient(id: nat)
      requires Valid() && id !in clients
      modifies this`clients
      ensures Valid()
      ensures State() == Next(Setting(), old(State()), Join(id))
    {
      clients := clients[id := Client(broadcasts, sessionId, [], [], true, false)];
    }

    /** One turn of the loop in `_record_client`. */
    method ServeClient(id: nat)
      requires Valid() && id in clients
      modifies this`clients
      ensures Valid()
      ensures State() == Next(Setting(), old(State()), BridgeWorld.ServeClient(id))
    {
      var c := clients[id];
      if !c.finished && c.queue != [] {
        var item := c.queue[0];
        c := c.(queue := c.queue[1..]);
        match item {
          case Send(record) => c := c.(written := c.written + [record]);
          case Stop => c := c.(registered := false, finished := true);
        }
      }
      clients := clients[id := c];
    }

    /** The connection of a client breaks. */
    method HangupClient(id: nat)
      requires Valid() && id in clients
      modifies this`clients
      ensures Valid()
      ensures State() == Next(Setting(), old(State()), BridgeWorld.HangupClient(id))
      ensures !clients[id].registered && clients[id].finished && clients[id].written == old(clients)[id].written
    {
      clients := clients[id := clients[id].(registered := false, finished := true)];
    }
  }

  lemma OneMoreDone(all: set<nat>, todo: set<nat>, id: nat)
    requires id in todo
    ensures |all - (todo - {id})| == |all - todo| + if id in all then 1 else 0
  {
    if id in all {
      assert all - (todo - {id}) == all - todo + {id};
    } else {
      assert all - (todo - {id}) == all - todo;
    }
  }

  /** The bytes of the DATA records among some log entries. */
  function DataOf(log: seq<Entry>): seq<byte> {
    if log == [] then []
    else
      var last := log[|log| - 1].record;
      DataOf(log[..|log| - 1]) + (if last.Data? then last.bytes else [])
  }

  lemma DataOfOne(log: seq<Entry>, e: Entry)
    ensures DataOf(log + [e]) == DataOf(log) + if e.record.Data? then e.record.bytes else []
  {
  }

  function Occurrences(targets: seq<TargetIdentity>, identity: TargetIdentity): nat {
    if targets == [] then 0
    else (if targets[0] == identity then 1 else 0) + Occurrences(targets[1..], identity)
  }

  predicate OccursOnce(targets: seq<TargetIdentity>, identity: TargetIdentity) {
    Occurrences(targets, identity) == 1
  }

  lemma {:induction false} OccursNowhereIff(targets: seq<TargetIdentity>, identity: TargetIdentity)
    ensures Occurrences(targets, identity) == 0 <==> identity !in targets
    decreases |targets|
  {
    if targets != [] {
      OccursNowhereIff(targets[1..], identity);
    }
  }

  /** The identity is listed at one place and no other. */
  lemma {:induction false} OccursOnceIff(targets: seq<TargetIdentity>, identity: TargetIdentity)
    ensures OccursOnce(targets, identity) <==>
            exists k :: 0 <= k < |targets| && targets[k] == identity && identity !in targets[..k] && identity !in targets[k + 1..]
    decreases |targets|
  {
    if targets != [] {
      OccursNowhereIff(targets[1..], identity);
      OccursOnceIff(targets[1..], identity);
      assert forall k | 0 <= k < |targets| - 1 ::
          targets[1..][k] == targets[k + 1] && targets[1..][k + 1..] == targets[k + 1 + 1..]
          && targets[..k + 1] == [targets[0]] + targets[1..][..k];
    }
  }

  method Count(targets: seq<TargetIdentity>, identity: TargetIdentity) returns (n: nat)
    ensures n == Occurrences(targets, identity)
    ensures 0 < n ==> identity in targets
  {
    n := 0;
    for i := 0 to |targets|
      invariant n + Occurrences(targets[i..], identity) == Occurrences(targets, identity)
      invariant 0 < n ==> identity in targets
    {
      assert targets[i..][1..] == targets[i + 1..];
      if targets[i] == identity {
        n := n + 1;
      }
    }
  }
}
