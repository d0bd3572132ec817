/** The bridge, the mailbox behind it, the FPGA that fills the mailbox and the clients that join, read
    and leave, as one state machine. `log` is the history of all broadcast records; each entry also
    names the session number (counted without wrap-around) of the header it stems from. */
module BridgeWorld {
  import opened Bytes
  import opened Mailbox
  import opened BridgeTransaction

  datatype Record = Session(previous: u32, current: u32) | Data(bytes: seq<byte>) | Status

  /** A queue element; `Stop` is the sentinel that ends a client. */
  datatype Item = Send(record: Record) | Stop

  /** `written` is what the socket got after HELLO, `greeting` the session HELLO announced,
      `joinedAt` the length of the log at that moment. */
  datatype Client = Client(
    joinedAt: nat, greeting: u32, written: seq<Record>, queue: seq<Item>,
    registered: bool, finished: bool)

  datatype Entry = Entry(record: Record, epoch: nat)

  datatype World = World(
    fifo: Fifo, isOpen: bool, sessionId: u32, log: seq<Entry>, clients: map<nat, Client>)

  function Start(f: Fifo): World {
    World(f, true, 0, [], map[])
  }

  // ----------------------------------------------------------------------- fan-out

  /** `put_nowait`, or disconnection when the queue is full. */
  function Offer(c: Client, r: Record, depth: nat): Client {
    if !c.registered then c
    else if |c.queue| < depth then c.(queue := c.queue + [Send(r)])
    else Disconnect(c)
  }

  function Disconnect(c: Client): Client {
    c.(registered := false, queue := [Stop])
  }

  function Broadcast(s: Setup, w: World, e: Entry): World {
    w.(log := w.log + [e],
       clients := map id | id in w.clients :: Offer(w.clients[id], e.record, s.queueDepth))
  }

  /** One turn of a client's loop. */
  function Serve(c: Client): Client {
    if c.finished || c.queue == [] then c
    else match c.queue[0]
         case Send(r) => c.(written := c.written + [r], queue := c.queue[1..])
         case Stop => c.(queue := c.queue[1..], registered := false, finished := true)
  }

  function Hangup(c: Client): Client {
    c.(registered := false, finished := true)
  }

  // ------------------------------------------------------------------------- steps

  datatype Step =
    | FpgaStep(action: FpgaAction)
    | Pump(afterHeader: seq<FpgaAction>, afterBlock: seq<FpgaAction>)
    | PublishStatus
    | Join(id: nat)
    | ServeClient(id: nat)
    | HangupClient(id: nat)
    | Reconnect(uniquelyPresent: bool)
    | Shutdown

  /** A change of session is announced before anything of the new session is sent. */
  function Announce(s: Setup, w: World, sessionId: u32, epoch: nat): World {
    if sessionId == w.sessionId then w
    else Broadcast(s, w.(sessionId := sessionId), Entry(Session(w.sessionId, sessionId), epoch))
  }

  /** What the bridge does with the outcome of a transaction that left the mailbox in state `g`. */
  function Handle(s: Setup, w: World, g: Fifo, outcome: Outcome): World {
    var epoch := Epoch(w.fifo);
    match outcome
    case Raised => w.(fifo := g)
    case Idle(h) => Announce(s, w.(fifo := g), h.sessionId, epoch)
    case Delivered(h, data) =>
      Broadcast(s, Announce(s, w.(fifo := g), h.sessionId, epoch), Entry(Data(data), epoch))
  }

  function PumpOnce(s: Setup, w: World, afterHeader: seq<FpgaAction>, afterBlock: seq<FpgaAction>): World
    requires Mailbox.Ok(w.fifo)
  {
    if !w.isOpen then w
    else
      var (g, outcome) := Transact(s, w.fifo, afterHeader, afterBlock);
      Handle(s, w, g, outcome)
  }

  function Next(s: Setup, w: World, step: Step): (v: World)
    requires Mailbox.Ok(w.fifo)
    ensures Mailbox.Ok(v.fifo)
  {
    match step
    case FpgaStep(a) => w.(fifo := Fpga(w.fifo, [a]))
    case Pump(afterHeader, afterBlock) => PumpOnce(s, w, afterHeader, afterBlock)
    case PublishStatus => Broadcast(s, w, Entry(Status, Epoch(w.fifo)))
    case Join(id) =>
      if id in w.clients then w
      else w.(clients := w.clients[id := Client(|w.log|, w.sessionId, [], [], true, false)])
    case ServeClient(id) =>
      if id in w.clients then w.(clients := w.clients[id := Serve(w.clients[id])]) else w
    case HangupClient(id) =>
      if id in w.clients then w.(clients := w.clients[id := Hangup(w.clients[id])]) else w
    case Reconnect(unique) => w.(isOpen := unique && s.buildId == s.identityBuildId)
    case Shutdown =>
      w.(isOpen := false,
         clients := map id | id in w.clients ::
                      if w.clients[id].registered then Disconnect(w.clients[id]) else w.clients[id])
  }

  function RunWorld(s: Setup, w: World, steps: seq<Step>): (v: World)
    requires Mailbox.Ok(w.fifo)
    ensures Mailbox.Ok(v.fifo)
    decreases |steps|
  {
    if steps == [] then w else RunWorld(s, Next(s, w, steps[0]), steps[1..])
  }

  /** The actions that reach the mailbox in a step, and in a run. */
  function StepActions(s: Setup, w: World, step: Step): seq<Action>
    requires Mailbox.Ok(w.fifo)
  {
    match step
    case FpgaStep(a) => [AsAction(a)]
    case Pump(afterHeader, afterBlock) => if w.isOpen then TransactActions(s, w.fifo, afterHeader, afterBlock) else []
    case _ => []
  }

  function MailboxActions(s: Setup, w: World, steps: seq<Step>): seq<Action>
    requires Mailbox.Ok(w.fifo)
    decreases |steps|
  {
    if steps == [] then []
    else StepActions(s, w, steps[0]) + MailboxActions(s, Next(s, w, steps[0]), steps[1..])
  }

  /** Between two calls of a transaction the session identifiers never go round completely. */
  predicate FewResets(step: Step) {
    step.Pump? ==> ResetCount(step.afterHeader) < SESSIONS && ResetCount(step.afterBlock) < SESSIONS
  }

  // ------------------------------------------------------------------- observations

  function Records(log: seq<Entry>): seq<Record> {
    seq(|log|, i requires 0 <= i < |log| => log[i].record)
  }

  /** The session in force after `records`, when `initial` was in force before. */
  function Announced(initial: u32, records: seq<Record>): u32 {
    if records == [] then initial
    else
      var last := records[|records| - 1];
      if last.Session? then last.current else Announced(initial, records[..|records| - 1])
  }

  /** The bytes delivered from session number `epoch`, in order. */
  function DeliveredIn(log: seq<Entry>, epoch: nat): seq<byte> {
    if log == [] then []
    else
      var last := log[|log| - 1];
      DeliveredIn(log[..|log| - 1], epoch) +
      (if last.record.Data? && last.epoch == epoch then last.record.bytes else [])
  }

  // --------------------------------------------------------------------- invariants

  /** Exactly-once delivery. */
  ghost predicate DeliveryOk(w: World) {
    && (forall e: nat :: DeliveredIn(w.log, e) <= AcceptedIn(w.fifo, e))
    && w.fifo.consumed <= |w.fifo.accepted|
    && DeliveredIn(w.log, Epoch(w.fifo)) == w.fifo.accepted[..w.fifo.consumed]
    && (forall i | 0 <= i < |w.log| :: w.log[i].epoch <= Epoch(w.fifo))
    && (forall i, j | 0 <= i < j < |w.log| :: w.log[i].epoch <= w.log[j].epoch)
  }

  /** A record that may follow when `announced` is the session last announced: a block is of that session, and a
      change of session starts from it. */
  predicate MayFollow(announced: u32, e: Entry) {
    match e.record
    case Session(previous, current) => previous == announced && previous != current
    case Data(_) => announced == SessionId(e.epoch)
    case Status => true
  }

  /** Every block is sent while its own session is the announced one, and every change is announced once. */
  ghost predicate SessionsOk(w: World) {
    && w.sessionId == Announced(0, Records(w.log))
    && forall i | 0 <= i < |w.log| :: MayFollow(Announced(0, Records(w.log[..i])), w.log[i])
  }

  /** What a client has been written, and what waits in its queue, are consecutive parts of the log. */
  ghost predicate ClientOk(c: Client, log: seq<Entry>, depth: nat) {
    && c.joinedAt <= |log|
    && c.greeting == Announced(0, Records(log[..c.joinedAt]))
    && c.written <= Records(log)[c.joinedAt..]
    && |c.queue| <= depth
    && (c.registered ==> !c.finished && c.queue == Sends(Records(log)[c.joinedAt + |c.written|..]))
    && (!c.registered && !c.finished ==> c.queue == [Stop])
  }

  function Sends(records: seq<Record>): seq<Item> {
    seq(|records|, i requires 0 <= i < |records| => Send(records[i]))
  }

  ghost predicate ClientsOk(s: Setup, w: World) {
    forall id | id in w.clients :: ClientOk(w.clients[id], w.log, s.queueDepth)
  }

  ghost predicate Inv(s: Setup, w: World) {
    && Mailbox.Ok(w.fifo)
    && DeliveryOk(w)
    && SessionsOk(w)
    && ClientsOk(s, w)
  }
}
