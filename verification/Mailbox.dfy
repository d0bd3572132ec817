/** What the mailbox means: a bounded queue of bytes that refuses the newest, seen through 32-bit
    counters. The counts here are unbounded; the class `MailboxModel` keeps their remainders. */
module Mailbox {
  import opened Bytes
  import opened Wrappers

  predicate SupportedSize(size: int) {
    size == 4096 || size == 8192 || size == 16384 || size == 32768 || size == 65536
  }

  const MAX_BLOCK_SIZE := 1024

  /** `past` holds, for each finished session, the bytes accepted in it; `accepted`, `consumed`,
      `refusals` and `dropped` describe the current one. */
  datatype Fifo = Fifo(
    capacity: nat, past: seq<seq<byte>>,
    accepted: seq<byte>, consumed: nat, refusals: nat, dropped: nat)

  ghost predicate Ok(f: Fifo) {
    && SupportedSize(f.capacity)
    && f.consumed <= |f.accepted| <= f.consumed + f.capacity
  }

  function New(capacity: nat): Fifo {
    Fifo(capacity, [], [], 0, 0, 0)
  }

  /** The bytes accepted and not yet consumed. */
  function Contents(f: Fifo): seq<byte>
    requires f.consumed <= |f.accepted|
  {
    f.accepted[f.consumed..]
  }

  /** How many resets there have been. */
  function Epoch(f: Fifo): nat {
    |f.past|
  }

  /** The bytes accepted in session number `e`. */
  function AcceptedIn(f: Fifo, e: nat): seq<byte> {
    if e < |f.past| then f.past[e] else if e == |f.past| then f.accepted else []
  }

  // --------------------------------------------------------------- observations

  /** Session identifiers run from 1 to 2^32 - 1 and start again; 0 is never used. */
  const SESSIONS := U32_MODULUS - 1

  function SessionId(epoch: nat): u32 {
    if epoch < SESSIONS then epoch + 1 else SessionId(epoch - SESSIONS)
  }

  function WriteCount(f: Fifo): u32 {
    Low32(|f.accepted|)
  }

  function ReadCount(f: Fifo): u32 {
    Low32(f.consumed)
  }

  function Available(f: Fifo): nat
    requires f.consumed <= |f.accepted|
  {
    |f.accepted| - f.consumed
  }

  // ------------------------------------------------------------------- operations

  function Room(f: Fifo): nat
    requires Ok(f)
  {
    f.capacity - Available(f)
  }

  /** Accept what fits, refuse the rest. */
  function Write(f: Fifo, data: seq<byte>): (g: Fifo)
    requires Ok(f)
    ensures Ok(g)
  {
    var n := Min(|data|, Room(f));
    f.(accepted := f.accepted + data[..n],
       refusals := if n < |data| then f.refusals + 1 else f.refusals,
       dropped := f.dropped + |data| - n)
  }

  function Reset(f: Fifo): (g: Fifo)
    requires Ok(f)
    ensures Ok(g)
  {
    Fifo(f.capacity, f.past + [f.accepted], [], 0, 0, 0)
  }

  datatype Transaction = Transaction(sessionId: u32, startCount: u32, data: seq<byte>)

  datatype Error = EmptyRead | InvalidRead | StaleTransaction

  function BeginRead(f: Fifo, length: int): Result<Transaction, Error>
    requires Ok(f)
  {
    if length <= 0 || length > MAX_BLOCK_SIZE then Err(InvalidRead)
    else if Available(f) == 0 then Err(EmptyRead)
    else if length > Available(f) then Err(InvalidRead)
    else Result.Ok(Transaction(SessionId(Epoch(f)), ReadCount(f), Contents(f)[..length]))
  }

  /** Whether the mailbox takes a commit: it can only compare the two identifying numbers. */
  predicate Accepts(f: Fifo, t: Transaction)
    requires Ok(f)
  {
    t.sessionId == SessionId(Epoch(f)) && t.startCount == ReadCount(f) && |t.data| <= Available(f)
  }

  function Commit(f: Fifo, t: Transaction): (g: Fifo)
    requires Ok(f) && Accepts(f, t)
    ensures Ok(g)
  {
    f.(consumed := f.consumed + |t.data|)
  }

  // ------------------------------------------------------------------------- runs

  datatype Action = Writing(data: seq<byte>) | Resetting | Committing(t: Transaction)

  function Step(f: Fifo, a: Action): (g: Fifo)
    requires Ok(f)
    ensures Ok(g)
  {
    match a
    case Writing(data) => Write(f, data)
    case Resetting => Reset(f)
    case Committing(t) => if Accepts(f, t) then Commit(f, t) else f
  }

  function Run(f: Fifo, actions: seq<Action>): (g: Fifo)
    requires Ok(f)
    ensures Ok(g)
    decreases |actions|
  {
    if actions == [] then f else Run(Step(f, actions[0]), actions[1..])
  }

  function Resets(actions: seq<Action>): nat {
    if actions == [] then 0 else (if actions[0].Resetting? then 1 else 0) + Resets(actions[1..])
  }

  /** What is offered in session number `e` of a run that begins in session `now`, write by write. */
  function WritesIn(now: nat, actions: seq<Action>, e: nat): seq<seq<byte>>
    decreases |actions|
  {
    if actions == [] then []
    else match actions[0]
         case Writing(data) => (if now == e then [data] else []) + WritesIn(now, actions[1..], e)
         case Resetting => WritesIn(now + 1, actions[1..], e)
         case Committing(_) => WritesIn(now, actions[1..], e)
  }

  /** How many bytes are refused in session number `e`: by how much the published count grows. */
  function RefusedIn(f: Fifo, actions: seq<Action>, e: nat): nat
    requires Ok(f)
    decreases |actions|
  {
    if actions == [] then 0
    else
      var g := Step(f, actions[0]);
      (if Epoch(f) == e && actions[0].Writing? then g.dropped - f.dropped else 0) + RefusedIn(g, actions[1..], e)
  }

  /** How many writes of session number `e` are not accepted completely. */
  function ShortWritesIn(f: Fifo, actions: seq<Action>, e: nat): nat
    requires Ok(f)
    decreases |actions|
  {
    if actions == [] then 0
    else
      var g := Step(f, actions[0]);
      (if Epoch(f) == e && actions[0].Writing? && |g.accepted| < |f.accepted| + |actions[0].data| then 1 else 0)
      + ShortWritesIn(g, actions[1..], e)
  }

  /** The bytes offered since the last reset of the run, given those offered before it. */
  function OfferedSince(before: nat, actions: seq<Action>): nat
    decreases |actions|
  {
    if actions == [] then before
    else
      var now := match actions[0]
                 case Writing(data) => before + |data|
                 case Resetting => 0
                 case Committing(_) => before;
      OfferedSince(now, actions[1..])
  }
}
