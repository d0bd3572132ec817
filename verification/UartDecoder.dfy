/** The board validator's frame decoder, which resynchronises after damaged or foreign bytes. */
module UartDecoder {
  import opened Bytes
  import opened DebugProtocol
  import opened StreamScan

  datatype Event =
    | Dropped(value: byte)                      // not the start of a frame
    | Rejected(raw: seq<byte>)                  // a complete candidate with a wrong checksum
    | Received(kind: byte, payload: seq<byte>)  // a valid frame

  /** What the decoder does with the head of its buffer. */
  function Next(b: seq<byte>): Verdict<Event> {
    if |b| < 5 then Wait
    else if b[0] != SOF then Take(1, Dropped(b[0]))
    else if b[1] != VERSION || !IsKnown(b[2]) || b[3] > MAX_PAYLOAD then Take(1, Dropped(SOF))
    else
      var total := b[3] as int + 5;
      if |b| < total then Wait
      else if XorFold(0, b[1..total - 1]) != b[total - 1] then Take(1, Rejected(b[..total]))
      else Take(total, Received(b[2], b[4..total - 1]))
  }

  /** The bytes an event consumed: one byte, or the whole frame, re-encoded. */
  function Spelling(e: Event): seq<byte> {
    match e
    case Dropped(value) => [value]
    case Rejected(_) => [SOF]
    case Received(kind, payload) => if |payload| < 256 then Frame(kind, payload) else []
  }

  // ------------------------------------------------------------------ counters

  datatype Tally = Tally(
    frames: seq<(byte, seq<byte>)>, checksumErrors: nat, syncDrops: nat, versionErrors: nat,
    locked: bool, badFrames: seq<seq<byte>>)

  const NOTHING_YET := Tally([], 0, 0, 0, false, [])

  function Count(t: Tally, e: Event): Tally {
    match e
    case Dropped(_) => t.(syncDrops := t.syncDrops + 1)
    case Rejected(raw) =>
      if !t.locked then t.(syncDrops := t.syncDrops + 1)
      else t.(checksumErrors := t.checksumErrors + 1,
              badFrames := if |t.badFrames| < 4 then t.badFrames + [raw] else t.badFrames)
    case Received(kind, payload) => t.(frames := t.frames + [(kind, payload)], locked := true)
  }

  function CountAll(t: Tally, events: seq<Event>): Tally
    decreases |events|
  {
    if events == [] then t else CountAll(Count(t, events[0]), events[1..])
  }

  /** The decoder's state: what it has counted and the bytes it keeps. */
  datatype State = State(tally: Tally, buffer: seq<byte>)

  const INITIAL := State(NOTHING_YET, [])

  /** One leftmost-match scan of the kept bytes. */
  function Settle(s: State): State {
    var scan := Scan(Next, s.buffer);
    State(CountAll(s.tally, scan.events), scan.rest)
  }

  /** One leftmost-match scan of the kept bytes followed by `data`. */
  function After(s: State, data: seq<byte>): State {
    Settle(s.(buffer := s.buffer + data))
  }

  /** One event was handled as `Next` says. */
  ghost predicate IsStep(s: State, t: State) {
    && Next(s.buffer).Take?
    && Next(s.buffer).n <= |s.buffer|
    && t == State(Count(s.tally, Next(s.buffer).event), s.buffer[Next(s.buffer).n..])
  }

  lemma Stepped(s: State, t: State)
    requires IsStep(s, t)
    ensures Settle(t) == Settle(s)
  {
  }

  /** What `Next` makes of a complete candidate, in terms of its bytes. */
  lemma NextOfCandidate(b: seq<byte>, total: nat)
    requires 5 <= |b| && b[0] == SOF && b[1] == VERSION && IsKnown(b[2]) && b[3] <= MAX_PAYLOAD
    requires total == b[3] as int + 5 <= |b|
    ensures var raw := b[..total];
            Next(b) == if XorFold(0, raw[1..total - 1]) != raw[total - 1] then Take(1, Rejected(raw))
                       else Take(total, Received(raw[2], raw[4..total - 1]))
  {
    SliceOfPrefix(b, total, 1, total - 1);
    SliceOfPrefix(b, total, 4, total - 1);
  }

  class Decoder {
    var buffer: seq<byte>
    var frames: seq<(byte, seq<byte>)>
    var checksumErrors: nat
    var syncDrops: nat
    var versionErrors: nat
    var locked: bool
    var badFrames: seq<seq<byte>>

    function Current(): State
      reads this
    {
      State(Tally(frames, checksumErrors, syncDrops, versionErrors, locked, badFrames), buffer)
    }

    constructor ()
      ensures Current() == INITIAL
    {
      buffer, frames, badFrames := [], [], [];
      checksumErrors, syncDrops, versionErrors := 0, 0, 0;
      locked := false;
    }

    method Feed(data: seq<byte>)
      modifies this
      ensures Current() == After(old(Current()), data)
    {
      buffer := buffer + data;
      ghost var goal := Settle(Current());
      while 5 <= |buffer|
        invariant Settle(Current()) == goal
        decreases |buffer|
      {
        ghost var s := Current();
        var waiting := HandleHead();
        if waiting {
          return;
        }
        Stepped(s, Current());
      }
    }

    /** One turn of the loop: handle the head of the buffer, or find that its frame is incomplete. */
    method HandleHead() returns (waiting: bool)
      requires 5 <= |buffer|
      modifies this
      ensures if waiting then Current() == old(Current()) && Next(buffer).Wait?
              else IsStep(old(Current()), Current())
    {
      var length := buffer[3] as int;
      if buffer[0] != SOF || buffer[1] != VERSION || !IsKnown(buffer[2]) || length > MAX_PAYLOAD {
        buffer := buffer[1..];
        syncDrops := syncDrops + 1;
        return false;
      }
      var total := length + 5;
      if |buffer| < total {
        return true;
      }
      var raw := buffer[..total];
      NextOfCandidate(buffer, total);
      var checksum := Checksum(raw[1..total - 1]);
      if checksum != raw[total - 1] {
        NoteMismatch(raw);
        buffer := buffer[1..];
        return false;
      }
      buffer := buffer[total..];
      if raw[1] != VERSION {
        assert false;  // the only place that would count a version error is out of reach
      }
      frames := frames + [(raw[2], raw[4..total - 1])];
      locked := true;
      return false;
    }

    /** Bookkeeping for a candidate whose checksum is wrong. Before the first valid frame it is
        only a false start. */
    method NoteMismatch(raw: seq<byte>)
      modifies `checksumErrors, `badFrames, `syncDrops
      ensures Current() == State(Count(old(Current()).tally, Rejected(raw)), buffer)
    {
      if locked {
        checksumErrors := checksumErrors + 1;
        if |badFrames| < 4 {
          badFrames := badFrames + [raw];
        }
      } else {
        syncDrops := syncDrops + 1;
      }
    }
  }
}
