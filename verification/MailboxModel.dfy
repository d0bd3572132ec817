/** The executable mailbox: a byte array used as a ring, and 32-bit counters. */
module MailboxImplementation {
  import opened Arithmetic
  import opened Bytes
  import opened Wrappers
  import opened Mailbox
  import opened MailboxHeader
  import opened MailboxTheorems

  /** The registers show the queue's counts modulo 2^32. */
  ghost predicate Shows(
    f: Fifo, sessionId: u32, writeCount: u32, readCount: u32, overflowCount: u32, droppedBytes: u32)
  {
    && sessionId == SessionId(Epoch(f))
    && writeCount == WriteCount(f)
    && readCount == ReadCount(f)
    && overflowCount == Low32(f.refusals)
    && droppedBytes == Low32(f.dropped)
  }

  lemma ShowsWrite(f: Fifo, data: seq<byte>, n: nat, s: u32, w: u32, r: u32, o: u32, d: u32)
    requires Mailbox.Ok(f) && n == Min(|data|, Room(f))
    requires Shows(f, s, w, r, o, d)
    ensures Shows(Mailbox.Write(f, data), s, Low32(|f.accepted| + n), r,
                  Low32(o + if |data| == n then 0 else 1), Low32(d + |data| - n))
  {
    Low32Add(f.refusals, if |data| == n then 0 else 1);
    Low32Add(f.dropped, |data| - n);
  }

  lemma ShowsCommit(f: Fifo, t: Transaction, s: u32, w: u32, r: u32, o: u32, d: u32)
    requires Mailbox.Ok(f) && Accepts(f, t)
    requires Shows(f, s, w, r, o, d)
    ensures Shows(Mailbox.Commit(f, t), s, w, Low32(r + |t.data|), o, d)
  {
    Low32Add(f.consumed, |t.data|);
  }

  class MailboxModel {
    const bufferSize: nat
    const buildId: u32
    const buffer: array<byte>
    var sessionId: u32
    var writeCount: u32
    var readCount: u32
    var overflowCount: u32
    var droppedBytes: u32

    ghost var fifo: Fifo

    ghost predicate Valid()
      reads this, buffer
    {
      && buffer.Length == bufferSize == fifo.capacity
      && Mailbox.Ok(fifo)
      && Shows(fifo, sessionId, writeCount, readCount, overflowCount, droppedBytes)
      && Holds(fifo.accepted, fifo.consumed)
    }

    /** Each byte from index `from` on is stored at its count modulo the buffer size. */
    ghost predicate Holds(accepted: seq<byte>, from: nat)
      requires 0 < buffer.Length
      reads buffer
    {
      forall k | from <= k < |accepted| :: buffer[k % buffer.Length] == accepted[k]
    }

    constructor (bufferSize: nat, buildId: u32)
      requires SupportedSize(bufferSize)
      ensures Valid() && fresh(buffer)
      ensures fifo == New(bufferSize) && this.buildId == buildId
    {
      this.bufferSize, this.buildId := bufferSize, buildId;
      buffer := new byte[bufferSize](_ => 0);
      sessionId := 1;
      writeCount, readCount, overflowCount, droppedBytes := 0, 0, 0, 0;
      fifo := New(bufferSize);
    }

    function AvailableBytes(): (n: u32)
      requires Valid()
      reads this, buffer
      ensures n == Available(fifo)
    {
      Low32Distinct(fifo.consumed, |fifo.accepted|);
      CounterDelta(writeCount, readCount)
    }

    function CurrentHeader(): (h: Header)
      requires Valid()
      reads this, buffer
      ensures h == HeaderOf(fifo, buildId)
    {
      Header(MAGIC, TRANSPORT_VERSION, CAPABILITIES_V1, sessionId, bufferSize, writeCount, readCount,
             AvailableBytes(), overflowCount, droppedBytes, buildId)
    }

    method Write(data: seq<byte>) returns (accepted: nat)
      requires Valid()
      modifies this, buffer
      ensures Valid()
      ensures fifo == Mailbox.Write(old(fifo), data)
      ensures accepted <= |data| && fifo.accepted == old(fifo).accepted + data[..accepted]
      ensures accepted < |data| ==> |Contents(fifo)| == bufferSize
    {
      accepted := Min(|data|, bufferSize - AvailableBytes());
      Store(data[..accepted], fifo.accepted, fifo.consumed);
      NoteDropped(|data| - accepted);
      WriteAppendsABeginning(fifo, data);
      ShowsWrite(fifo, data, accepted, old(sessionId), old(writeCount), old(readCount), old(overflowCount), old(droppedBytes));
      fifo := Mailbox.Write(fifo, data);
    }

    /** The loop of `write`, over the bytes that fit. */
    method Store(data: seq<byte>, ghost before: seq<byte>, ghost start: nat)
      requires SupportedSize(bufferSize) && buffer.Length == bufferSize
      requires writeCount == Low32(|before|)
      requires start <= |before| && |before| + |data| <= start + bufferSize && Holds(before, start)
      modifies this`writeCount, buffer
      ensures writeCount == Low32(|before| + |data|)
      ensures Holds(before + data, start)
    {
      assert before + data[..0] == before;
      for i := 0 to |data|
        invariant writeCount == Low32(|before| + i)
        invariant Holds(before + data[..i], start)
      {
        Put(data[i], before + data[..i], start);
        assert before + data[..i] + [data[i]] == before + data[..i + 1];
      }
      assert data[..|data|] == data;
    }

    method NoteDropped(dropped: nat)
      modifies this`overflowCount, this`droppedBytes
      ensures overflowCount == Low32(old(overflowCount) + if dropped == 0 then 0 else 1)
      ensures droppedBytes == Low32(old(droppedBytes) + dropped)
    {
      if dropped != 0 {
        overflowCount := Low32(overflowCount + 1);
        droppedBytes := Low32(droppedBytes + dropped);
      }
    }

    /** One turn of the write loop. */
    method Put(value: byte, ghost stored: seq<byte>, ghost from: nat)
      requires SupportedSize(bufferSize) && buffer.Length == bufferSize
      requires writeCount == Low32(|stored|)
      requires from <= |stored| < from + bufferSize && Holds(stored, from)
      modifies this`writeCount, buffer
      ensures writeCount == Low32(|stored| + 1)
      ensures Holds(stored + [value], from)
    {
      ghost var n := |stored|;
      SlotOf(n, bufferSize);
      buffer[writeCount % bufferSize] := value;
      forall k | from <= k < n
        ensures k % bufferSize != n % bufferSize
      {
        RemaindersDiffer(k, n, bufferSize);
      }
      Low32Add(n, 1);
      writeCount := Low32(writeCount + 1);
    }

    /** The byte that a wrapped count finds in the ring is the one at this place of the queue. */
    function Get(count: u32, ghost offset: nat): (value: byte)
      requires Valid() && offset < |Contents(fifo)| && count == Low32(fifo.consumed + offset)
      reads this, buffer
      ensures value == Contents(fifo)[offset]
    {
      SlotOf(fifo.consumed + offset, bufferSize);
      buffer[count % bufferSize]
    }

    method BeginRead(length: int) returns (r: Result<Transaction, Mailbox.Error>)
      requires Valid()
      ensures r == Mailbox.BeginRead(fifo, length)
    {
      if length <= 0 || length > MAX_BLOCK_SIZE {
        return Err(InvalidRead);
      }
      if AvailableBytes() == 0 {
        return Err(EmptyRead);
      }
      if length > AvailableBytes() {
        return Err(InvalidRead);
      }
      var start := readCount;
      var data: seq<byte> := [];
      for offset := 0 to length
        invariant data == Contents(fifo)[..offset]
      {
        Low32Add(fifo.consumed, offset);
        data := data + [Get(Low32(start + offset), offset)];
      }
      return Result.Ok(Transaction(sessionId, start, data));
    }

    method Commit(t: Transaction) returns (r: Result<(), Mailbox.Error>)
      requires Valid()
      modifies this
      ensures Valid()
      ensures r.Ok? == Accepts(old(fifo), t)
      ensures fifo == if r.Ok? then Mailbox.Commit(old(fifo), t) else old(fifo)
      ensures r.Err? ==> r.error == StaleTransaction
    {
      if t.sessionId != sessionId {
        return Err(StaleTransaction);
      }
      if t.startCount != readCount {
        return Err(StaleTransaction);
      }
      if |t.data| > AvailableBytes() {
        return Err(StaleTransaction);
      }
      ShowsCommit(fifo, t, sessionId, writeCount, readCount, overflowCount, droppedBytes);
      readCount := Low32(readCount + |t.data|);
      fifo := Mailbox.Commit(fifo, t);
      return Result.Ok(());
    }

    method Reset()
      requires Valid()
      modifies this, buffer
      ensures Valid()
      ensures fifo == Mailbox.Reset(old(fifo))
    {
      NextSession(Epoch(fifo));
      SessionIdRange(Epoch(fifo));
      var next := Low32(sessionId + 1);
      sessionId := if next == 0 then 1 else next;
      writeCount, readCount, overflowCount, droppedBytes := 0, 0, 0, 0;
      forall i | 0 <= i < buffer.Length {
        buffer[i] := 0;
      }
      fifo := Mailbox.Reset(fifo);
    }
  }

  // ---------------------------------------------------------------- ring positions

  /** The buffer sizes divide 2^32, so the ring position survives the wrap of the counters. */
  lemma {:induction false} SlotOf(n: nat, size: nat)
    requires SupportedSize(size)
    ensures Low32(n) % size == n % size
  {
    if U32_MODULUS <= n {
      SlotOf(n - U32_MODULUS, size);
      SlotOneRound(n, size);
    }
  }

  lemma SlotOneRound(n: nat, size: nat)
    requires SupportedSize(size) && U32_MODULUS <= n
    ensures (n - U32_MODULUS) % size == n % size
  {
  }
}
