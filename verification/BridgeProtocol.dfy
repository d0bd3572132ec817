/** The local socket protocol of the bridge: every record is a type byte, a little-endian length and
    the payload. */
module BridgeProtocol {
  import opened Bytes
  import opened StreamScan
  import opened Wrappers

  const HEADER_SIZE := 5
  const MAX_RECORD := 16 * 1024 * 1024

  datatype Record = Record(kind: byte, payload: seq<byte>)

  datatype ProtocolError = InvalidRecord | RecordTooLarge

  /** `frame` */
  function Frame(kind: int, payload: seq<byte>): Result<seq<byte>, ProtocolError> {
    if !(0 <= kind <= 255) || |payload| > MAX_RECORD then Err(InvalidRecord)
    else Ok([kind as byte] + U32(|payload|) + payload)
  }

  /** The bytes on the wire of a record that `Frame` accepts. */
  function Wire(r: Record): seq<byte> {
    [r.kind] + LittleEndian(|r.payload|, 4) + r.payload
  }

  predicate Sendable(r: Record) {
    |r.payload| <= MAX_RECORD
  }

  function Next(b: seq<byte>): Verdict<Record> {
    if |b| < HEADER_SIZE then Wait
    else
      var length := ReadU32(b, 1) as int;
      if length > MAX_RECORD then Halt
      else if HEADER_SIZE + length > |b| then Wait
      else Take(HEADER_SIZE + length, Record(b[0], b[HEADER_SIZE..HEADER_SIZE + length]))
  }

  predicate Oversized(data: seq<byte>, offset: nat) {
    offset + HEADER_SIZE <= |data| && ReadU32(data, offset + 1) > MAX_RECORD
  }

  /** Where the record at `offset` ends, given its header. */
  function EndOf(data: seq<byte>, offset: nat): nat
    requires offset + HEADER_SIZE <= |data|
  {
    offset + HEADER_SIZE + ReadU32(data, offset + 1)
  }

  predicate Complete(data: seq<byte>, offset: nat) {
    offset + HEADER_SIZE <= |data| && !Oversized(data, offset) && EndOf(data, offset) <= |data|
  }

  function RecordAt(data: seq<byte>, offset: nat): Record
    requires Complete(data, offset)
  {
    Record(data[offset], data[offset + HEADER_SIZE..EndOf(data, offset)])
  }

  /** The complete records from `offset` on, and the bytes after them. */
  function RecordsFrom(data: seq<byte>, offset: nat): Scanned<Record>
    requires offset <= |data|
    decreases |data| - offset
  {
    if Complete(data, offset) then
      var more := RecordsFrom(data, EndOf(data, offset));
      Scanned([RecordAt(data, offset)] + more.events, more.rest)
    else
      Scanned([], data[offset..])
  }

  lemma NextAt(data: seq<byte>, offset: nat)
    requires offset <= |data|
    ensures Next(data[offset..]) ==
            if Complete(data, offset) then Take(EndOf(data, offset) - offset, RecordAt(data, offset))
            else if Oversized(data, offset) then Halt
            else Wait
  {
    var b := data[offset..];
    if offset + HEADER_SIZE <= |data| {
      assert b[1..5] == data[offset + 1..offset + 5];
      if Complete(data, offset) {
        assert b[HEADER_SIZE..EndOf(data, offset) - offset] == RecordAt(data, offset).payload;
      }
    }
  }

  lemma {:induction false} RecordsFromIsScan(data: seq<byte>, offset: nat)
    requires offset <= |data|
    ensures RecordsFrom(data, offset) == Scan(Next, data[offset..])
    decreases |data| - offset
  {
    NextAt(data, offset);
    if Complete(data, offset) {
      var end := EndOf(data, offset);
      RecordsFromIsScan(data, end);
      ScanStep(Next, data, offset, end - offset, RecordAt(data, offset));
    }
  }

  lemma RecordsOf(data: seq<byte>)
    ensures RecordsFrom(data, 0) == Scan(Next, data)
    ensures Oversized(RecordsFrom(data, 0).rest, 0) == Next(Scan(Next, data).rest).Halt?
  {
    assert data[0..] == data;
    RecordsFromIsScan(data, 0);
  }

  /** `decode_records`: all complete records and the remaining bytes, or an error when any header
      announces more than the maximum. */
  method DecodeRecords(data: seq<byte>) returns (r: Result<Scanned<Record>, ProtocolError>)
    ensures r == var all := RecordsFrom(data, 0);
                 if Oversized(all.rest, 0) then Err(RecordTooLarge) else Ok(all)
  {
    var records: seq<Record> := [];
    var offset := 0;
    ghost var whole := RecordsFrom(data, 0);
    while HEADER_SIZE <= |data| - offset
      invariant 0 <= offset <= |data|
      invariant IsAt(whole, data, records, offset)
    {
      var kind, length := data[offset], ReadU32(data, offset + 1) as int;
      if length > MAX_RECORD {
        Finish(whole, data, records, offset);
        return Err(RecordTooLarge);
      }
      var end := offset + HEADER_SIZE + length;
      if end > |data| {
        break;
      }
      var record := Record(kind, data[offset + HEADER_SIZE..end]);
      Advance(whole, data, records, offset, end, record);
      records := records + [record];
      offset := end;
    }
    Finish(whole, data, records, offset);
    return Ok(Scanned(records, data[offset..]));
  }

  lemma Advance(whole: Scanned<Record>, data: seq<byte>, seen: seq<Record>, offset: nat, end: nat, record: Record)
    requires IsAt(whole, data, seen, offset) && Complete(data, offset)
    requires end == EndOf(data, offset) && record == RecordAt(data, offset)
    ensures IsAt(whole, data, seen + [record], end)
  {
    Associate(seen, [record], RecordsFrom(data, end).events);
  }

  lemma Finish(whole: Scanned<Record>, data: seq<byte>, seen: seq<Record>, offset: nat)
    requires IsAt(whole, data, seen, offset) && !Complete(data, offset)
    ensures whole == Scanned(seen, data[offset..])
    ensures Oversized(data[offset..], 0) == Oversized(data, offset)
  {
    if offset + HEADER_SIZE <= |data| {
      assert data[offset..][1..5] == data[offset + 1..offset + 5];
    }
  }

  /** `whole` is the records seen so far followed by those from `offset` on. */
  ghost predicate IsAt(whole: Scanned<Record>, data: seq<byte>, seen: seq<Record>, offset: nat) {
    && offset <= |data|
    && whole.events == seen + RecordsFrom(data, offset).events
    && whole.rest == RecordsFrom(data, offset).rest
  }

  /** The viewer's side of the socket. Records are dispatched as soon as they are complete. */
  class RecordReceiver {
    var recordRx: seq<byte>
    var dispatched: seq<Record>

    constructor ()
      ensures recordRx == [] && dispatched == []
    {
      recordRx, dispatched := [], [];
    }

    /** `consumeBridgeBytes`. When it throws, the records in front of the oversized header have been
        dispatched and no byte has been removed. */
    method ConsumeBridgeBytes(bytes: seq<byte>) returns (thrown: bool)
      modifies this
      ensures var all := RecordsFrom(old(recordRx) + bytes, 0);
              && dispatched == old(dispatched) + all.events
              && thrown == Oversized(all.rest, 0)
              && recordRx == if thrown then old(recordRx) + bytes else all.rest
    {
      recordRx := recordRx + bytes;
      ghost var data, seen := recordRx, [];
      ghost var whole := RecordsFrom(data, 0);
      var offset := 0;
      while HEADER_SIZE <= |recordRx| - offset
        invariant recordRx == data && dispatched == old(dispatched) + seen
        invariant IsAt(whole, data, seen, offset)
        decreases |data| - offset
      {
        var kind, length := recordRx[offset], ReadU32(recordRx, offset + 1) as int;
        if length > MAX_RECORD {
          Finish(whole, data, seen, offset);
          return true;
        }
        if |recordRx| - offset < HEADER_SIZE + length {
          break;
        }
        var end := offset + HEADER_SIZE + length;
        var record := Record(kind, recordRx[offset + HEADER_SIZE..end]);
        Dispatch(record);
        Advance(whole, data, seen, offset, end, record);
        seen := seen + [record];
        offset := end;
      }
      Finish(whole, data, seen, offset);
      recordRx := recordRx[offset..];
      return false;
    }

    /** Stands for `consumeBridgeRecord`, whose own effects are not modelled. */
    method Dispatch(record: Record)
      modifies `dispatched
      ensures dispatched == old(dispatched) + [record]
    {
      dispatched := dispatched + [record];
    }
  }

  // ----------------------------------------------------------------- round trip

  lemma NextIsStable()
    ensures Stable(Next)
  {
    forall b, x
      ensures StableAt(Next, b, x)
    {
      if HEADER_SIZE <= |b| {
        var n := HEADER_SIZE + ReadU32(b, 1) as int;
        assert (b + x)[1..5] == b[1..5];
        if n <= |b| {
          assert (b + x)[HEADER_SIZE..n] == b[HEADER_SIZE..n];
        }
      }
    }
  }

  lemma WireHeader(r: Record)
    requires Sendable(r)
    ensures var w := Wire(r); w[0] == r.kind && ReadU32(w, 1) == |r.payload| && w[5..] == r.payload
  {
    ReadU32At([r.kind], |r.payload|, r.payload);
  }

  lemma WireIsRecognised(r: Record)
    requires Sendable(r)
    ensures Frame(r.kind, r.payload) == Ok(Wire(r))
    ensures Encodes(Next, Wire, r)
  {
    var w := Wire(r);
    WireHeader(r);
    forall k: nat
      ensures WaitsAt(Next, w, k)
    {
      if HEADER_SIZE <= k < |w| {
        assert w[..k][1..5] == w[1..5];
      }
    }
    assert w[5..5 + |r.payload|] == r.payload;
  }

  /** A header that announces more than 16 MiB stops the decoder as soon as it is there, and no record that large can
      be framed. */
  lemma OversizedIsRefused(kind: byte, length: u32, more: seq<byte>, payload: seq<byte>)
    ensures Next([kind] + U32(length) + more).Halt? <==> 0x100_0000 < length
    ensures Frame(kind, payload).Err? <==> 0x100_0000 < |payload|
  {
    ReadU32At([kind], length, more);
  }

  lemma RecordsAreRecognised(records: seq<Record>)
    requires forall r | r in records :: Sendable(r)
    ensures Stable(Next)
    ensures forall r | r in records :: Encodes(Next, Wire, r)
  {
    NextIsStable();
    forall r | r in records
      ensures Encodes(Next, Wire, r)
    {
      WireIsRecognised(r);
    }
  }

  /** For every list of records and every way of cutting any beginning of their bytes into chunks,
      decoding chunk by chunk yields exactly the complete records in order, never an error, and keeps
      a strict beginning of the next record. */
  lemma RecordsSurviveChunking(records: seq<Record>, chunks: seq<seq<byte>>) returns (k: nat)
    requires forall r | r in records :: Sendable(r)
    requires Flatten(chunks) <= EncodeAll(Wire, records)
    ensures k <= |records|
    ensures var got := Feed(Next, [], chunks);
            && got.events == records[..k]
            && !Next(got.rest).Halt?
            && Flatten(chunks) == EncodeAll(Wire, records[..k]) + got.rest
            && if k == |records| then got.rest == [] else got.rest < Wire(records[k])
  {
    RecordsAreRecognised(records);
    k := TruncatedChunks(Next, Wire, records, chunks);
  }

  /** In particular the whole stream is decoded to exactly the records sent, and nothing remains. */
  lemma RecordRoundTrip(records: seq<Record>, chunks: seq<seq<byte>>)
    requires forall r | r in records :: Sendable(r)
    requires Flatten(chunks) == EncodeAll(Wire, records)
    ensures Feed(Next, [], chunks) == Scanned(records, [])
  {
    RecordsAreRecognised(records);
    CompleteChunks(Next, Wire, records, chunks);
  }
}
