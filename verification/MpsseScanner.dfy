/** The scanner: it compiles scans to MPSSE commands, sends them in bounded exchanges and sorts out
    the samples. */
module MpsseScanner {
  import opened Bytes
  import opened BitStrings
  import opened Wrappers
  import opened StreamScan
  import opened Tap
  import opened Mpsse
  import opened MpsseScan
  import opened MpsseBatch
  import opened MpsseSetup
  import opened UserDr

  const MAX_BATCH_READ := 256
  const USB_PACKET := 512

  datatype Error = InvalidBitCount | InvalidArgument | ShortRead | WriteFailed

  /** One exchange with the chip: the bytes written and the number of bytes then read. */
  datatype Exchange = Exchange(command: seq<byte>, received: nat)

  /** At most one USB buffer is read, and only after the chip was told to send. */
  predicate IsBounded(e: Exchange) {
    && e.received <= MAX_BATCH_READ
    && (0 < e.received ==> e.command != [] && e.command[|e.command| - 1] == SEND_IMMEDIATE)
  }

  /** The bytes written, without the flush at the end of each exchange. */
  function WithoutFlushes(exchanges: seq<Exchange>): seq<byte> {
    if exchanges == [] then []
    else
      var e := exchanges[0];
      (if 0 < e.received && e.command != [] then e.command[..|e.command| - 1] else e.command)
      + WithoutFlushes(exchanges[1..])
  }

  lemma {:induction false} WithoutFlushesAppend(a: seq<Exchange>, b: seq<Exchange>)
    ensures WithoutFlushes(a + b) == WithoutFlushes(a) + WithoutFlushes(b)
    decreases |a|
  {
    if a == [] {
      assert a + b == b;
    } else {
      assert (a + b)[1..] == a[1..] + b;
      WithoutFlushesAppend(a[1..], b);
    }
  }

  function EnterPiece(scan: nat): (p: Piece)
    ensures p == PieceOf(Tagged(ENTER, scan))
  {
    Piece([CLOCK_TMS, 2, 1], scan, 0)
  }

  function BytesPiece(data: seq<byte>, scan: nat): (p: Piece)
    requires 1 <= |data| <= MAX_DATA_PIECE
    ensures p == PieceOf(Tagged(ShiftBytes(data), scan))
  {
    Piece([CLOCK_BYTES_AND_READ, (|data| - 1) % 256, (|data| - 1) / 256] + data, scan, |data|)
  }

  function BitsPiece(rem: nat, data: byte, scan: nat): (p: Piece)
    requires 1 <= rem <= 8
    ensures p == PieceOf(Tagged(ShiftBits(rem, data, true), scan))
  {
    Piece([CLOCK_BITS_AND_READ, rem - 1, data], scan, 1)
  }

  function FinalPiece(finalTdi: nat, scan: nat): (p: Piece)
    requires finalTdi < 2
    ensures p == PieceOf(Tagged(FinalBit(finalTdi == 1), scan))
  {
    Piece([CLOCK_TMS_AND_READ, 0, 1 + 128 * finalTdi], scan, 1)
  }

  function LeavePiece(scan: nat): (p: Piece)
    ensures p == PieceOf(Tagged(LEAVE, scan))
  {
    Piece([CLOCK_TMS, 1, 1], scan, 0)
  }

  /** `_scan_pieces` */
  method ScanPieces(outgoing: seq<byte>, total: nat, scan: nat) returns (pieces: seq<Piece>)
    requires 1 <= total <= 8 * |outgoing|
    ensures pieces == PiecesOf(Tag(ScanInstructions(outgoing, total), scan))
  {
    var body := total - 1;
    var full, rem := body / 8, body % 8;
    pieces := MiddlePieces(outgoing, full, rem, scan);
    ghost var done := [ENTER] + Middle(outgoing, full, rem);
    var finalTdi := ShiftRight(outgoing[(total - 1) / 8], (total - 1) % 8) % 2;
    LastBitIs(outgoing, full, rem);
    AppendEnd(done, finalTdi, scan);
    pieces := pieces + [FinalPiece(finalTdi, scan)];
    pieces := pieces + [LeavePiece(scan)];
  }

  /** The last bit and the way out. */
  lemma AppendEnd(done: seq<Instruction>, finalTdi: nat, scan: nat)
    requires finalTdi < 2
    ensures PiecesOf(Tag(done + [FinalBit(finalTdi == 1)] + [LEAVE], scan)) ==
            PiecesOf(Tag(done, scan)) + [FinalPiece(finalTdi, scan)] + [LeavePiece(scan)]
  {
    AppendPiece(done, FinalBit(finalTdi == 1), scan);
    AppendPiece(done + [FinalBit(finalTdi == 1)], LEAVE, scan);
  }

  /** Everything before the last bit. */
  method MiddlePieces(outgoing: seq<byte>, full: nat, rem: nat, scan: nat) returns (pieces: seq<Piece>)
    requires full < |outgoing| && rem < 8
    ensures pieces == PiecesOf(Tag([ENTER] + Middle(outgoing, full, rem), scan))
  {
    pieces := RunPieces(outgoing, full, scan);
    ghost var done := [ENTER] + ByteRuns(outgoing[..full]);
    if rem != 0 {
      AppendPiece(done, ShiftBits(rem, outgoing[full], true), scan);
      pieces := pieces + [BitsPiece(rem, outgoing[full], scan)];
    }
    Associate([ENTER], ByteRuns(outgoing[..full]), Leftover(outgoing, full, rem));
    assert done + [] == done;
  }

  /** The way into Shift-DR and the loop over the whole bytes. */
  method RunPieces(outgoing: seq<byte>, full: nat, scan: nat) returns (pieces: seq<Piece>)
    requires full <= |outgoing|
    ensures pieces == PiecesOf(Tag([ENTER] + ByteRuns(outgoing[..full]), scan))
  {
    pieces := [EnterPiece(scan)];
    AppendPiece([], ENTER, scan);
    ghost var done: seq<Instruction> := [ENTER];
    var offset := 0;
    while offset < full
      invariant 0 <= offset <= full
      invariant [ENTER] + ByteRuns(outgoing[..full]) == done + ByteRuns(outgoing[offset..full])
      invariant pieces == PiecesOf(Tag(done, scan))
    {
      var width := Min(MAX_DATA_PIECE, full - offset);
      NextRun(done, outgoing, offset, full);
      AppendPiece(done, ShiftBytes(outgoing[offset..offset + width]), scan);
      pieces := pieces + [BytesPiece(outgoing[offset..offset + width], scan)];
      done := done + [ShiftBytes(outgoing[offset..offset + width])];
      offset := offset + width;
    }
    assert done + ByteRuns(outgoing[full..full]) == done;
  }

  lemma NextRun(done: seq<Instruction>, outgoing: seq<byte>, offset: nat, full: nat)
    requires offset < full <= |outgoing|
    ensures var width := Min(MAX_DATA_PIECE, full - offset);
            done + ByteRuns(outgoing[offset..full]) ==
            done + [ShiftBytes(outgoing[offset..offset + width])] + ByteRuns(outgoing[offset + width..full])
  {
    var width := Min(MAX_DATA_PIECE, full - offset);
    var data := outgoing[offset..full];
    assert data[..width] == outgoing[offset..offset + width];
    assert data[width..] == outgoing[offset + width..full];
    Associate(done, [ShiftBytes(data[..width])], ByteRuns(data[width..]));
  }

  lemma LastBitIs(outgoing: seq<byte>, full: nat, rem: nat)
    requires full < |outgoing| && rem < 8
    ensures Unpack(outgoing)[8 * full + rem] <==> ShiftRight(outgoing[full], rem) % 2 == 1
  {
    UnpackAt(outgoing, full);
    BitAt(outgoing[full], 8, rem);
    assert Unpack(outgoing)[8 * full..8 * full + 8][rem] == Unpack(outgoing)[8 * full + rem];
  }

  lemma AppendPiece(done: seq<Instruction>, next: Instruction, scan: nat)
    ensures PiecesOf(Tag(done + [next], scan)) == PiecesOf(Tag(done, scan)) + [PieceOf(Tagged(next, scan))]
  {
    TagAppend(done, next, scan);
    PiecesAppend(Tag(done, scan), [Tagged(next, scan)]);
  }

  lemma {:induction false} TagAppend(done: seq<Instruction>, next: Instruction, scan: nat)
    ensures Tag(done + [next], scan) == Tag(done, scan) + [Tagged(next, scan)]
    decreases |done|
  {
    if done == [] {
      assert done + [next] == [next];
      assert Tag([next], scan) == [Tagged(next, scan)] + Tag([next][1..], scan);
    } else {
      assert (done + [next])[1..] == done[1..] + [next];
      TagAppend(done[1..], next, scan);
    }
  }

  ghost predicate Compiled(pieces: seq<Piece>, requests: seq<Request>) {
    AllValid(requests) && pieces == PiecesOf(TagAll(ScansOf(requests), 0))
  }

  /** The pieces of all scans, or an error if some bit count is impossible. */
  method Compile(requests: seq<Request>) returns (r: Result<seq<Piece>, Error>)
    ensures r.Ok? <==> AllValid(requests)
    ensures r.Ok? ==> Compiled(r.value, requests)
    ensures r.Err? ==> r.error == InvalidBitCount
  {
    var pieces: seq<Piece> := [];
    for index := 0 to |requests|
      invariant Compiled(pieces, requests[..index])
    {
      var Request(outgoing, total) := requests[index];
      if total < 1 || total > |outgoing| * 8 {
        assert !IsValid(requests[index]);
        return Err(InvalidBitCount);
      }
      var more := ScanPieces(outgoing, total, index);
      TakeOneMore(requests, index);
      AppendScan(pieces, requests[..index], requests[index], more);
      pieces := pieces + more;
    }
    assert requests[..|requests|] == requests;
    return Result.Ok(pieces);
  }

  lemma AppendScan(pieces: seq<Piece>, requests: seq<Request>, r: Request, more: seq<Piece>)
    requires Compiled(pieces, requests) && IsValid(r)
    requires more == PiecesOf(Tag(ScanInstructions(r.outgoing, r.total), |requests|))
    ensures Compiled(pieces + more, requests + [r])
  {
    ScansAppend(requests, r);
    AppendOwn(ScansOf(requests), InstructionsOf(r));
  }

  lemma AppendOwn(scans: seq<seq<Instruction>>, own: seq<Instruction>)
    ensures PiecesOf(TagAll(scans + [own], 0)) == PiecesOf(TagAll(scans, 0)) + PiecesOf(Tag(own, |scans|))
  {
    TagOneMore(scans, own, 0, |scans|);
    PiecesAppend(TagAll(scans, 0), Tag(own, |scans|));
  }

  lemma TagOneMore(scans: seq<seq<Instruction>>, own: seq<Instruction>, first: nat, k: nat)
    requires k == first + |scans|
    ensures TagAll(scans + [own], first) == TagAll(scans, first) + Tag(own, k)
  {
    TagOne(own, k);
    var last := TagAll([own], k);
    TagAllAppend(scans, [own], first);
    assert TagAll(scans + [own], first) == TagAll(scans, first) + last;
  }

  lemma TagOne(own: seq<Instruction>, first: nat)
    ensures TagAll([own], first) == Tag(own, first)
  {
  }

  /** Packing the samples of one scan: unused sample bits are shifted out, the last bit is put on top. */
  method Repack(incoming: seq<byte>, total: nat, ghost bits: seq<bool>) returns (result: seq<byte>)
    requires |bits| == total && IsRaw(incoming, bits)
    ensures result == Pack(bits)
  {
    var full, rem := (total - 1) / 8, (total - 1) % 8;
    ghost var n := total - 1;
    RawParts(incoming, bits, full, rem);
    result := RepackParts(incoming, full, rem, bits[8 * full..n], bits[n]);
    LastByte(bits, full, rem);
  }

  /** The whole bytes, and the last one put together from `extra` bits and the last bit. */
  method RepackParts(incoming: seq<byte>, full: nat, rem: nat, ghost extra: seq<bool>, ghost last: bool)
    returns (result: seq<byte>)
    requires |extra| == rem < 8
    requires |incoming| == full + (if rem == 0 then 1 else 2)
    requires rem != 0 ==> ShiftRight(incoming[full], 8 - rem) == ByteOf(extra)
    requires ShiftRight(incoming[|incoming| - 1], 7) % 2 == BitOf(last)
    ensures result == incoming[..full] + [ByteOf(extra + [last])]
  {
    result := incoming[..full] + [0];
    var pos := full;
    if rem != 0 {
      result := result[full := ShiftRight(incoming[pos], 8 - rem)];
      pos := pos + 1;
    }
    assert result[full] == ByteOf(extra);
    var top := ShiftRight(incoming[pos], 7) % 2;
    PutOnTop(extra, last, top, rem);
    result := result[full := Or(result[full], ShiftLeft(top, rem), 8)];
  }

  lemma RawParts(raw: seq<byte>, bits: seq<bool>, full: nat, rem: nat)
    requires IsRaw(raw, bits) && |bits| == 8 * full + rem + 1 && rem < 8
    ensures |raw| == full + (if rem == 0 then 1 else 2)
    ensures raw[..full] == Pack(bits[..8 * full])
    ensures rem != 0 ==> ShiftRight(raw[full], 8 - rem) == ByteOf(bits[8 * full..|bits| - 1])
    ensures ShiftRight(raw[|raw| - 1], 7) % 2 == BitOf(bits[|bits| - 1])
  {
  }

  lemma PutOnTop(extra: seq<bool>, last: bool, top: nat, rem: nat)
    requires |extra| == rem < 8 && top == BitOf(last)
    ensures 0 <= Or(ByteOf(extra), ShiftLeft(top, rem), 8) < 256
    ensures Or(ByteOf(extra), ShiftLeft(top, rem), 8) == ByteOf(extra + [last])
  {
    assert Power2(8) == 256;
    OrAppends(extra, last, 8);
  }

  lemma LastByte(bits: seq<bool>, full: nat, rem: nat)
    requires |bits| == 8 * full + rem + 1 && rem < 8
    ensures Pack(bits) == Pack(bits[..8 * full]) + [ByteOf(bits[8 * full..|bits| - 1] + [bits[|bits| - 1]])]
  {
    var n := 8 * full;
    var whole, last := bits[..n], bits[n..|bits| - 1] + [bits[|bits| - 1]];
    assert bits == whole + last;
    PackTwo(whole, last, full);
  }

  lemma PackTwo(whole: seq<bool>, last: seq<bool>, full: nat)
    requires |whole| == 8 * full && 1 <= |last| <= 8
    ensures Pack(whole + last) == Pack(whole) + [ByteOf(last)]
  {
    PackAppend(whole, last);
  }

  /** Handing out the bytes read in one exchange to the scans of its pieces. */
  method Distribute(
    batch: seq<Piece>, incoming: seq<byte>, raw: seq<seq<byte>>, ghost t: Target, ghost p: Port, ghost tagged: seq<Tagged>)
    returns (r: seq<seq<byte>>)
    requires batch == PiecesOf(tagged) && ArePieces(tagged)
    requires forall i | i in tagged :: i.scan < |raw|
    requires incoming == SamplesAll(t, p, Untagged(tagged))
    ensures |r| == |raw|
    ensures forall k | 0 <= k < |raw| :: r[k] == raw[k] + Collected(t, p, tagged, k)
  {
    r := raw;
    var offset := 0;
    ghost var q := p;
    for i := 0 to |batch|
      invariant 0 <= offset <= |incoming|
      invariant incoming[offset..] == SamplesAll(t, q, Untagged(tagged[i..]))
      invariant |r| == |raw|
      invariant SameOutcome(t, q, tagged[i..], r, p, tagged, raw)
    {
      ghost var rest := tagged[i..];
      assert rest[0] == tagged[i] && rest[1..] == tagged[i + 1..] && tagged[i] in tagged;
      var piece := batch[i];
      var end := offset + piece.readLength;
      SplitSamples(t, q, rest, incoming[offset..]);
      SliceTwice(incoming, offset, end);
      GiveSamples(t, q, rest, r, p, tagged, raw);
      r := r[piece.scan := r[piece.scan] + incoming[offset..end]];
      offset := end;
      q := PortAfter(q, rest[0].instruction);
    }
    assert tagged[|batch|..] == [];
    AllGiven(t, q, r, p, tagged, raw);
  }

  lemma AllGiven(t: Target, q: Port, have: seq<seq<byte>>, p: Port, tagged: seq<Tagged>, raw: seq<seq<byte>>)
    requires |have| == |raw|
    requires SameOutcome(t, q, [], have, p, tagged, raw)
    ensures forall k | 0 <= k < |raw| :: have[k] == raw[k] + Collected(t, p, tagged, k)
  {
  }

  /** What each scan has in the end is the same from either point. */
  ghost predicate SameOutcome(t: Target, q: Port, left: seq<Tagged>, have: seq<seq<byte>>,
                              p: Port, tagged: seq<Tagged>, raw: seq<seq<byte>>)
    requires |have| == |raw|
  {
    forall k | 0 <= k < |raw| :: StillToCome(t, q, left, have[k], k) == StillToCome(t, p, tagged, raw[k], k)
  }

  lemma GiveSamples(t: Target, q: Port, left: seq<Tagged>, have: seq<seq<byte>>,
                    p: Port, tagged: seq<Tagged>, raw: seq<seq<byte>>)
    requires |have| == |raw| && left != [] && left[0].scan < |raw|
    requires SameOutcome(t, q, left, have, p, tagged, raw)
    ensures var i, k := left[0].instruction, left[0].scan;
            SameOutcome(t, PortAfter(q, i), left[1..], have[k := have[k] + Samples(t, q, i)], p, tagged, raw)
  {
    forall k | 0 <= k < |raw|
      ensures var i := left[0].instruction;
              var now := if left[0].scan == k then have[k] + Samples(t, q, i) else have[k];
              StillToCome(t, PortAfter(q, i), left[1..], now, k) == StillToCome(t, p, tagged, raw[k], k)
    {
      StillToComeStep(t, q, left, have[k], k);
    }
  }

  /** What scan `k` has after the instructions that are left. */
  ghost function StillToCome(t: Target, p: Port, left: seq<Tagged>, have: seq<byte>, k: nat): seq<byte> {
    have + Collected(t, p, left, k)
  }

  lemma SplitSamples(t: Target, p: Port, left: seq<Tagged>, incoming: seq<byte>)
    requires left != [] && IsPiece(left[0].instruction)
    requires incoming == SamplesAll(t, p, Untagged(left))
    ensures var first := Samples(t, p, left[0].instruction);
            && first <= incoming
            && |first| == PieceOf(left[0]).readLength
            && incoming[|first|..] == SamplesAll(t, PortAfter(p, left[0].instruction), Untagged(left[1..]))
  {
  }

  lemma StillToComeStep(t: Target, p: Port, left: seq<Tagged>, have: seq<byte>, k: nat)
    requires left != []
    ensures var first := Samples(t, p, left[0].instruction);
            StillToCome(t, p, left, have, k) ==
            StillToCome(t, PortAfter(p, left[0].instruction), left[1..], if left[0].scan == k then have + first else have, k)
  {
    var i := left[0].instruction;
    Associate(have, Samples(t, p, i), Collected(t, PortAfter(p, i), left[1..], k));
    assert [] + Collected(t, PortAfter(p, i), left[1..], k) == Collected(t, PortAfter(p, i), left[1..], k);
  }

  // ------------------------------------------------------------------- the scanner

  /** The command of a batch: its pieces, and a flush if something is to be read. */
  function BatchCommand(batch: seq<Piece>): seq<byte> {
    Joined(batch) + if 0 < TotalReads(batch) then [SEND_IMMEDIATE] else []
  }

  function ExchangesOf(batch: seq<Piece>): seq<Exchange> {
    if batch == [] then [] else [Exchange(BatchCommand(batch), TotalReads(batch))]
  }

  /** The exchanges carry exactly these pieces, in bounded portions. */
  ghost predicate Carry(exchanges: seq<Exchange>, pieces: seq<Piece>) {
    && (forall e | e in exchanges :: IsBounded(e))
    && WithoutFlushes(exchanges) == Joined(pieces)
  }

  /** Nothing is under way in the chip. */
  ghost predicate IsIdle(c: Chip) {
    c.kept == [] && c.held == [] && c.ready == []
  }

  /** The effect of a batch on the chip: the port moves on, and the samples can be read. */
  lemma BatchRuns(t: Target, c: Chip, tagged: seq<Tagged>)
    requires IsIdle(c) && ArePieces(tagged)
    ensures Absorb(t, c, BatchCommand(PiecesOf(tagged))) ==
            c.(port := PortAll(c.port, Untagged(tagged)), ready := SamplesAll(t, c.port, Untagged(tagged)))
    ensures |SamplesAll(t, c.port, Untagged(tagged))| == TotalReads(PiecesOf(tagged))
  {
    JoinedIsSpelling(tagged);
    UntaggedArePieces(tagged);
    SamplesTotal(t, c.port, tagged);
    RunQuietly(t, c, Untagged(tagged));
    RunAndFlush(t, c, Untagged(tagged));
    assert Joined(PiecesOf(tagged)) + [] == Joined(PiecesOf(tagged));
  }

  lemma RunQuietly(t: Target, c: Chip, instructions: seq<Instruction>)
    requires IsIdle(c)
    requires forall i | i in instructions :: IsPiece(i)
    ensures Absorb(t, c, EncodeAll(Spelling, instructions)) ==
            c.(port := PortAll(c.port, instructions), held := SamplesAll(t, c.port, instructions))
  {
    AbsorbSpelling(t, c, instructions);
    ExecuteScans(t, c, instructions);
    assert c.held + SamplesAll(t, c.port, instructions) == SamplesAll(t, c.port, instructions);
  }

  lemma RunAndFlush(t: Target, c: Chip, instructions: seq<Instruction>)
    requires IsIdle(c)
    requires forall i | i in instructions :: IsPiece(i)
    ensures Absorb(t, c, EncodeAll(Spelling, instructions) + [SEND_IMMEDIATE]) ==
            c.(port := PortAll(c.port, instructions), ready := SamplesAll(t, c.port, instructions))
  {
    RunQuietly(t, c, instructions);
    PacketsDoNotMatter(t, c, EncodeAll(Spelling, instructions), [SEND_IMMEDIATE]);
    FlushRuns(t, Absorb(t, c, EncodeAll(Spelling, instructions)));
  }

  lemma FlushRuns(t: Target, c: Chip)
    requires c.kept == [] && c.ready == []
    ensures Absorb(t, c, [SEND_IMMEDIATE]) == c.(held := [], ready := c.held)
  {
    FlushSpelling();
    AbsorbSpelling(t, c, [SendImmediate]);
    ExecuteFlush(t, c);
  }

  lemma FlushSpelling()
    ensures EncodeAll(Spelling, [SendImmediate]) == [SEND_IMMEDIATE]
  {
  }

  lemma ExecuteFlush(t: Target, c: Chip)
    ensures ExecuteAll(t, c, [SendImmediate]) == c.(held := [], ready := c.ready + c.held)
  {
  }

  lemma CarryMore(exchanges: seq<Exchange>, pieces: seq<Piece>, batch: seq<Piece>)
    requires Carry(exchanges, pieces) && TotalReads(batch) <= MAX_BATCH_READ
    ensures Carry(exchanges + ExchangesOf(batch), pieces + batch)
  {
    WithoutFlushesAppend(exchanges, ExchangesOf(batch));
    JoinedAppend(pieces, batch);
    if batch != [] {
      var e := Exchange(BatchCommand(batch), TotalReads(batch));
      assert [e][1..] == [];
      assert WithoutFlushes([e]) == Joined(batch);
      assert IsBounded(e);
    }
  }

  lemma NothingWritten(t: Target, c: Chip)
    requires c.kept == []
    ensures Absorb(t, c, []) == c
  {
  }

  /** How many bytes of `data` the device is willing to take. */
  function Willing(data: seq<byte>, fault: Option<nat>): (n: nat)
    ensures n <= |data|
  {
    if fault.Some? && fault.value < |data| then fault.value else |data|
  }

  lemma NextPacket(data: seq<byte>, i: nat, offered: seq<byte>, n: nat)
    requires i + |offered| <= |data| && offered == data[i..i + |offered|] && n <= |offered|
    ensures data[..i] + offered[..n] == data[..i + n]
  {
    SliceOfSlice(data, i, i + |offered|, n);
    SliceJoin(data, i, i + n);
  }

  /** How far `_scan_many` has come: `done` was sent, `batch` is waiting. */
  ghost predicate Progress(t: Target, p: Port, now: Port, exchanges: seq<Exchange>, raw: seq<seq<byte>>,
                           done: seq<Tagged>, batch: seq<Tagged>, all: seq<Tagged>, i: nat)
    requires i <= |all|
  {
    && done + batch == all[..i]
    && now == PortAll(p, Untagged(done))
    && Carry(exchanges, PiecesOf(done))
    && TotalReads(PiecesOf(batch)) <= MAX_BATCH_READ
    && forall k | 0 <= k < |raw| :: raw[k] == Collected(t, p, done, k)
  }

  lemma ProgressStarts(t: Target, p: Port, raw: seq<seq<byte>>, all: seq<Tagged>)
    requires forall k | 0 <= k < |raw| :: raw[k] == []
    ensures Progress(t, p, p, [], raw, [], [], all, 0)
  {
  }

  lemma ProgressFlushed(t: Target, p: Port, now: Port, exchanges: seq<Exchange>, raw: seq<seq<byte>>,
                        done: seq<Tagged>, batch: seq<Tagged>, all: seq<Tagged>, i: nat, more: seq<seq<byte>>)
    requires i <= |all| && Progress(t, p, now, exchanges, raw, done, batch, all, i)
    requires |more| == |raw|
    requires forall k | 0 <= k < |raw| :: more[k] == raw[k] + Collected(t, now, batch, k)
    ensures Progress(t, p, PortAll(now, Untagged(batch)), exchanges + ExchangesOf(PiecesOf(batch)), more,
                     done + batch, [], all, i)
  {
    UntaggedAppend(done, batch);
    AllAppend(t, p, Untagged(done), Untagged(batch));
    CarryMore(exchanges, PiecesOf(done), PiecesOf(batch));
    PiecesAppend(done, batch);
    assert done + batch + [] == done + batch;
    forall k | 0 <= k < |raw|
      ensures more[k] == Collected(t, p, done + batch, k)
    {
      CollectedAppend(t, p, done, batch, k);
    }
  }

  lemma ProgressAppended(t: Target, p: Port, now: Port, exchanges: seq<Exchange>, raw: seq<seq<byte>>,
                         done: seq<Tagged>, batch: seq<Tagged>, all: seq<Tagged>, i: nat)
    requires i < |all| && Progress(t, p, now, exchanges, raw, done, batch, all, i)
    requires TotalReads(PiecesOf(batch)) + PieceOf(all[i]).readLength <= MAX_BATCH_READ
    ensures Progress(t, p, now, exchanges, raw, done, batch + [all[i]], all, i + 1)
    ensures PiecesOf(batch + [all[i]]) == PiecesOf(batch) + [PieceOf(all[i])]
    ensures TotalReads(PiecesOf(batch + [all[i]])) == TotalReads(PiecesOf(batch)) + PieceOf(all[i]).readLength
  {
    TakeOneMore(all, i);
    Associate(done, batch, [all[i]]);
    PiecesAppend(batch, [all[i]]);
    JoinedAppend(PiecesOf(batch), [PieceOf(all[i])]);
    assert PiecesOf([all[i]]) == [PieceOf(all[i])];
    assert [PieceOf(all[i])][1..] == [];
    assert TotalReads([PieceOf(all[i])]) == PieceOf(all[i]).readLength;
  }

  /** The last that happened: a reset, and then USER2 was shifted into the instruction register. */
  ghost predicate EndsInUser2(log: seq<Event>) {
    var end := [Resets] + [CapturesIr] + InstructionShifts(USER2) + [UpdatesIr];
    |end| <= |log| && log[|log| - |end|..] == end
  }

  lemma SelectedAfterReset(log: seq<Event>, more: seq<Event>)
    requires log != [] && log[|log| - 1] == Resets
    requires more == log + [CapturesIr] + InstructionShifts(USER2) + [UpdatesIr]
    ensures EndsInUser2(more)
  {
  }

  class FtdiMpsseJtag {
    const target: Target
    var chip: Chip
    ghost var exchanges: seq<Exchange>

    /** Attach to a chip whose target is in any state. */
    constructor (target: Target, port: Port)
      ensures this.target == target && Ready()
      ensures port.log <= chip.port.log && EndsInUser2(chip.port.log)
    {
      this.target := target;
      chip := Chip([], port, [], []);
      exchanges := [];
      new;
      TapReset();
      ghost var log := chip.port.log;
      SelectUser2();
      SelectedAfterReset(log, chip.port.log);
    }

    /** Between calls the chip is idle and the target rests in Run-Test/Idle. */
    ghost predicate Ready()
      reads this
    {
      IsIdle(chip) && chip.port.state == RunTestIdle
    }

    /** Send `data` in USB packets; the device may take less than it is offered. A device that has a `fault`
        takes that many bytes of `data` and no more. */
    method Write(data: seq<byte>, fault: Option<nat> := None) returns (r: Result<(), Error>)
      requires chip.kept == []
      modifies `chip
      ensures r == if Willing(data, fault) < |data| then Err(WriteFailed) else Result.Ok(())
      ensures chip == Absorb(target, old(chip), data[..Willing(data, fault)])
      ensures r.Ok? ==> chip == Absorb(target, old(chip), data)
    {
      var limit := Willing(data, fault);
      var offset := WritePackets(data, limit);
      assert data[..|data|] == data;
      return if offset < |data| then Err(WriteFailed) else Result.Ok(());
    }

    /** The loop of `_write`, for a device that takes `limit` bytes. The result is the offset it ends with. */
    method WritePackets(data: seq<byte>, limit: nat) returns (offset: nat)
      requires chip.kept == [] && limit <= |data|
      modifies `chip
      ensures offset == limit && chip == Absorb(target, old(chip), data[..limit])
    {
      offset := 0;
      ghost var sent: seq<byte> := [];
      NothingWritten(target, chip);
      while offset < |data|
        invariant offset <= limit && sent == data[..offset]
        invariant chip == Absorb(target, old(chip), sent)
        decreases |data| - offset
      {
        var requested := Min(USB_PACKET, |data| - offset);
        var offered := data[offset..offset + requested];
        var count := WriteData(offered, limit - offset);
        if count <= 0 {
          return;
        }
        NextPacket(data, offset, offered, count);
        PacketsDoNotMatter(target, old(chip), sent, offered[..count]);
        sent := sent + offered[..count];
        offset := offset + count;
      }
    }

    /** `ftdi_write_data`: the device takes some of the bytes, at most `left`, and 0 or a negative count if it
        takes none. */
    method WriteData(offered: seq<byte>, left: nat) returns (count: int)
      requires offered != []
      modifies `chip
      ensures if left == 0 then count <= 0 && chip == old(chip)
              else 0 < count <= Min(|offered|, left) && chip == Absorb(target, old(chip), offered[..count])
    {
      if left == 0 {
        count :| count <= 0;
      } else {
        var most := Min(|offered|, left);
        count :| 0 < count <= most;
        chip := Absorb(target, chip, offered[..count]);
      }
    }

    /** Read exactly `length` bytes, or fail when the chip does not have them. */
    method Read(length: nat) returns (r: Result<seq<byte>, Error>)
      modifies `chip
      ensures r.Ok? <==> length <= |old(chip).ready|
      ensures r.Ok? ==> r.value == old(chip).ready[..length] && chip == old(chip).(ready := old(chip).ready[length..])
      ensures r.Err? ==> r.error == ShortRead && chip == old(chip).(ready := [])
    {
      var available := chip.ready;
      if |available| < length {
        chip := chip.(ready := []);
        return Err(ShortRead);
      }
      chip := chip.(ready := available[length..]);
      return Result.Ok(available[..length]);
    }

    /** One exchange: write the batch, read what it returns, hand it out. */
    method Flush(batch: seq<Piece>, pending: nat, raw: seq<seq<byte>>, ghost tagged: seq<Tagged>)
      returns (r: seq<seq<byte>>)
      requires IsIdle(chip)
      requires batch == PiecesOf(tagged) && ArePieces(tagged) && pending == TotalReads(batch)
      requires forall i | i in tagged :: i.scan < |raw|
      modifies `chip, `exchanges
      ensures |r| == |raw|
      ensures forall k | 0 <= k < |raw| :: r[k] == raw[k] + Collected(target, old(chip).port, tagged, k)
      ensures chip == old(chip).(port := PortAll(old(chip).port, Untagged(tagged)))
      ensures exchanges == old(exchanges) + ExchangesOf(batch)
    {
      if batch == [] {
        return raw;
      }
      ghost var p := chip.port;
      var incoming := Perform(batch, pending, tagged);
      var shared := Distribute(batch, incoming, raw, target, p, tagged);
      return shared;
    }

    /** Write the commands of the batch and read what they return. */
    method Perform(batch: seq<Piece>, pending: nat, ghost tagged: seq<Tagged>) returns (incoming: seq<byte>)
      requires IsIdle(chip)
      requires batch == PiecesOf(tagged) && ArePieces(tagged) && pending == TotalReads(batch)
      modifies `chip, `exchanges
      ensures incoming == SamplesAll(target, old(chip).port, Untagged(tagged))
      ensures chip == old(chip).(port := PortAll(old(chip).port, Untagged(tagged)))
      ensures exchanges == old(exchanges) + [Exchange(BatchCommand(batch), TotalReads(batch))]
    {
      BatchRuns(target, chip, tagged);
      var command := JoinCommands(batch);
      command := command + if 0 < pending then [SEND_IMMEDIATE] else [];
      var written := Write(command);
      incoming := [];
      if 0 < pending {
        var read := Read(pending);
        incoming := read.value;
      }
      exchanges := exchanges + [Exchange(command, pending)];
    }

    method JoinCommands(batch: seq<Piece>) returns (command: seq<byte>)
      ensures command == Joined(batch)
    {
      command := [];
      for i := 0 to |batch|
        invariant command + Joined(batch[i..]) == Joined(batch)
      {
        assert batch[i..][0] == batch[i] && batch[i..][1..] == batch[i + 1..];
        command := command + batch[i].command;
      }
    }

    /** The loop of `_scan_many` stands before piece `i`. */
    ghost predicate Underway(start: Start, w: Work, trace: Trace, i: nat)
      reads this
    {
      && i <= |start.all|
      && IsIdle(chip)
      && |w.raw| == start.count
      && exchanges == start.earlier + trace.sent
      && InProgress(target, start.port, chip.port, w, trace, start.all, i)
    }

    /** The batching loop of `_scan_many`. */
    method SendAll(pieces: seq<Piece>, count: nat, ghost all: seq<Tagged>) returns (raw: seq<seq<byte>>)
      requires IsIdle(chip)
      requires pieces == PiecesOf(all) && ArePieces(all) && ScansBelow(all, count)
      modifies `chip, `exchanges
      ensures IsIdle(chip) && chip.port == PortAll(old(chip).port, Untagged(all))
      ensures |raw| == count
      ensures forall k | 0 <= k < count :: raw[k] == Collected(target, old(chip).port, all, k)
      ensures old(exchanges) <= exchanges && Carry(exchanges[|old(exchanges)|..], pieces)
    {
      var w := Work([], 0, Empties(count));
      ghost var start, trace := Start(chip.port, exchanges, all, count), Trace([], [], []);
      ProgressStarts(target, chip.port, w.raw, all);
      for i := 0 to |pieces|
        invariant Underway(start, w, trace, i)
      {
        w, trace := Take(pieces[i], w, start, trace, i);
      }
      w, trace := Drain(w, start, trace, |pieces|);
      Finished(target, start.port, chip.port, w, trace, all);
      DropPrefix(start.earlier, trace.sent);
      raw := w.raw;
    }

    /** One turn of the loop: flush first if the piece would make the exchange too large. */
    method Take(piece: Piece, w: Work, ghost start: Start, ghost trace: Trace, ghost i: nat)
      returns (v: Work, ghost after: Trace)
      requires ArePieces(start.all) && ScansBelow(start.all, start.count)
      requires Underway(start, w, trace, i) && i < |start.all| && piece == PieceOf(start.all[i])
      modifies `chip, `exchanges
      ensures Underway(start, v, after, i + 1)
    {
      v, after := w, trace;
      if 0 < w.pending && MAX_BATCH_READ < w.pending + piece.readLength {
        v, after := Drain(w, start, trace, i);
      }
      Queued(target, start.port, chip.port, v, after, start.all, i);
      v := Work(v.batch + [piece], v.pending + piece.readLength, v.raw);
      after := after.(waiting := after.waiting + [start.all[i]]);
    }

    /** `flush` */
    method Drain(w: Work, ghost start: Start, ghost trace: Trace, ghost i: nat)
      returns (v: Work, ghost after: Trace)
      requires ArePieces(start.all) && ScansBelow(start.all, start.count)
      requires Underway(start, w, trace, i)
      modifies `chip, `exchanges
      ensures Underway(start, v, after, i) && v.batch == [] && after.waiting == []
    {
      FromProgress(start.all, trace.done, trace.waiting, i);
      ghost var now := chip.port;
      var raw := Flush(w.batch, w.pending, w.raw, trace.waiting);
      v := Work([], 0, raw);
      after := Trace(trace.done + trace.waiting, [], trace.sent + ExchangesOf(w.batch));
      Associate(start.earlier, trace.sent, ExchangesOf(w.batch));
      ProgressFlushed(target, start.port, now, trace.sent, w.raw, trace.done, trace.waiting, start.all, i, raw);
    }

    /** `_scan_many`. Nothing is sent unless every bit count is possible. Otherwise the target sees the
        plain scans one after the other, every result holds the TDO bits of its own scan, and the command
        stream is that of the pieces, in exchanges of bounded size. */
    method ScanMany(requests: seq<Request>) returns (r: Result<seq<seq<byte>>, Error>)
      requires Ready()
      modifies `chip, `exchanges
      ensures Ready()
      ensures r.Ok? <==> AllValid(requests)
      ensures r.Err? ==> r.error == InvalidBitCount && chip == old(chip) && exchanges == old(exchanges)
      ensures r.Ok? ==> chip.port.log == PlainLog(old(chip).port.log, requests)
      ensures r.Ok? ==> AreResults(target, old(chip).port.log, requests, r.value)
      ensures r.Ok? ==> old(exchanges) <= exchanges
                        && Carry(exchanges[|old(exchanges)|..], PiecesOf(TagAll(ScansOf(requests), 0)))
    {
      var compiled := Compile(requests);
      if compiled.Err? {
        return Err(compiled.error);
      }
      ghost var p := chip.port;
      ghost var all := TagAll(ScansOf(requests), 0);
      TagAllArePieces(requests, 0);
      TagAllScans(ScansOf(requests), 0);
      var raw := SendAll(compiled.value, |requests|, all);
      PortIsPlain(target, p, requests);
      var results := RepackAll(requests, raw, p);
      return Result.Ok(results);
    }

    /** The last loop of `_scan_many`. */
    method RepackAll(requests: seq<Request>, raw: seq<seq<byte>>, ghost p: Port) returns (results: seq<seq<byte>>)
      requires AllValid(requests) && p.state == RunTestIdle && |raw| == |requests|
      requires forall k | 0 <= k < |raw| :: raw[k] == Collected(target, p, TagAll(ScansOf(requests), 0), k)
      ensures AreResults(target, p.log, requests, results)
    {
      results := [];
      for index := 0 to |requests|
        invariant |results| == index && AreFirstResults(target, p.log, requests, results)
      {
        var result := RepackOne(requests, index, raw[index], p);
        OneMoreResult(target, p.log, requests, results, result);
        results := results + [result];
      }
    }

    method RepackOne(requests: seq<Request>, index: nat, incoming: seq<byte>, ghost p: Port) returns (result: seq<byte>)
      requires AllValid(requests) && p.state == RunTestIdle && index < |requests|
      requires incoming == Collected(target, p, TagAll(ScansOf(requests), 0), index)
      ensures result == PlainResult(target.tdo, p.log, requests, index)
    {
      CollectedIsRaw(target, p, requests, index);
      ghost var bits := ScanReplies(target.tdo, PlainLog(p.log, requests[..index]), BitsOf(requests[index]));
      result := Repack(incoming, requests[index].total, bits);
    }

    /** `scan_dr`: without a bit count the whole byte string. */
    method ScanDr(outgoing: seq<byte>, bitCount: Option<int> := None) returns (r: Result<seq<byte>, Error>)
      requires Ready()
      modifies `chip, `exchanges
      ensures Ready()
      ensures r.Ok? <==> 1 <= CountOr(bitCount, |outgoing| * 8) <= |outgoing| * 8
      ensures r.Err? ==> r.error == InvalidBitCount && chip == old(chip)
      ensures r.Ok? ==> (
        var bits := Unpack(outgoing)[..CountOr(bitCount, |outgoing| * 8)];
        && chip.port.log == ScanLog(old(chip).port.log, bits)
        && r.value == Pack(ScanReplies(target.tdo, old(chip).port.log, bits)))
    {
      var total := if bitCount.None? then |outgoing| * 8 else bitCount.value;
      var requests := [Request(outgoing, total)];
      OneScan(target.tdo, chip.port.log, requests[0]);
      var results := ScanMany(requests);
      if results.Err? {
        return Err(results.error);
      }
      return Result.Ok(results.value[0]);
    }

    /** `user_command`: the request and the answer are two adjacent scans. */
    method UserCommand(opcode: int, length: int) returns (r: Result<seq<byte>, Error>)
      requires Ready()
      modifies `chip, `exchanges
      ensures Ready()
      ensures r.Ok? <==> 0 <= opcode < 256 && 0 < length < U16_MODULUS
      ensures r.Err? ==> chip == old(chip)
      ensures r.Ok? ==> (
        var asked := ScanLog(old(chip).port.log, RequestBits(opcode, length));
        && chip.port.log == ScanLog(asked, Low(8 * length))
        && r.value == Pack(ScanReplies(target.tdo, asked, Low(8 * length))))
    {
      if !(0 <= opcode < 256) || !(0 <= length < U16_MODULUS) {
        return Err(InvalidArgument);
      }
      var ask, fetch := Request(CommandBytes(opcode, length), 32), Request(Zeros(length), length * 8);
      var requests := [ask, fetch];
      TwoScans(target.tdo, chip.port.log, ask, fetch);
      WholeBits(ask);
      WholeBits(fetch);
      CommandBits(opcode, length);
      ZeroBits(length);
      var results := ScanMany(requests);
      if results.Err? {
        return Err(results.error);
      }
      return Result.Ok(results.value[1]);
    }

    /** `_tms` without reading. */
    method ClockTms(levels: byte, count: nat)
      requires IsIdle(chip) && 1 <= count <= 7
      modifies `chip
      ensures chip == old(chip).(port := PortAfter(old(chip).port, Tms(count, levels, false)))
    {
      TmsRuns(target, chip, count, levels);
      var written := Write([CLOCK_TMS, count - 1, levels, SEND_IMMEDIATE]);
    }

    /** `tap_reset`: from any state of the target. */
    method TapReset()
      requires IsIdle(chip)
      modifies `chip
      ensures Ready() && old(chip).port.log <= chip.port.log
      ensures !chip.port.tms && chip.port.log != [] && chip.port.log[|chip.port.log| - 1] == Resets
    {
      ResetReachesIdle(chip.port);
      ClockTms(0x1F, 5);
      ClockTms(0, 1);
    }

    /** `select_user2`: the six bits of USER2 pass through the instruction register. */
    method SelectUser2()
      requires Ready()
      modifies `chip
      ensures Ready()
      ensures chip.port.log == old(chip).port.log + [CapturesIr] + InstructionShifts(USER2) + [UpdatesIr]
    {
      SelectShiftsUser2(chip.port);
      ClockTms(3, 4);
      BitsRun(target, chip, 5, 3);
      var written := Write([CLOCK_BITS, 4, 3]);
      ClockTms(1, 1);
      ClockTms(1, 2);
    }
  }

  function CommandBytes(opcode: int, length: int): (request: seq<byte>)
    requires 0 <= opcode < 256 && 0 <= length < U16_MODULUS
    ensures |request| == 4
  {
    [0xA6, opcode, length % 256, length / 256]
  }

  function Zeros(length: nat): (blank: seq<byte>)
    ensures |blank| == length
  {
    seq(length, _ => 0)
  }

  /** The bytes of the request are the bits the target expects. */
  lemma CommandBits(opcode: nat, length: nat)
    requires opcode < 256 && length < U16_MODULUS
    ensures Unpack(CommandBytes(opcode, length)) == RequestBits(opcode, length)
  {
    var low, high := length % 256, length / 256;
    BitsOfTwoBytes(length);
    UnpackAppend([0xA6, opcode], [low, high]);
    UnpackTwo(0xA6, opcode);
    UnpackTwo(low, high);
    assert [0xA6, opcode] + [low, high] == CommandBytes(opcode, length);
  }

  lemma UnpackTwo(a: byte, b: byte)
    ensures Unpack([a, b]) == Bits(a, 8) + Bits(b, 8)
  {
    assert [a, b][1..] == [b] && [b][1..] == [];
    assert Unpack([b]) == Bits(b, 8) + [];
  }

  lemma {:induction false} ZeroBits(length: nat)
    ensures Unpack(Zeros(length)) == Low(8 * length)
  {
    if length != 0 {
      assert Zeros(length)[1..] == Zeros(length - 1);
      ZeroBits(length - 1);
      NoBits(8);
    }
  }

  lemma {:induction false} NoBits(width: nat)
    ensures Bits(0, width) == Low(width)
  {
    if width != 0 {
      NoBits(width - 1);
    }
  }

  lemma WholeBits(r: Request)
    requires r.total == 8 * |r.outgoing|
    ensures r.outgoing != [] ==> IsValid(r) && BitsOf(r) == Unpack(r.outgoing)
    ensures r.outgoing == [] ==> !IsValid(r)
  {
  }

  /** The first results, each the packed TDO bits of its own scan. */
  ghost predicate AreFirstResults(t: Target, log: seq<Event>, requests: seq<Request>, results: seq<seq<byte>>) {
    && AllValid(requests)
    && |results| <= |requests|
    && forall k | 0 <= k < |results| :: results[k] == PlainResult(t.tdo, log, requests, k)
  }

  lemma OneMoreResult(t: Target, log: seq<Event>, requests: seq<Request>, results: seq<seq<byte>>, result: seq<byte>)
    requires AreFirstResults(t, log, requests, results) && |results| < |requests|
    requires result == PlainResult(t.tdo, log, requests, |results|)
    ensures AreFirstResults(t, log, requests, results + [result])
  {
  }

  /** Every result is the packed TDO bits of its own scan. */
  ghost predicate AreResults(t: Target, log: seq<Event>, requests: seq<Request>, results: seq<seq<byte>>) {
    |results| == |requests| && AreFirstResults(t, log, requests, results)
  }

  lemma PortIsPlain(t: Target, p: Port, requests: seq<Request>)
    requires AllValid(requests) && p.state == RunTestIdle
    ensures var q := PortAll(p, Untagged(TagAll(ScansOf(requests), 0)));
            q.state == RunTestIdle && q.log == PlainLog(p.log, requests)
  {
    UntagAll(t, p, ScansOf(requests), 0);
    ScansArePlain(t, p, requests);
  }

  function CountOr(bitCount: Option<int>, whole: int): int {
    if bitCount.None? then whole else bitCount.value
  }

  lemma OneScan(tdo: seq<Event> -> bool, log: seq<Event>, r: Request)
    ensures AllValid([r]) <==> IsValid(r)
    ensures IsValid(r) ==>
              && PlainLog(log, [r]) == ScanLog(log, BitsOf(r))
              && PlainResult(tdo, log, [r], 0) == Pack(ScanReplies(tdo, log, BitsOf(r)))
  {
    assert [r][0] == r;
    if IsValid(r) {
      assert [r][1..] == [] && [r][..0] == [];
    }
  }

  lemma TwoScans(tdo: seq<Event> -> bool, log: seq<Event>, a: Request, b: Request)
    ensures AllValid([a, b]) <==> IsValid(a) && IsValid(b)
    ensures IsValid(a) && IsValid(b) ==>
              && PlainLog(log, [a, b]) == ScanLog(ScanLog(log, BitsOf(a)), BitsOf(b))
              && PlainResult(tdo, log, [a, b], 1) == Pack(ScanReplies(tdo, ScanLog(log, BitsOf(a)), BitsOf(b)))
  {
    assert [a, b][0] == a && [a, b][1] == b;
    if IsValid(a) && IsValid(b) {
      assert [a, b][1..] == [b] && [b][1..] == [] && [a, b][..1] == [a] && [a][1..] == [];
      assert PlainLog(ScanLog(log, BitsOf(a)), []) == ScanLog(log, BitsOf(a));
      assert PlainLog(ScanLog(log, BitsOf(a)), [b]) == PlainLog(ScanLog(ScanLog(log, BitsOf(a)), BitsOf(b)), []);
    }
  }

  /** Where a call of `_scan_many` began and what it has to send. */
  datatype Start = Start(port: Port, earlier: seq<Exchange>, all: seq<Tagged>, count: nat)

  ghost predicate ScansBelow(tagged: seq<Tagged>, count: nat) {
    forall i | i in tagged :: i.scan < count
  }

  /** The variables `flush` shares with the loop, and what they stand for. */
  datatype Work = Work(batch: seq<Piece>, pending: nat, raw: seq<seq<byte>>)

  datatype Trace = Trace(done: seq<Tagged>, waiting: seq<Tagged>, sent: seq<Exchange>)

  ghost predicate InProgress(t: Target, p: Port, now: Port, w: Work, trace: Trace, all: seq<Tagged>, i: nat)
    requires i <= |all|
  {
    && w.batch == PiecesOf(trace.waiting)
    && w.pending == TotalReads(w.batch)
    && Progress(t, p, now, trace.sent, w.raw, trace.done, trace.waiting, all, i)
  }

  lemma Queued(t: Target, p: Port, now: Port, w: Work, trace: Trace, all: seq<Tagged>, i: nat)
    requires i < |all| && ArePieces(all)
    requires InProgress(t, p, now, w, trace, all, i)
    requires w.pending == 0 || w.pending + PieceOf(all[i]).readLength <= MAX_BATCH_READ
    ensures InProgress(t, p, now,
                       Work(w.batch + [PieceOf(all[i])], w.pending + PieceOf(all[i]).readLength, w.raw),
                       trace.(waiting := trace.waiting + [all[i]]), all, i + 1)
  {
    assert all[i] in all;
    SampleCount(t, p, all[i].instruction);
    ProgressAppended(t, p, now, trace.sent, w.raw, trace.done, trace.waiting, all, i);
  }

  function Empties(count: nat): (raw: seq<seq<byte>>)
    ensures |raw| == count
    ensures forall k | 0 <= k < count :: raw[k] == []
  {
    seq(count, _ => [])
  }

  lemma DropPrefix<T>(a: seq<T>, b: seq<T>)
    ensures (a + b)[|a|..] == b && a <= a + b
  {
  }

  lemma Finished(t: Target, p: Port, now: Port, w: Work, trace: Trace, all: seq<Tagged>)
    requires trace.waiting == [] && InProgress(t, p, now, w, trace, all, |all|)
    ensures now == PortAll(p, Untagged(all)) && Carry(trace.sent, PiecesOf(all))
    ensures forall k | 0 <= k < |w.raw| :: w.raw[k] == Collected(t, p, all, k)
  {
    assert trace.done + [] == trace.done && all[..|all|] == all;
  }

  lemma FromProgress(all: seq<Tagged>, done: seq<Tagged>, batch: seq<Tagged>, i: nat)
    requires i <= |all| && done + batch == all[..i]
    ensures forall x | x in batch :: x in all
  {
    forall x | x in batch
      ensures x in all
    {
      assert x in done + batch;
    }
  }
}
