/** Many scans in one command stream: which samples belong to which scan. */
module MpsseBatch {
  import opened Bytes
  import opened BitStrings
  import opened StreamScan
  import opened Tap
  import opened Mpsse
  import opened MpsseScan

  datatype Request = Request(outgoing: seq<byte>, total: int)

  predicate IsValid(r: Request) {
    1 <= r.total <= 8 * |r.outgoing|
  }

  predicate AllValid(requests: seq<Request>) {
    forall k | 0 <= k < |requests| :: IsValid(requests[k])
  }

  function InstructionsOf(r: Request): seq<Instruction>
    requires IsValid(r)
  {
    ScanInstructions(r.outgoing, r.total)
  }

  // --------------------------------------------------------------- the plain meaning

  /** The bits a request shifts in. */
  function BitsOf(r: Request): seq<bool>
    requires IsValid(r)
  {
    Unpack(r.outgoing)[..r.total]
  }

  /** What the target notices when the scans run one after the other. */
  function PlainLog(log: seq<Event>, requests: seq<Request>): seq<Event>
    requires AllValid(requests)
    decreases |requests|
  {
    if requests == [] then log else PlainLog(ScanLog(log, BitsOf(requests[0])), requests[1..])
  }

  /** The answer to request `k`: the TDO bits of its own shifts. */
  function PlainResult(tdo: seq<Event> -> bool, log: seq<Event>, requests: seq<Request>, k: nat): seq<byte>
    requires AllValid(requests)
    requires k < |requests|
  {
    Pack(ScanReplies(tdo, PlainLog(log, requests[..k]), BitsOf(requests[k])))
  }

  // ------------------------------------------------------------------------- pieces

  /** A command with the scan it belongs to and the number of bytes it makes the chip return. */
  datatype Piece = Piece(command: seq<byte>, scan: nat, readLength: nat)

  datatype Tagged = Tagged(instruction: Instruction, scan: nat)

  function Reads(i: Instruction): nat {
    match i
    case ShiftBytes(payload) => |payload|
    case Tms(_, _, sampled) => if sampled then 1 else 0
    case ShiftBits(_, _, sampled) => if sampled then 1 else 0
    case SendImmediate => 0
  }

  function PieceOf(i: Tagged): Piece {
    Piece(Spelling(i.instruction), i.scan, Reads(i.instruction))
  }

  function PiecesOf(tagged: seq<Tagged>): (pieces: seq<Piece>)
    ensures |pieces| == |tagged|
    ensures forall j | 0 <= j < |tagged| :: pieces[j] == PieceOf(tagged[j])
  {
    seq(|tagged|, j requires 0 <= j < |tagged| => PieceOf(tagged[j]))
  }

  function Untagged(tagged: seq<Tagged>): (instructions: seq<Instruction>)
    ensures |instructions| == |tagged|
  {
    if tagged == [] then [] else [tagged[0].instruction] + Untagged(tagged[1..])
  }

  function Tag(instructions: seq<Instruction>, scan: nat): (tagged: seq<Tagged>)
    ensures |tagged| == |instructions|
  {
    if instructions == [] then [] else [Tagged(instructions[0], scan)] + Tag(instructions[1..], scan)
  }

  function Joined(pieces: seq<Piece>): seq<byte> {
    if pieces == [] then [] else pieces[0].command + Joined(pieces[1..])
  }

  function TotalReads(pieces: seq<Piece>): nat {
    if pieces == [] then 0 else pieces[0].readLength + TotalReads(pieces[1..])
  }

  /** The commands of several scans; the scans are numbered from `first`. */
  function TagAll(scans: seq<seq<Instruction>>, first: nat): seq<Tagged>
    decreases |scans|
  {
    if scans == [] then [] else Tag(scans[0], first) + TagAll(scans[1..], first + 1)
  }

  function ScansOf(requests: seq<Request>): (scans: seq<seq<Instruction>>)
    requires AllValid(requests)
    ensures |scans| == |requests|
    ensures forall k | 0 <= k < |requests| :: scans[k] == InstructionsOf(requests[k])
  {
    seq(|requests|, k requires 0 <= k < |requests| => InstructionsOf(requests[k]))
  }

  /** An instruction the scanner uses: legal, not a flush, and reading little enough for one exchange. */
  predicate IsPiece(i: Instruction) {
    match i
    case Tms(count, _, _) => 1 <= count <= 7
    case ShiftBytes(payload) => 1 <= |payload| <= MAX_DATA_PIECE
    case ShiftBits(count, _, _) => 1 <= count <= 8
    case SendImmediate => false
  }

  predicate ArePieces(tagged: seq<Tagged>) {
    forall i | i in tagged :: IsPiece(i.instruction)
  }

  // --------------------------------------------------------------- which sample is whose

  /** The samples of the instructions of scan `k`. */
  function Collected(t: Target, p: Port, tagged: seq<Tagged>, k: nat): seq<byte>
    decreases |tagged|
  {
    if tagged == [] then []
    else
      var i := tagged[0].instruction;
      (if tagged[0].scan == k then Samples(t, p, i) else []) + Collected(t, PortAfter(p, i), tagged[1..], k)
  }

  lemma {:induction false} UntaggedAppend(a: seq<Tagged>, b: seq<Tagged>)
    ensures Untagged(a + b) == Untagged(a) + Untagged(b)
    decreases |a|
  {
    if a == [] {
      assert a + b == b;
    } else {
      assert (a + b)[1..] == a[1..] + b;
      UntaggedAppend(a[1..], b);
    }
  }

  lemma {:induction false} UntagTag(instructions: seq<Instruction>, scan: nat)
    ensures Untagged(Tag(instructions, scan)) == instructions
    decreases |instructions|
  {
    if instructions != [] {
      UntagTag(instructions[1..], scan);
      assert Tag(instructions, scan)[1..] == Tag(instructions[1..], scan);
    }
  }

  lemma {:induction false} CollectedAppend(t: Target, p: Port, a: seq<Tagged>, b: seq<Tagged>, k: nat)
    ensures Collected(t, p, a + b, k) == Collected(t, p, a, k) + Collected(t, PortAll(p, Untagged(a)), b, k)
    decreases |a|
  {
    if a == [] {
      assert a + b == b;
    } else {
      assert (a + b)[1..] == a[1..] + b;
      CollectedAppend(t, PortAfter(p, a[0].instruction), a[1..], b, k);
      assert Untagged(a)[1..] == Untagged(a[1..]);
      Associate(if a[0].scan == k then Samples(t, p, a[0].instruction) else [],
                Collected(t, PortAfter(p, a[0].instruction), a[1..], k),
                Collected(t, PortAll(p, Untagged(a)), b, k));
    }
  }

  /** A scan's own instructions give all their samples to it and none to others. */
  lemma {:induction false} CollectedTag(t: Target, p: Port, instructions: seq<Instruction>, scan: nat, k: nat)
    ensures Collected(t, p, Tag(instructions, scan), k) == if scan == k then SamplesAll(t, p, instructions) else []
    decreases |instructions|
  {
    if instructions != [] {
      assert Tag(instructions, scan)[1..] == Tag(instructions[1..], scan);
      CollectedTag(t, PortAfter(p, instructions[0]), instructions[1..], scan, k);
    }
  }

  lemma TagStep(t: Target, p: Port, own: seq<Instruction>, first: nat, more: seq<Tagged>, k: nat)
    ensures Collected(t, p, Tag(own, first) + more, k) ==
            (if first == k then SamplesAll(t, p, own) else []) + Collected(t, PortAll(p, own), more, k)
    ensures Untagged(Tag(own, first) + more) == own + Untagged(more)
  {
    UntaggedAppend(Tag(own, first), more);
    UntagTag(own, first);
    CollectedAppend(t, p, Tag(own, first), more, k);
    CollectedTag(t, p, own, first, k);
  }

  lemma {:induction false} NothingForOthers(t: Target, p: Port, tagged: seq<Tagged>, k: nat)
    requires forall i | i in tagged :: i.scan != k
    ensures Collected(t, p, tagged, k) == []
    decreases |tagged|
  {
    if tagged != [] {
      NothingForOthers(t, PortAfter(p, tagged[0].instruction), tagged[1..], k);
    }
  }

  lemma {:induction false} TagScans(instructions: seq<Instruction>, scan: nat)
    ensures forall i | i in Tag(instructions, scan) :: i.scan == scan
    decreases |instructions|
  {
    if instructions != [] {
      TagScans(instructions[1..], scan);
    }
  }

  lemma {:induction false} TagAllScans(scans: seq<seq<Instruction>>, first: nat)
    ensures forall i | i in TagAll(scans, first) :: first <= i.scan < first + |scans|
    decreases |scans|
  {
    if scans != [] {
      TagScans(scans[0], first);
      TagAllScans(scans[1..], first + 1);
    }
  }

  lemma {:induction false} TagAllAppend(a: seq<seq<Instruction>>, b: seq<seq<Instruction>>, first: nat)
    ensures TagAll(a + b, first) == TagAll(a, first) + TagAll(b, first + |a|)
    decreases |a|
  {
    if a == [] {
      assert a + b == b;
    } else {
      assert (a + b)[1..] == a[1..] + b;
      TagAllAppend(a[1..], b, first + 1);
    }
  }

  lemma {:induction false} UntagAll(t: Target, p: Port, scans: seq<seq<Instruction>>, first: nat)
    ensures Untagged(TagAll(scans, first)) == Flatten(scans)
    decreases |scans|
  {
    if scans != [] {
      TagStep(t, p, scans[0], first, TagAll(scans[1..], first + 1), first);
      UntagAll(t, p, scans[1..], first + 1);
    }
  }

  lemma CollectedFromMiddle(t: Target, p: Port, before: seq<Tagged>, own: seq<Instruction>, after: seq<Tagged>, k: nat)
    requires forall i | i in before + after :: i.scan != k
    ensures Collected(t, p, before + (Tag(own, k) + after), k) == SamplesAll(t, PortAll(p, Untagged(before)), own)
  {
    assert forall i | i in before :: i in before + after;
    assert forall i | i in after :: i in before + after;
    var q := PortAll(p, Untagged(before));
    NothingForOthers(t, p, before, k);
    NothingForOthers(t, PortAll(q, own), after, k);
    CollectedAppend(t, p, before, Tag(own, k) + after, k);
    TagStep(t, q, own, k, after, k);
    assert [] + (SamplesAll(t, q, own) + []) == SamplesAll(t, q, own);
  }

  lemma TagAllFirst(own: seq<Instruction>, rest: seq<seq<Instruction>>, first: nat)
    ensures TagAll([own] + rest, first) == Tag(own, first) + TagAll(rest, first + 1)
  {
    assert ([own] + rest)[1..] == rest;
  }

  lemma TagAllParts(
    before: seq<seq<Instruction>>, own: seq<Instruction>, after: seq<seq<Instruction>>, rest: seq<seq<Instruction>>, k: nat)
    requires k == |before| && rest == [own] + after
    ensures TagAll(before + rest, 0) == TagAll(before, 0) + (Tag(own, k) + TagAll(after, k + 1))
  {
    TagAllAppend(before, rest, 0);
    assert TagAll(rest, k) == Tag(own, k) + TagAll(after, k + 1) by {
      TagAllFirst(own, after, k);
    }
  }

  lemma TagAllSplit(scans: seq<seq<Instruction>>, k: nat)
    requires k < |scans|
    ensures TagAll(scans, 0) == TagAll(scans[..k], 0) + (Tag(scans[k], k) + TagAll(scans[k + 1..], k + 1))
  {
    SplitAt(scans, k);
    TagAllParts(scans[..k], scans[k], scans[k + 1..], [scans[k]] + scans[k + 1..], k);
  }

  lemma OthersAreElsewhere(scans: seq<seq<Instruction>>, k: nat)
    requires k < |scans|
    ensures forall i | i in TagAll(scans[..k], 0) + TagAll(scans[k + 1..], k + 1) :: i.scan != k
  {
    TagAllScans(scans[..k], 0);
    TagAllScans(scans[k + 1..], k + 1);
  }

  /** What is collected for scan `k` are the samples of its own instructions, wherever it stands. */
  lemma CollectedIsOwn(t: Target, p: Port, scans: seq<seq<Instruction>>, k: nat)
    requires k < |scans|
    ensures Collected(t, p, TagAll(scans, 0), k) == SamplesAll(t, PortAll(p, Flatten(scans[..k])), scans[k])
  {
    var before, after := TagAll(scans[..k], 0), TagAll(scans[k + 1..], k + 1);
    TagAllSplit(scans, k);
    OthersAreElsewhere(scans, k);
    UntagAll(t, p, scans[..k], 0);
    CollectedFromMiddle(t, p, before, scans[k], after, k);
  }

  lemma FirstScanIsPlain(t: Target, p: Port, requests: seq<Request>)
    requires AllValid(requests) && requests != [] && p.state == RunTestIdle
    ensures var q := PortAll(p, InstructionsOf(requests[0]));
            && q == Port(RunTestIdle, false, ScanLog(p.log, BitsOf(requests[0])))
            && PortAll(p, Flatten(ScansOf(requests))) == PortAll(q, Flatten(ScansOf(requests[1..])))
  {
    var r, scans := requests[0], ScansOf(requests);
    ScanIsPlain(t, p, r.outgoing, r.total);
    assert scans[1..] == ScansOf(requests[1..]);
    AllAppend(t, p, scans[0], Flatten(scans[1..]));
  }

  /** Running the commands of all scans is running the scans one after the other. */
  lemma {:induction false} ScansArePlain(t: Target, p: Port, requests: seq<Request>)
    requires AllValid(requests)
    requires p.state == RunTestIdle
    ensures PortAll(p, Flatten(ScansOf(requests))).state == RunTestIdle
    ensures PortAll(p, Flatten(ScansOf(requests))).log == PlainLog(p.log, requests)
    decreases |requests|
  {
    if requests != [] {
      var q := PortAll(p, InstructionsOf(requests[0]));
      FirstScanIsPlain(t, p, requests);
      ScansArePlain(t, q, requests[1..]);
    }
  }

  /** What is collected for request `k` answers its shifts. */
  lemma CollectedIsRaw(t: Target, p: Port, requests: seq<Request>, k: nat)
    requires AllValid(requests)
    requires p.state == RunTestIdle && k < |requests|
    ensures IsRaw(Collected(t, p, TagAll(ScansOf(requests), 0), k),
                  ScanReplies(t.tdo, PlainLog(p.log, requests[..k]), BitsOf(requests[k])))
  {
    var scans := ScansOf(requests);
    CollectedIsOwn(t, p, scans, k);
    assert scans[..k] == ScansOf(requests[..k]);
    ScansArePlain(t, p, requests[..k]);
    ScanIsPlain(t, PortAll(p, Flatten(scans[..k])), requests[k].outgoing, requests[k].total);
  }

  // --------------------------------------------------------------- facts about pieces

  lemma PiecesAppend(a: seq<Tagged>, b: seq<Tagged>)
    ensures PiecesOf(a + b) == PiecesOf(a) + PiecesOf(b)
  {
  }

  lemma ScansAppend(requests: seq<Request>, r: Request)
    requires AllValid(requests) && IsValid(r)
    ensures AllValid(requests + [r])
    ensures ScansOf(requests + [r]) == ScansOf(requests) + [InstructionsOf(r)]
  {
  }

  lemma {:induction false} JoinedAppend(a: seq<Piece>, b: seq<Piece>)
    ensures Joined(a + b) == Joined(a) + Joined(b)
    ensures TotalReads(a + b) == TotalReads(a) + TotalReads(b)
    decreases |a|
  {
    if a == [] {
      assert a + b == b;
    } else {
      assert (a + b)[1..] == a[1..] + b;
      JoinedAppend(a[1..], b);
    }
  }

  lemma {:induction false} JoinedIsSpelling(tagged: seq<Tagged>)
    ensures Joined(PiecesOf(tagged)) == EncodeAll(Spelling, Untagged(tagged))
    decreases |tagged|
  {
    if tagged != [] {
      assert PiecesOf(tagged)[1..] == PiecesOf(tagged[1..]);
      JoinedIsSpelling(tagged[1..]);
    }
  }

  lemma SampleCount(t: Target, p: Port, i: Instruction)
    requires IsPiece(i)
    ensures |Samples(t, p, i)| == Reads(i) <= MAX_DATA_PIECE
  {
  }

  lemma {:induction false} SamplesTotal(t: Target, p: Port, tagged: seq<Tagged>)
    requires ArePieces(tagged)
    ensures |SamplesAll(t, p, Untagged(tagged))| == TotalReads(PiecesOf(tagged))
    decreases |tagged|
  {
    if tagged != [] {
      assert PiecesOf(tagged)[1..] == PiecesOf(tagged[1..]);
      SampleCount(t, p, tagged[0].instruction);
      SamplesTotal(t, PortAfter(p, tagged[0].instruction), tagged[1..]);
    }
  }

  lemma {:induction false} UntaggedArePieces(tagged: seq<Tagged>)
    requires ArePieces(tagged)
    ensures forall i | i in Untagged(tagged) :: IsPiece(i)
    decreases |tagged|
  {
    if tagged != [] {
      UntaggedArePieces(tagged[1..]);
    }
  }

  lemma {:induction false} ByteRunsArePieces(data: seq<byte>)
    ensures forall i | i in ByteRuns(data) :: IsPiece(i)
    decreases |data|
  {
    if data != [] {
      ByteRunsArePieces(data[Min(MAX_DATA_PIECE, |data|)..]);
    }
  }

  lemma {:induction false} TagArePieces(instructions: seq<Instruction>, scan: nat)
    requires forall i | i in instructions :: IsPiece(i)
    ensures ArePieces(Tag(instructions, scan))
    decreases |instructions|
  {
    if instructions != [] {
      TagArePieces(instructions[1..], scan);
    }
  }

  lemma ScanArePieces(r: Request)
    requires IsValid(r)
    ensures forall i | i in InstructionsOf(r) :: IsPiece(i)
  {
    ByteRunsArePieces(r.outgoing[..(r.total - 1) / 8]);
  }

  lemma {:induction false} TagAllArePieces(requests: seq<Request>, first: nat)
    requires AllValid(requests)
    ensures ArePieces(TagAll(ScansOf(requests), first))
    decreases |requests|
  {
    if requests != [] {
      var scans := ScansOf(requests);
      ScanArePieces(requests[0]);
      TagArePieces(scans[0], first);
      assert scans[1..] == ScansOf(requests[1..]);
      TagAllArePieces(requests[1..], first + 1);
    }
  }
}
