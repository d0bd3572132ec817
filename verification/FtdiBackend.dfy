/** The direct FT232H backend: one scan per header, one per block; the commit of a block is only
    checked against the next header. What the scanner returns is a parameter of each call. */
module FtdiBackend {
  import opened Bytes
  import opened Wrappers
  import opened MailboxHeader

  datatype Error =
    | NotOpen | WrongTarget | ScanFailed | BadHeader(error: HeaderError) | BuildIdentityChanged
    | CommitMismatch | PreviousBlockPending | NoHeader | BadLength | ShortScan | ForeignBlock

  /** `token` stands for the identity of the block object. */
  datatype Block = Block(sessionId: u32, startCount: u32, data: seq<byte>, token: nat)

  datatype State = State(
    isOpen: bool, header: Option<Header>, lastBlock: Option<Block>, expectedReadCount: Option<u32>,
    blocksMade: nat)

  const CLOSED := State(false, None, None, None, 0)

  function Closed(s: State): State {
    s.(isOpen := false, header := None, lastBlock := None, expectedReadCount := None)
  }

  /** The answer of a scan; a failing scanner raises. */
  type Scan = Option<seq<byte>>

  function ParseHeader(scan: Scan): Result<Header, Error> {
    match scan
    case None => Err(ScanFailed)
    case Some(data) => match Unpack(data)
                       case Ok(h) => Result.Ok(h)
                       case Err(e) => Err(BadHeader(e))
  }

  /** What `read_header` makes of a scan: whether the header is let through. */
  function Gate(buildId: u32, s: State, scan: Scan): Result<Header, Error> {
    if !s.isOpen then Err(NotOpen)
    else match ParseHeader(scan)
         case Err(e) => Err(e)
         case Ok(h) =>
           if h.buildId != buildId then Err(BuildIdentityChanged)
           else if s.expectedReadCount.Some? && h.readCount != s.expectedReadCount.value then Err(CommitMismatch)
           else Result.Ok(h)
  }

  function AfterReadHeader(buildId: u32, s: State, scan: Scan): State {
    match Gate(buildId, s, scan)
    case Ok(h) => s.(expectedReadCount := None, header := Some(h))
    case Err(_) => s
  }

  function TakeBlock(s: State, length: int, scan: Scan): Result<Block, Error> {
    if s.lastBlock.Some? then Err(PreviousBlockPending)
    else if s.header.None? then Err(NoHeader)
    else if length < 1 || length > s.header.value.availableBytes then Err(BadLength)
    else if !s.isOpen then Err(NotOpen)
    else if scan.None? then Err(ScanFailed)
    else if |scan.value| != length then Err(ShortScan)
    else Result.Ok(Block(s.header.value.sessionId, s.header.value.readCount, scan.value, s.blocksMade))
  }

  function AfterReadBlock(s: State, length: int, scan: Scan): State {
    match TakeBlock(s, length, scan)
    case Ok(b) => s.(lastBlock := Some(b), blocksMade := s.blocksMade + 1)
    case Err(_) => s
  }

  predicate IsLastBlock(s: State, b: Block) {
    s.lastBlock.Some? && s.lastBlock.value.token == b.token
  }

  function AfterCommit(s: State, b: Block): State {
    if IsLastBlock(s, b) then
      s.(expectedReadCount := Some(Low32(b.startCount + |b.data|)), lastBlock := None)
    else s
  }

  class FtdiMpsseBackend {
    const buildId: u32
    const identity: string
    var isOpen: bool
    var header: Option<Header>
    var lastBlock: Option<Block>
    var expectedReadCount: Option<u32>
    var blocksMade: nat

    function Current(): State
      reads this
    {
      State(isOpen, header, lastBlock, expectedReadCount, blocksMade)
    }

    constructor (buildId: u32, identity: string)
      ensures Current() == CLOSED && this.buildId == buildId && this.identity == identity
    {
      this.buildId, this.identity := buildId, identity;
      isOpen, header, lastBlock, expectedReadCount, blocksMade := false, None, None, None, 0;
    }

    /** `scannerFound` says whether a scanner could be made; `scan` is its first header scan. */
    method Open(identity: string, scannerFound: bool, scan: Scan) returns (r: Result<(), Error>)
      modifies this
      ensures identity != this.identity ==> r == Err(WrongTarget) && Current() == old(Current())
      ensures identity == this.identity ==>
                && (r.Ok? <==> scannerFound && ParseHeader(scan).Ok? && ParseHeader(scan).value.buildId == buildId)
                && Current() == if r.Ok? then Closed(old(Current())).(isOpen := true, header := Some(ParseHeader(scan).value))
                                else Closed(old(Current()))
    {
      if identity != this.identity {
        return Err(WrongTarget);
      }
      Close();
      if !scannerFound {
        return Err(ScanFailed);
      }
      isOpen := true;
      var parsed := ParseHeader(scan);
      if parsed.Err? {
        Close();
        return Err(parsed.error);
      }
      if parsed.value.buildId != buildId {
        Close();
        return Err(BuildIdentityChanged);
      }
      header := Some(parsed.value);
      return Result.Ok(());
    }

    method ReadHeader(scan: Scan) returns (r: Result<Header, Error>)
      modifies this`expectedReadCount, this`header
      ensures r == Gate(buildId, old(Current()), scan)
      ensures Current() == AfterReadHeader(buildId, old(Current()), scan)
    {
      if !isOpen {
        return Err(NotOpen);
      }
      var parsed := ParseHeader(scan);
      if parsed.Err? {
        return Err(parsed.error);
      }
      var h := parsed.value;
      if h.buildId != buildId {
        return Err(BuildIdentityChanged);
      }
      if expectedReadCount.Some? && h.readCount != expectedReadCount.value {
        return Err(CommitMismatch);
      }
      expectedReadCount := None;
      header := Some(h);
      return Result.Ok(h);
    }

    method ReadBlock(length: int, scan: Scan) returns (r: Result<Block, Error>)
      modifies this`lastBlock, this`blocksMade
      ensures r == TakeBlock(old(Current()), length, scan)
      ensures Current() == AfterReadBlock(old(Current()), length, scan)
    {
      if lastBlock.Some? {
        return Err(PreviousBlockPending);
      }
      if header.None? {
        return Err(NoHeader);
      }
      var h := header.value;
      if length < 1 || length > h.availableBytes {
        return Err(BadLength);
      }
      if !isOpen {
        return Err(NotOpen);
      }
      if scan.None? {
        return Err(ScanFailed);
      }
      var data := scan.value;
      if |data| != length {
        return Err(ShortScan);
      }
      var block := Block(h.sessionId, h.readCount, data, blocksMade);
      blocksMade := blocksMade + 1;
      lastBlock := Some(block);
      return Result.Ok(block);
    }

    method Commit(block: Block) returns (r: Result<(), Error>)
      modifies this`lastBlock, this`expectedReadCount
      ensures r.Ok? == IsLastBlock(old(Current()), block)
      ensures Current() == AfterCommit(old(Current()), block)
    {
      if lastBlock.None? || lastBlock.value.token != block.token {
        return Err(ForeignBlock);
      }
      expectedReadCount := Some(Low32(block.startCount + |block.data|));
      lastBlock := None;
      return Result.Ok(());
    }

    method Close()
      modifies this
      ensures Current() == Closed(old(Current()))
    {
      isOpen := false;
      header, lastBlock, expectedReadCount := None, None, None;
    }
  }
}
