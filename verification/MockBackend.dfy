/** The hardware-free backend: an adapter over the mailbox model. */
module MockBackendImplementation {
  import opened Bytes
  import opened Wrappers
  import opened Mailbox
  import opened MailboxHeader
  import opened MailboxImplementation
  import opened BridgeTransaction

  datatype TargetIdentity = TargetIdentity(stableId: string, buildId: u32)

  datatype Block = Block(sessionId: u32, startCount: u32, data: seq<byte>, token: Transaction)

  datatype BackendError = NotOpen | NoSuchTarget | MailboxRefused(error: Mailbox.Error)

  class MockBackend {
    const model: MailboxModel
    const targets: seq<TargetIdentity>
    var isOpen: bool

    constructor (model: MailboxModel, targets: seq<TargetIdentity>)
      ensures this.model == model && this.targets == targets && !isOpen
    {
      this.model, this.targets, isOpen := model, targets, false;
    }

    method Open(identity: TargetIdentity) returns (r: Result<(), BackendError>)
      modifies this
      ensures r.Ok? == (identity in targets)
      ensures isOpen == if r.Ok? then true else old(isOpen)
    {
      if identity !in targets {
        return Err(NoSuchTarget);
      }
      isOpen := true;
      return Result.Ok(());
    }

    method ReadHeader() returns (r: Result<Header, BackendError>)
      requires model.Valid()
      ensures r == if isOpen then Result.Ok(HeaderOf(model.fifo, model.buildId)) else Err(NotOpen)
    {
      if !isOpen {
        return Err(NotOpen);
      }
      return Result.Ok(model.CurrentHeader());
    }

    method ReadBlock(length: int) returns (r: Result<Block, BackendError>)
      requires model.Valid()
      ensures r == if !isOpen then Err(NotOpen)
                   else match Mailbox.BeginRead(model.fifo, length)
                        case Ok(t) => Result.Ok(Block(t.sessionId, t.startCount, t.data, t))
                        case Err(e) => Err(MailboxRefused(e))
    {
      if !isOpen {
        return Err(NotOpen);
      }
      var tx := model.BeginRead(length);
      match tx
      case Ok(t) => return Result.Ok(Block(t.sessionId, t.startCount, t.data, t));
      case Err(e) => return Err(MailboxRefused(e));
    }

    method Commit(block: Block) returns (r: Result<(), BackendError>)
      requires model.Valid()
      modifies model
      ensures model.Valid()
      ensures r.Ok? == (isOpen && Accepts(old(model.fifo), block.token))
      ensures model.fifo == if r.Ok? then Mailbox.Commit(old(model.fifo), block.token) else old(model.fifo)
    {
      if !isOpen {
        return Err(NotOpen);
      }
      var done := model.Commit(block.token);
      match done
      case Ok(_) => return Result.Ok(());
      case Err(e) => return Err(MailboxRefused(e));
    }

    method Close()
      modifies this
      ensures !isOpen
    {
      isOpen := false;
    }
  }

  /** The FPGA side of the mailbox acts. */
  method PlayFpga(model: MailboxModel, actions: seq<FpgaAction>)
    requires model.Valid()
    modifies model, model.buffer
    ensures model.Valid()
    ensures model.fifo == Fpga(old(model.fifo), actions)
  {
    ghost var goal := Fpga(model.fifo, actions);
    for i := 0 to |actions|
      invariant model.Valid()
      invariant Fpga(model.fifo, actions[i..]) == goal
    {
      var rest := actions[i..];
      assert AsActions(rest)[1..] == AsActions(actions[i + 1..]);
      match actions[i]
      case FpgaWrites(data) => var _ := model.Write(data);
      case FpgaResets => model.Reset();
    }
  }
}
