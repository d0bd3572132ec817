# YiFPGA Debug: the byte path from the FPGA to its host tools

A Dafny model of how debug messages travel from their sources in the FPGA to the host programs that show them,
and of how Monitor requests travel back, with proofs of what the path guarantees. `dafny verify dfyconfig.toml`
checks the whole project.

Every stage is a small stateful component with a simple meaning. Where the program updates state step by step,
a class or method has the same fields, branches and loops and is proved equal to a function on values; the theorems
are about those functions, over every run and every interleaving.

- **Debug core** (`DebugCore`, `DebugCoreTheorems`, `DebugCoreRtl`, `CoreMessages`): priority arbiter, message queue,
  packetizer and 16-bit counters, one clock edge at a time, under arbitrary inputs and arbitrary readiness of the
  receiver. All bytes are conserved, and decoding any transferred bytes gives the accepted messages.
- **Command parser** (`CommandParser`, `CommandParserTheorems`, `CommandParserRtl`): the opposite direction, from bytes
  to one held Monitor request. Bytes that arrive while a request waits are lost; the theorems say exactly what follows
  when none is.
- **Mailbox** (`Mailbox`, `MailboxTheorems`, `MailboxHeader`, `MailboxModel`): a ring buffer with counters modulo 2^32,
  session identifiers and read/commit transactions, against a bounded queue with unbounded counts.
- **Backends and bridge** (`MockBackend`, `FtdiBackend`, `FtdiTheorems`, `BridgeTransaction`, `BridgeWorld`,
  `BridgeTheorems`, `Bridge`): the FPGA may write and reset between any two calls of a transaction, clients join, read
  and leave at any time. Delivery is exactly once and in order, client streams have no gaps, and the FT232H backend,
  which commits at another moment, refines the mock.
- **MPSSE scanner** (`BitStrings`, `Tap`, `Mpsse`, `MpsseScan`, `MpsseBatch`, `MpsseSetup`, `MpsseScanner`, `UserDr`):
  scans are compiled to chip commands, batched over bounded USB exchanges and their samples sorted out again. The
  commands drive the test access port of IEEE Std 1149.1, section 6.1; TDO is an arbitrary function of what the target
  has noticed, and the unused bits of a sample are arbitrary. The target's command engine takes exactly the requests
  the scanner sends.
- **Host parsers** (`StreamScan`, `DebugProtocol`, `UartDecoder`, `UartDecoderTheorems`, `ViewerParser`,
  `BridgeProtocol`): one theory of parsers that keep their unconsumed bytes, used for the resynchronising decoder, the
  viewer's parser, the socket records, the command parser and the chip's command stream.
- **Viewer** (`LogicAnalyzer`, `LogicAnalyzerState`, `LogicAnalyzerTheorems`, `LogicAnalyzerReports`, `Snapshot`):
  reassembly of captures with its gap and error accounting, timestamp unwrapping and run extraction.
- **The whole path** (`EndToEnd`): from the messages the core accepted to the frames a client decodes.

Some promises hold only under a condition, or fail, and the model keeps the code as it is:

- Transactions compare 32-bit session and start counts. The delivery theorems therefore assume fewer than 2^32 - 1
  resets between two calls of a transaction; `BridgeTransaction.AfterAllSessionsTheBlockIsForeign` shows that the bound
  is needed, and `BridgeTransaction.TransactionDeliversIff` says for any number of resets exactly when a transaction
  delivers, and what.
- The FT232H backend does not notice a reset between header and payload scan
  (`FtdiTheorems.ResetInsideTransactionMislabels`). A payload scan always returns the length it was asked for, zeros
  included, so that this backend delivers in any case (`FtdiTheorems.FtdiAlwaysDelivers`); its outcome is that of the
  mock if and only if the target still shows the numbers of the header and has the bytes announced, which with fewer
  than 2^32 - 1 resets means that there was none (`FtdiTheorems.OutcomeIsMockOutcomeIff`).
  `FtdiTheorems.NextHeaderRefusedIff` says when the next header shows the mistake. The refinement theorem excludes only
  resets at that place.
- A message that announces more than 32 payload bytes blocks the packetizer for good
  (`DebugCoreTheorems.OversizedHeadBlocks`); nothing in the core keeps it out of the queue: one such message of the
  Monitor after reset stops the core (`DebugCoreTheorems.OversizedMessageStopsTheCore`). The queue drains exactly when
  no such message is in it (`DebugCoreTheorems.QueueEmptiesIff`).
- A repeated Logic Analyzer header empties the samples but not the memory of chunk indices, so that a resent capture is
  refused (`LogicAnalyzerTheorems.RepeatedHeaderLosesCapture`). `PartsAreAssembled` gives the exact condition for every
  order of arrival.
- The viewer drops a damaged candidate whole and loses any frame inside it
  (`ViewerParser.FrameInsideDamagedCandidateIsLost`), while the board validator's decoder steps over it byte by byte and
  receives that frame (`ViewerParser.TheOtherDecoderReceivesIt`). Foreign bytes cost the viewer exactly themselves if
  and only if the candidates taken from them end where the stream begins (`ViewerParser.GarbageCostsOnlyItselfIff`).
- Timestamps are unwrapped correctly if and only if every step is followed (`Snapshot.UnwrappingIsExact`). The rows of a
  snapshot are listed source by source and not in time order, so the condition can fail
  (`Snapshot.RowsOutOfOrderMislead`).
- The counter `version_errors` of the decoder is never incremented: a frame of another version is dropped before the
  place that would count it (`UartDecoderTheorems.EveryByteIsAccountedFor`).

## Model

| member | source | states |
|---|---|---|
| `MailboxTheorems.OfferedIsAcceptedPlusDropped` | tools/jtag/mailbox_model.py:145-154 | over every run, the bytes offered since the last reset are those accepted plus those dropped, exactly and modulo 2^32 in the published counters |
| `MailboxTheorems.WriteAppendsABeginning` | tools/jtag/mailbox_model.py:145-154 | a write appends a beginning of its data in order; it is a proper beginning only if the mailbox is full afterwards, and the rest is counted as dropped |
| `MailboxTheorems.AcceptedIsMadeOfBeginnings` | tools/jtag/mailbox_model.py:145-154 | over every run, with resets and commits anywhere, what a session accepted is a beginning of each of its writes, one after the other in order; those beginnings and the bytes refused are all bytes written in it |
| `MailboxTheorems.AcceptedIsWhatWasWrittenIff` | tools/jtag/mailbox_model.py:145-154 | no byte of a session was refused if and only if what it accepted is everything written in it, in order |
| `MailboxTheorems.HeaderShowsTheRun` | tools/jtag/mailbox_model.py:133-154 | after any run the header shows the bytes refused and the short writes of the current session modulo 2^32; its counters differ by the bytes waiting, and writes and drops add up to the bytes offered |
| `MailboxTheorems.StoredBytesSurvive` | tools/jtag/mailbox_model.py:145-185 | in a run without reset the bytes waiting at its start are still waiting unchanged except those consumed, and never more than `buffer_size` wait |
| `MailboxTheorems.RunKeepsHistory` | tools/jtag/mailbox_model.py:145-185 | every run only appends to a session, only consumes from its front, and leaves finished sessions as they were |
| `MailboxTheorems.CommitIsTakenIff` | tools/jtag/mailbox_model.py:170-177 | after any run a commit is taken if and only if the resets went round completely, the read count shows the same value and enough bytes wait |
| `MailboxTheorems.CommitIsTakenIffUndisturbed` | tools/jtag/mailbox_model.py:156-177 | with fewer than 2^32 - 1 resets and 2^32 consumed bytes in between, a commit is taken if and only if nothing was reset or consumed since its read began |
| `MailboxTheorems.TransactionSafety` | tools/jtag/mailbox_model.py:156-177 | a commit that is taken removes exactly the bytes its transaction carries from the head of the queue |
| `MailboxTheorems.AtMostOneCommit` | tools/jtag/mailbox_model.py:170-177 | after a taken commit no other transaction of the same session and start count is ever taken, and none after a reset, within the same bounds |
| `MailboxTheorems.SessionIdRepeats` | tools/jtag/mailbox_model.py:179-185 | two sessions show the same identifier if and only if the resets between them are a multiple of 2^32 - 1 |
| `MailboxTheorems.NextSession` | tools/jtag/mailbox_model.py:180 | a reset moves to the next identifier, from 2^32 - 1 to 1, and 0 is skipped |
| `MailboxTheorems.PublishedHeaderIsValid` | tools/jtag/mailbox_model.py:84-104 | every header a mailbox can reach passes validation and survives pack and unpack |
| `MailboxHeader.HeaderRoundTrip` | tools/jtag/mailbox_model.py:68-90 | a valid header is read back from its 40 bytes field by field |
| `MailboxHeader.Layout` | tools/jtag/mailbox_model.py:23 | each field lies at its published offset of the 40 bytes, least significant byte first |
| `MailboxHeader.HeaderIsAcceptedIff` | tools/jtag/mailbox_model.py:92-104 | a header is accepted if and only if it has the magic, version 1, the FPGA-to-host bit, one of the five buffer sizes, no more bytes waiting than the buffer holds, and a write count that is the read count plus those bytes modulo 2^32 |
| `MailboxHeader.AcceptedBytesStartWithMagic` | tools/jtag/mailbox_model.py:68-104 | bytes are accepted as a header only if there are 40 of them and the first four spell OFJT |
| `MailboxImplementation.MailboxModel.constructor` | tools/jtag/mailbox_model.py:117-127 | a new mailbox is the empty queue of its first session |
| `MailboxImplementation.MailboxModel.CurrentHeader` | tools/jtag/mailbox_model.py:133-143 | the header built from 32-bit registers shows the unbounded queue |
| `MailboxImplementation.MailboxModel.AvailableBytes` | tools/jtag/mailbox_model.py:129-131 | the wrapped difference of the two counters is the true number of waiting bytes |
| `MailboxImplementation.MailboxModel.Write` | tools/jtag/mailbox_model.py:145-154 | the ring buffer with wrapped counters appends the first bytes of the data in order, as many as returned, fewer than all only if it is full afterwards, and counts the rest |
| `MailboxImplementation.MailboxModel.BeginRead` | tools/jtag/mailbox_model.py:156-168 | the bytes read from the ring are the head of the queue, and each invalid request gets its error |
| `MailboxImplementation.MailboxModel.Commit` | tools/jtag/mailbox_model.py:170-177 | the counter comparison accepts exactly the transactions the abstract queue accepts, and then consumes them |
| `MailboxImplementation.MailboxModel.Reset` | tools/jtag/mailbox_model.py:179-185 | a reset ends the session of the abstract queue and starts the next |
| `MailboxImplementation.SlotOf` | tools/jtag/mailbox_model.py:145-149 | reducing the wrapped counter modulo the buffer size gives the slot of the unbounded count |
| `Bytes.Low32Distinct` | tools/jtag/mailbox_model.py:49-51 | counts less than 2^32 apart differ in their wrapped values, and their wrapped difference is the true one |
| `MockBackendImplementation.MockBackend.Open` | tools/jtag/jtag_backend.py:78-81 | the mock opens exactly the identities it lists |
| `MockBackendImplementation.MockBackend.ReadHeader` | tools/jtag/jtag_backend.py:87-89 | an open mock reports the header of its mailbox, a closed one fails |
| `MockBackendImplementation.MockBackend.ReadBlock` | tools/jtag/jtag_backend.py:91-94 | a block carries session, start count and bytes of the transaction it holds as token |
| `MockBackendImplementation.MockBackend.Commit` | tools/jtag/jtag_backend.py:96-100 | a commit succeeds exactly when the mailbox accepts the token, and only then consumes |
| `BridgeTransaction.BlockIsReadIff` | tools/jtag/yifpga_jtag_bridge.py:165-168 | after the header, the block read yields exactly the announced bytes when no reset came in between; otherwise it fails or shows another session |
| `BridgeTransaction.CommitSucceedsIff` | tools/jtag/yifpga_jtag_bridge.py:169 | after the block, the commit succeeds if and only if no reset came in between |
| `BridgeTransaction.TransactionDeliversIff` | tools/jtag/yifpga_jtag_bridge.py:157-170 | for any number of resets: it delivers if and only if identity and bytes were there and before block and before commit the mailbox shows the same session and read count with enough bytes, that is, nothing was reset, or the resets went round completely over a queue whose read count shows 0; it then delivers the head of the queue at the block read |
| `BridgeTransaction.TransactionDelivers` | tools/jtag/yifpga_jtag_bridge.py:157-170 | with fewer than 2^32 - 1 resets between any two calls, the transaction delivers exactly the next bytes of the session of its header if and only if nothing was reset and identity and bytes were there |
| `BridgeTransaction.FailedTransactionConsumesNothing` | tools/jtag/yifpga_jtag_bridge.py:157-170 | a transaction that raises or finds nothing leaves only the FPGA's own changes |
| `BridgeTransaction.AfterAllSessionsTheBlockIsForeign` | tools/jtag/yifpga_jtag_bridge.py:166-168 | the bound on resets is needed: after 2^32 - 1 resets inside a transaction a foreign block is delivered under the old header |
| `BridgeTheorems.ExactlyOnceDelivery` | tools/jtag/yifpga_jtag_bridge.py:157-193 | for every interleaving, the blocks delivered of each session are a prefix of the bytes accepted in it; with the waiting bytes they are all of the current session; sessions are delivered in order |
| `BridgeTheorems.WorldIsMailboxRun` | tools/jtag/yifpga_jtag_bridge.py:157-193 | whatever the bridge and its clients do, the mailbox goes through the FPGA's writes and resets and the commits of the transactions, in their order, and nothing else |
| `BridgeTheorems.WritesAreAccepted` | tools/jtag/mailbox_model.py:145-154 | in every reachable state what a session accepted is a beginning of each of the FPGA's writes in it, in order, and all of them if and only if none was refused |
| `BridgeTheorems.EveryRunKeepsInvariants` | tools/jtag/yifpga_jtag_bridge.py:157-193 | delivery, session and client invariants hold in every reachable state |
| `BridgeTheorems.RaisingPumpIsInvisible` | tools/jtag/yifpga_jtag_bridge.py:172-173 | a pump whose transaction raises broadcasts nothing, changes no session and consumes nothing |
| `BridgeTheorems.ClientStreamsAreGapFree` | tools/jtag/yifpga_jtag_bridge.py:134-155 | every client has been sent a contiguous part of the broadcast log from where it joined; its queue holds exactly the rest while it is registered and never exceeds `queue_depth`; each DATA record belongs to the session last announced to that client |
| `BridgeTheorems.ClientsProgress` | tools/jtag/yifpga_jtag_bridge.py:141-151 | in every reachable state a turn of a registered client that is behind sends it the next record of the log; as many turns as records are missing, with no broadcast between, send it all of them and empty its queue; a client that was cut off is finished after one more turn |
| `BridgeTheorems.ClientCatchesUp` | tools/jtag/yifpga_jtag_bridge.py:141-151 | as many turns as records are missing bring a registered client up to date, in whatever way they are interleaved with turns of other clients and actions of the FPGA |
| `BridgeTheorems.FullQueueIsCutOff` | tools/jtag/yifpga_jtag_bridge.py:81-87 | a broadcast cuts off a registered client if and only if its queue is full |
| `BridgeTheorems.CutOffMeansTheEnd` | tools/jtag/yifpga_jtag_bridge.py:75-79 | a client that was cut off is never sent another record in any later run |
| `BridgeTheorems.LeavingMeansTheEnd` | tools/jtag/yifpga_jtag_bridge.py:141-151 | a client whose connection breaks, and every client when the bridge closes, ends at the latest with its next turn and is never sent another record in any later run |
| `BridgeTheorems.ClosedDeliversNothing` | tools/jtag/yifpga_jtag_bridge.py:65-69 | while the backend is closed no run delivers anything until a reconnect |
| `BridgeImplementation.Bridge.DisconnectQueue` | tools/jtag/yifpga_jtag_bridge.py:75-79 | the drained queue holds only the sentinel and is no longer registered |
| `BridgeImplementation.Bridge.OfferTo` | tools/jtag/yifpga_jtag_bridge.py:83-87 | a record is appended to a queue with room, a full queue is disconnected, no other client changes |
| `BridgeImplementation.Bridge.Broadcast` | tools/jtag/yifpga_jtag_bridge.py:81-87 | the loop over a snapshot of the queues offers the record to every registered client once and counts exactly the full ones as slow |
| `BridgeImplementation.Bridge.ReadTransaction` | tools/jtag/yifpga_jtag_bridge.py:157-170 | the three backend calls, with the FPGA in between, have the outcome and effect of the transaction in the state machine |
| `BridgeImplementation.Bridge.PumpOnce` | tools/jtag/yifpga_jtag_bridge.py:172-193 | one pump is one step of the state machine; the capture grows by exactly the bytes sent, the counters show the block and the drops of its header, and nothing is counted when it raises |
| `BridgeImplementation.Bridge.DeliverBlock` | tools/jtag/yifpga_jtag_bridge.py:183-193 | a block is captured, counted and broadcast once |
| `BridgeImplementation.Bridge.AnnounceSession` | tools/jtag/yifpga_jtag_bridge.py:174-177 | a change of session is broadcast before anything of the new session |
| `BridgeImplementation.Bridge.ReconnectOnce` | tools/jtag/yifpga_jtag_bridge.py:212-225 | the backend is open afterwards if and only if the identity is listed exactly once and the build id still matches |
| `BridgeImplementation.OccursOnceIff` | tools/jtag/yifpga_jtag_bridge.py:215-217 | the count of matches is one exactly when the identity is listed at one place and no other |
| `BridgeImplementation.Bridge.Close` | tools/jtag/yifpga_jtag_bridge.py:65-69 | closing disconnects every registered client and closes the backend |
| `BridgeImplementation.Bridge.JoinClient` | tools/jtag/yifpga_jtag_bridge.py:134-140 | a client joins with an empty queue and is greeted with the current session |
| `BridgeImplementation.Bridge.ServeClient` | tools/jtag/yifpga_jtag_bridge.py:141-151 | one turn of a client's loop writes the oldest queued record, or ends at the sentinel |
| `BridgeImplementation.Bridge.HangupClient` | tools/jtag/yifpga_jtag_bridge.py:147-150 | a broken connection deregisters the client |
| `BridgeImplementation.Bridge.PublishStatus` | tools/jtag/yifpga_jtag_bridge.py:227-230 | a status record is broadcast and leaves delivery alone; only clients with a full queue are counted |
| `FtdiBackend.FtdiMpsseBackend.ReadHeader` | tools/jtag/ftdi_backend.py:58-69 | a header is let through exactly when identity and expected read count match; otherwise nothing changes |
| `FtdiBackend.FtdiMpsseBackend.ReadBlock` | tools/jtag/ftdi_backend.py:71-84 | a block needs a header, no uncommitted predecessor and a length that is available |
| `FtdiBackend.FtdiMpsseBackend.Commit` | tools/jtag/ftdi_backend.py:86-92 | only the last block is accepted; the read count expected next is its start plus its length modulo 2^32 |
| `FtdiBackend.FtdiMpsseBackend.Open` | tools/jtag/ftdi_backend.py:36-51 | a foreign identity changes nothing, a failed open leaves the backend closed, a successful one holds the first header |
| `FtdiBackend.FtdiMpsseBackend.Close` | tools/jtag/ftdi_backend.py:94-100 | closing forgets header, block and expected read count |
| `FtdiTheorems.HeaderIsLetThroughIff` | tools/jtag/ftdi_backend.py:58-69 | a header is let through if and only if the backend is open, the scan is a valid header of the build, and its read count is the one expected, if one is; it is then remembered and nothing is expected; otherwise nothing changes |
| `FtdiTheorems.BlockIsTakenIff` | tools/jtag/ftdi_backend.py:71-84 | a block is taken if and only if the backend is open, none is pending, and a complete scan of a length the last header announced is returned; it carries the numbers of that header |
| `FtdiTheorems.CommittedOnce` | tools/jtag/ftdi_backend.py:86-100 | no block is committed twice, and a closed backend commits, reads and lets through nothing |
| `FtdiTheorems.NextHeaderChecksTheCommit` | tools/jtag/ftdi_backend.py:58-66 | after a commit the next header is let through if and only if it shows start plus length |
| `FtdiTheorems.MismatchKeepsFailing` | tools/jtag/ftdi_backend.py:58-69 | until the target shows the expected read count every attempt fails and changes nothing |
| `FtdiTheorems.OutOfStepRaises` | tools/jtag/ftdi_backend.py:62-66 | a backend out of step raises before any payload scan and touches nothing |
| `FtdiTheorems.PayloadScanIsReadAndCommit` | rtl/yifpga_debug/yifpga_jtag_user_dr.sv:95-101 | with no reset since the header, the consuming payload scan returns and consumes what read and commit of the mock do |
| `FtdiTheorems.FtdiTransactionIsMockTransaction` | tools/jtag/ftdi_backend.py:58-92 | with no reset between the scans, a transaction is the mock's with nothing between block and commit, then whatever the FPGA did later; the backend stays in step |
| `FtdiTheorems.FtdiPumpIsMockPump` | tools/jtag/yifpga_jtag_bridge.py:172-193 | one pump over this backend equals at most one pump over the mock followed by the later FPGA actions |
| `FtdiTheorems.FtdiRunIsMockRun` | tools/jtag/ftdi_backend.py:58-100 | every run over this backend is a run over the mock for some schedule of the same FPGA actions, so delivery and client theorems carry over |
| `FtdiTheorems.EarlyConsumptionMattersOnlyWhenFull` | tools/jtag/ftdi_backend.py:89-91 | consuming at the payload scan and at the commit leave the same queue if and only if no byte was refused in between |
| `FtdiTheorems.ResetInsideTransactionMislabels` | tools/jtag/ftdi_backend.py:71-84 | a reset between header and payload scan is not noticed: the block of the new session carries the old identifier |
| `FtdiTheorems.FtdiAlwaysDelivers` | rtl/yifpga_debug/yifpga_jtag_user_dr.sv:56-103 | in step, with bytes announced, the transaction delivers whatever happened since the header: the bytes waiting at the payload scan, then zeros up to the length, under the numbers of the header; the bytes taken are consumed |
| `FtdiTheorems.OutcomeIsMockOutcomeIff` | tools/jtag/ftdi_backend.py:71-84 | for any number of resets between header and payload scan the outcome is the mock's if and only if the target still shows the numbers of the header and has the announced bytes; with fewer than 2^32 - 1 resets, if and only if there was none |
| `FtdiTheorems.NextHeaderRefusedIff` | tools/jtag/ftdi_backend.py:58-66 | after a reset between the scans the next header is refused if and only if the bytes taken from the new session do not add up to the expected read count |
| `FtdiTheorems.MockNoticesTheReset` | tools/jtag/jtag_backend.py:91-100 | over the mock the same reset makes the transaction raise |
| `MpsseScan.ScanIsPlain` | tools/jtag/ftdi_mpsse.py:118-136 | executing the commands of a scan from Run-Test/Idle passes Capture-DR once, shifts exactly the first `total` bits least significant first, passes Update-DR once and ends in Run-Test/Idle; what is read back holds the answers |
| `MpsseScan.ShiftRuns` | tools/jtag/ftdi_mpsse.py:122-130 | the byte pieces shift all their bits in order and return the sampled bits packed, wherever the cuts fall |
| `MpsseScanner.ScanPieces` | tools/jtag/ftdi_mpsse.py:118-136 | the loop emits exactly the commands whose meaning is the scan |
| `MpsseScanner.Compile` | tools/jtag/ftdi_mpsse.py:140-145 | the commands of all scans, or an error exactly when some bit count is impossible |
| `MpsseBatch.CollectedIsOwn` | tools/jtag/ftdi_mpsse.py:158-163 | what is collected for scan k are the samples of its own commands only |
| `MpsseBatch.ScansArePlain` | tools/jtag/ftdi_mpsse.py:138-145 | the commands of a list of scans mean the scans one after the other |
| `MpsseBatch.CollectedIsRaw` | tools/jtag/ftdi_mpsse.py:158-163 | what is collected for a scan answers the shifts of that scan, after the target saw the earlier ones |
| `MpsseScanner.Distribute` | tools/jtag/ftdi_mpsse.py:159-163 | each scan gets exactly its own bytes of an exchange |
| `MpsseScanner.Repack` | tools/jtag/ftdi_mpsse.py:174-185 | the result is the TDO bits packed least significant first, whatever the unused sample bits hold |
| `Mpsse.PacketsDoNotMatter` | tools/jtag/ftdi_mpsse.py:83-94 | the chip does the same however the commands are cut into USB packets |
| `MpsseScanner.FtdiMpsseJtag.Write` | tools/jtag/ftdi_mpsse.py:83-94 | the packet loop delivers every byte once and in order, however much the device takes at a time; a device that stops taking bytes has got exactly the bytes before that, and the write fails |
| `MpsseScanner.FtdiMpsseJtag.Flush` | tools/jtag/ftdi_mpsse.py:150-165 | one exchange runs the batch on the target and appends to each scan the samples of its commands |
| `MpsseScanner.FtdiMpsseJtag.SendAll` | tools/jtag/ftdi_mpsse.py:167-172 | all pieces are sent once, in order, in exchanges that read at most 256 bytes; without the flush bytes the stream is the concatenation of the pieces |
| `MpsseScanner.FtdiMpsseJtag.ScanMany` | tools/jtag/ftdi_mpsse.py:138-186 | batching is transparent: the target sees the plain scans, each result is the TDO bits of its own scan; an impossible bit count sends nothing |
| `MpsseScanner.FtdiMpsseJtag.ScanDr` | tools/jtag/ftdi_mpsse.py:201-203 | one scan of the given number of bits, or of the whole byte string; an impossible bit count sends nothing |
| `MpsseScanner.FtdiMpsseJtag.UserCommand` | tools/jtag/ftdi_mpsse.py:205-210 | the target sees the 32 request bits, magic, opcode and length in this order, and their update before the capture of the answer, of which 8 bits for each byte are shifted and returned; impossible arguments send nothing |
| `MpsseScanner.CommandBits` | tools/jtag/ftdi_mpsse.py:206 | the four bytes of a request, sent least significant bit first, are the bits of the magic byte, the opcode and the 16-bit length |
| `UserDr.YifpgaJtagUserDr.Clock` | rtl/yifpga_debug/yifpga_jtag_user_dr.sv:81-124 | one edge of the command engine's registers is one step of its specification, with the commit and abort pulses |
| `UserDr.RequestFields` | rtl/yifpga_debug/yifpga_jtag_user_dr.sv:108-111 | of those 32 bits the target reads the magic in bits 0-7, the opcode in 8-15 and the length in 16-31 |
| `UserDr.RequestIsTaken` | rtl/yifpga_debug/yifpga_jtag_user_dr.sv:95-122 | whatever was shifted before, a request scan is taken if and only if it asks for a header of 40 bytes or a block of 1 to 1024, and then with exactly that opcode and length; it commits and aborts nothing |
| `UserDr.AnswerIsTaken` | rtl/yifpga_debug/yifpga_jtag_user_dr.sv:95-104 | the scan after a request commits a block if and only if exactly its bits were shifted, and aborts it otherwise |
| `UserDr.UserCommandIsServed` | rtl/yifpga_debug/yifpga_jtag_user_dr.sv:84-123 | after any log, the two scans of a user command commit exactly the block asked for, once, abort nothing, and leave the engine ready for the next request; a request that is not served has no effect |
| `MpsseScanner.FtdiMpsseJtag.TapReset` | tools/jtag/ftdi_mpsse.py:188-190 | from any of the sixteen states the target passes Test-Logic-Reset and rests in Run-Test/Idle |
| `MpsseScanner.FtdiMpsseJtag.SelectUser2` | tools/jtag/ftdi_mpsse.py:192-199 | exactly the six bits of USER2 pass through the instruction register |
| `MpsseScanner.FtdiMpsseJtag.constructor` | tools/jtag/ftdi_mpsse.py:73-74 | a scanner starts with the target in Run-Test/Idle, whatever state it was in; the last that happened to the target is a reset and then the selection of USER2 |
| `MpsseSetup.ResetReachesIdle` | tools/jtag/ftdi_mpsse.py:188-190 | five clocks with TMS high and one low reach Run-Test/Idle from every state |
| `MpsseSetup.SelectShiftsUser2` | tools/jtag/ftdi_mpsse.py:192-199 | the four commands capture, shift USER2 and update the instruction register once |
| `BitStrings.PackOfUnpack` | tools/jtag/ftdi_mpsse.py:178-184 | packing bits into bytes undoes unpacking |
| `BitStrings.OrAppends` | tools/jtag/ftdi_mpsse.py:184 | or-ing in the shifted last bit puts it on top of the others |
| `DebugCoreTheorems.EveryByteIsConserved` | rtl/yifpga_debug/yifpga_debug_packetizer.v:62-96 | for every input and readiness trace the bytes transferred, the rest of the current frame and the frames of the queue are the frames of the accepted messages in acceptance order |
| `DebugCoreTheorems.DecoderReceivesAcceptedMessages` | rtl/yifpga_debug/yifpga_debug_packetizer.v:32-96 | feeding the transferred bytes, in any chunks, to the host decoder yields exactly the first accepted messages, as many as are complete, and no error |
| `DebugCoreTheorems.PulseMessagesAreKnown` | rtl/yifpga_debug/yifpga_debug_core.v:163-198 | the message built for a pulse has a type the host decoder lists and fits a frame |
| `DebugCoreTheorems.DecoderReceivesKnownSources` | rtl/yifpga_debug/yifpga_debug_core.v:118-311 | if only the four sources with messages of their own keep to listed types and sizes, the host decodes all that was accepted, pulses included |
| `DebugCoreTheorems.HandshakesAreExact` | rtl/yifpga_debug/yifpga_debug_core.v:138-147 | each handshaked source sees valid and ready together if and only if its message is the one enqueued |
| `DebugCoreTheorems.StreamsLeaveHeadroom` | rtl/yifpga_debug/yifpga_debug_core.v:139-142 | an enqueued message of trace, Logic Analyzer or profiler leaves at least two entries free |
| `DebugCoreTheorems.HeadroomAdmitsPulses` | rtl/yifpga_debug/yifpga_debug_core.v:158-198 | while two entries are free, a monitor response or a pulse is enqueued at once |
| `DebugCoreTheorems.CountersAreExact` | rtl/yifpga_debug/yifpga_debug_core.v:301-311 | over every run the packets are the cycles that enqueue a message, and the drops are the event, watch, print, heartbeat and status pulses, each counted from its own input, less those of each enqueued, plus the trace drops |
| `DebugCoreTheorems.StepCounts` | rtl/yifpga_debug/yifpga_debug_core.v:130-150 | in one cycle the core drops as many messages as there are pulses among those five sources that are not the one enqueued; a pulse source is enqueued only when it has a pulse |
| `DebugCoreTheorems.PulsesAreEnqueuedOrLost` | rtl/yifpga_debug/yifpga_debug_core.v:130-150 | for each of the five sources, the pulses a run loses are exactly those of the cycles that enqueue no message of that source |
| `DebugCoreTheorems.QueueDrains` | rtl/yifpga_debug/yifpga_debug_packetizer.v:62-96 | with a ready receiver and silent sources the remaining work shrinks by one every cycle until nothing is left |
| `DebugCoreTheorems.DrainedMeansSent` | rtl/yifpga_debug/yifpga_debug_packetizer.v:62-96 | after that many cycles exactly the frames of all accepted messages have been transferred |
| `DebugCoreTheorems.OversizedHeadBlocks` | rtl/yifpga_debug/yifpga_debug_packetizer.v:32 | a message longer than 32 bytes at the head of the queue is never taken, and nothing is transferred any more |
| `DebugCoreTheorems.OversizedMessageStopsTheCore` | rtl/yifpga_debug/yifpga_debug_core.v:158-162 | one oversized message of the Monitor in the first cycle after reset, and no byte is transferred in any later run |
| `DebugCoreTheorems.QueueEmptiesIff` | rtl/yifpga_debug/yifpga_debug_packetizer.v:32-96 | given enough quiet cycles everything leaves queue and packetizer if and only if no queued message is longer than 32 bytes |
| `DebugCoreTheorems.BeginningIsDecoded` | tools/viewer/validate_uart_board.py:40-76 | any beginning of the frames of known messages, in any chunks, decodes to the complete ones |
| `DebugCoreRtl.RingBuffer.Clock` | rtl/yifpga_debug/yifpga_debug_ring_buffer.v:37-70 | one edge reads the oldest and writes the newest message, also both at once when the ring is full |
| `DebugCoreRtl.WriteWhileReading` | rtl/yifpga_debug/yifpga_debug_ring_buffer.v:39-62 | a write into a full ring that is read takes the place of the entry read and becomes the last |
| `DebugCoreRtl.PacketizerRtl.Clock` | rtl/yifpga_debug/yifpga_debug_packetizer.v:62-96 | one edge moves the packetizer's remaining bytes as the specification says, for any readiness |
| `DebugCoreRtl.PacketizerRtl.FrameByte` | rtl/yifpga_debug/yifpga_debug_packetizer.v:43-60 | the byte at each index is that of the encoded frame |
| `DebugCoreRtl.PacketizerRtl.ChecksumValue` | rtl/yifpga_debug/yifpga_debug_packetizer.v:34-41 | the combinational loop computes the checksum the host computes |
| `DebugCoreRtl.YifpgaDebugCore.Clock` | rtl/yifpga_debug/yifpga_debug_core.v:118-311 | one edge of arbiter, queue, packetizer and 16-bit counters is one step of the specification with unbounded counts |
| `DebugCoreRtl.YifpgaDebugCore.Combine` | rtl/yifpga_debug/yifpga_debug_core.v:130-215 | the ready outputs of queue, Monitor, trace, Logic Analyzer and profiler and the selected message are those of the specification |
| `DebugCoreRtl.YifpgaDebugCore.Count` | rtl/yifpga_debug/yifpga_debug_core.v:301-311 | the 16-bit counters stay the remainders of packets and drops |
| `DebugCoreRtl.YifpgaDebugCore.Reset` | rtl/yifpga_debug/yifpga_debug_core.v:302-304 | reset empties queue, packetizer and counters |
| `CoreMessages.PulsesAreShownAsGiven` | rtl/yifpga_debug/yifpga_debug_core.v:163-198 | the message built for a pulse is shown by the viewer with exactly the timestamp, identifier and arguments of that pulse, or the counters of that cycle |
| `CoreMessages.StatusShowsTheCounters` | rtl/yifpga_debug/yifpga_debug_core.v:191-198 | a status message shows the occupancy of the queue and the drops and packets of the run so far modulo 2^16 |
| `CoreMessages.FirstInOrderWins` | rtl/yifpga_debug/yifpga_debug_core.v:152-214 | the arbiter selects the first source in the fixed order of priority that wants a place, and none only if none does |
| `CoreMessages.IsAdmittedIff` | rtl/yifpga_debug/yifpga_debug_core.v:130-215 | a source gets its message into the queue if and only if it has one, no source of higher priority has, and the queue has a place for it: two more than it needs for a stream, and otherwise one, or one freed in the same cycle |
| `DebugProtocol.MakeFrame` | tools/viewer/validate_uart_board.py:112-117 | the accumulating loop builds the frame with its checksum |
| `Bytes.XorFoldNoticesOneByte` | tools/viewer/validate_uart_board.py:114-116 | the checksum changes with every change of a single byte |
| `Bytes.ReadsLeastSignificantFirst` | tools/viewer/validate_uart_board.py:104-109 | the readers of 16 and 32 bit fields weigh the bytes by 1, 256, 65536 and 16777216 |
| `UartDecoder.Decoder.Feed` | tools/viewer/validate_uart_board.py:40-76 | after each feed frames, counters and leftover are those of one scan of leftover plus data |
| `UartDecoderTheorems.ChunkingDoesNotMatter` | tools/viewer/validate_uart_board.py:40-76 | any chunking of a stream leaves the decoder in the state one scan of the whole stream does |
| `UartDecoderTheorems.EventsSpellTheirBytes` | tools/viewer/validate_uart_board.py:40-76 | re-encoding what was decided about a byte or a frame gives back the bytes consumed |
| `UartDecoderTheorems.EveryByteIsAccountedFor` | tools/viewer/validate_uart_board.py:40-76 | bytes fed are those buffered, dropped, counted as checksum errors or belonging to frames; at most 36 stay buffered; version errors never occur |
| `UartDecoderTheorems.CleanStreamIsDecoded` | tools/viewer/validate_uart_board.py:40-76 | any beginning of a stream of frames yields the complete ones and no error |
| `UartDecoderTheorems.GarbageCostsOnlyItself` | tools/viewer/validate_uart_board.py:43-70 | foreign bytes in front of a stream are skipped one by one if and only if no position in them starts a valid or incomplete candidate |
| `UartDecoderTheorems.FramesAfterGarbageAreRecovered` | tools/viewer/validate_uart_board.py:43-76 | in that case every later frame is received and the foreign bytes are counted once each |
| `UartDecoderTheorems.DamagedFrameIsRejected` | tools/viewer/validate_uart_board.py:57-70 | a frame with one damaged payload byte is rejected whatever follows, at the cost of one byte |
| `UartDecoderTheorems.WrongChecksumIsRejected` | tools/viewer/validate_uart_board.py:57-70 | a frame with any checksum byte but its own is rejected at the cost of one byte |
| `UartDecoderTheorems.LockingIsConsistent` | tools/viewer/validate_uart_board.py:61-76 | however it is fed, the decoder is locked once it has received a frame, counts checksum errors only then, and keeps the first four damaged candidates |
| `UartDecoderTheorems.FirstDamagedAreKept` | tools/viewer/validate_uart_board.py:63-66 | the checksum errors are the damaged candidates met once locked, and the first four of them are kept, in order |
| `CommandParserTheorems.EventsSpellTheirBytes` | rtl/yifpga_debug/yifpga_debug_command_parser.v:77-143 | a request is raised only by the bytes of a checksum-valid read or write frame with exactly its fields and width 1, 2 or 4; every event spells the bytes it took |
| `CommandParserTheorems.RequestsAreRecognised` | rtl/yifpga_debug/yifpga_debug_command_parser.v:77-143 | each request frame raises its request with its last byte and not before |
| `CommandParserTheorems.FramesAreJudged` | rtl/yifpga_debug/yifpga_debug_command_parser.v:123-140 | a complete frame raises a request if and only if its checksum, type, length and width are right; otherwise the first of these that is wrong decides the error |
| `CommandParserTheorems.LongFrameIsRefused` | rtl/yifpga_debug/yifpga_debug_command_parser.v:106-108 | a frame that announces more than 32 bytes is refused with its fourth byte |
| `CommandParserTheorems.DamagedFrameIsRefused` | rtl/yifpga_debug/yifpga_debug_command_parser.v:115-126 | a frame with one damaged payload byte raises a checksum error and no request |
| `CommandParserTheorems.WrongChecksumIsRefused` | rtl/yifpga_debug/yifpga_debug_command_parser.v:125-126 | a frame with any checksum byte but its own raises a checksum error and no request |
| `CommandParserTheorems.EveryRunIsConsistent` | rtl/yifpga_debug/yifpga_debug_command_parser.v:69-145 | in every run the requests delivered and the one on offer are those in the consumed bytes, in order and of legal width; while one is on offer the consumed bytes end with its frame |
| `CommandParserTheorems.ErrorsAreReported` | rtl/yifpga_debug/yifpga_debug_command_parser.v:69-143 | over every run the error pulses are those of the refused frames in the consumed bytes, each once, in order |
| `CommandParserTheorems.HeldRequestIsStable` | rtl/yifpga_debug/yifpga_debug_command_parser.v:44-75 | a request keeps its fields until it is taken, and until then no byte is consumed |
| `CommandParserTheorems.BytesAreConsumedOrLost` | rtl/yifpga_debug/yifpga_debug_command_parser.v:77 | every arriving byte is consumed or lost, and none is lost if and only if the consumed bytes are those that arrived |
| `CommandParserTheorems.HostRequestsArrive` | rtl/yifpga_debug/yifpga_debug_command_parser.v:77-143 | if no byte arrives while a request waits, a stream of encoded requests yields exactly those requests |
| `CommandParserTheorems.HostFramesAreRequestFrames` | tools/viewer/validate_uart_board.py:120-126 | the host's read and write encoders produce such frames |
| `CommandParserTheorems.FieldsReadBack` | tools/viewer/validate_uart_board.py:120-126 | sequence, address, width, value and mask are read back from the positions they were written to |
| `CommandParserRtl.YifpgaDebugCommandParser.Clock` | rtl/yifpga_debug/yifpga_debug_command_parser.v:50-145 | one edge of the parser's registers is one step of the specification, error pulses included |
| `CommandParserRtl.RegistersFollowScan` | rtl/yifpga_debug/yifpga_debug_command_parser.v:77-143 | the registers always hold the bytes of the unfinished candidate, and each byte's effect is that of scanning them |
| `BridgeProtocol.DecodeRecords` | tools/jtag/bridge_protocol.py:55-67 | all complete records and the remaining bytes, or an error when a header announces too much |
| `BridgeProtocol.RecordsOf` | tools/jtag/bridge_protocol.py:55-67 | the records from offset 0 are those of an incremental scan |
| `BridgeProtocol.RecordsSurviveChunking` | tools/jtag/bridge_protocol.py:55-67 | for any chunking of framed records, folding the decoder over pending bytes and chunks returns exactly those records, and what is pending is a strict beginning of the next |
| `BridgeProtocol.RecordRoundTrip` | tools/jtag/bridge_protocol.py:30-67 | a completely received stream of framed records, in any chunks, decodes to exactly these records and leaves nothing |
| `BridgeProtocol.OversizedIsRefused` | tools/jtag/bridge_protocol.py:30-61 | the decoder stops at a header exactly when it announces more than 16 MiB, and exactly such payloads cannot be framed |
| `BridgeProtocol.RecordReceiver.ConsumeBridgeBytes` | tools/viewer/web/app.js:2338-2354 | the viewer dispatches exactly the complete records and keeps the bytes after them; before an oversized header it throws and keeps everything |
| `ViewerParser.FrameParser.Receive` | tools/viewer/web/app.js:444-497 | after each chunk counters, the frames handed on and leftover are those of one scan of leftover plus chunk |
| `ViewerParser.ChunksAreScanned` | tools/viewer/web/app.js:444-475 | any chunking gives the events of one scan, and re-encoding them gives back every byte not buffered |
| `ViewerParser.CleanStreamIsDecoded` | tools/viewer/web/app.js:444-475 | a stream of frames, in any chunks, is decoded to exactly these frames |
| `ViewerParser.FramesArePassedOn` | tools/viewer/web/app.js:444-497 | for any chunks of a stream of frames the viewer hands on exactly the frames of listed types, in the order of the stream, counts the others as unknown, and counts no error |
| `ViewerParser.EveryByteIsAccountedFor` | tools/viewer/web/app.js:444-497 | for arbitrary bytes, those fed are those buffered, skipped, or belonging to mismatched or decoded frames; every decoded frame is handed on or counted as unknown; at most 36 bytes stay buffered |
| `ViewerParser.DamagedFrameIsGivenUp` | tools/viewer/web/app.js:464-470 | a frame with one damaged payload byte is counted as a checksum error and not decoded |
| `ViewerParser.WrongChecksumIsGivenUp` | tools/viewer/web/app.js:464-470 | a frame with any checksum byte but its own is counted as a checksum error and not decoded |
| `ViewerParser.GarbageCostsOnlyItselfIff` | tools/viewer/web/app.js:444-475 | foreign bytes in front of a stream are spelled by the first events, and the other events are those of the stream alone, if and only if the candidates taken from the head end where the stream begins |
| `ViewerParser.FramesAfterGarbageAreDecoded` | tools/viewer/web/app.js:444-475 | in that case every later frame is decoded, after the events that spell the foreign bytes |
| `ViewerParser.FrameInsideDamagedCandidateIsLost` | tools/viewer/web/app.js:466-471 | a valid frame anywhere inside a candidate with a wrong checksum is not among the events, unless it is sent again; the frames after the candidate are decoded |
| `ViewerParser.TheOtherDecoderReceivesIt` | tools/viewer/validate_uart_board.py:61-70 | on the same bytes the board validator's decoder receives the frame inside the damaged candidate |
| `LogicAnalyzerState.LogicAnalyzerView.DecodeHeader` | tools/viewer/web/app.js:819-853 | a header empties the samples, clears `complete` and keeps the chunk memory of its capture |
| `LogicAnalyzerState.LogicAnalyzerView.DecodeSampleData` | tools/viewer/web/app.js:855-944 | a sample frame has the effect of its chunk on captures and counters, or counts as malformed |
| `LogicAnalyzerState.LogicAnalyzerView.AddChunk` | tools/viewer/web/app.js:870-931 | a new chunk fills free samples, keeps filled ones, counts overlaps and decides `complete` |
| `LogicAnalyzerState.LogicAnalyzerView.NoteGap` | tools/viewer/web/app.js:884-897 | late chunks and skipped ranges are judged by the highest index so far |
| `LogicAnalyzerState.PutSamples` | tools/viewer/web/app.js:899-918 | the nested loops read the little-endian values and put them at consecutive indices |
| `LogicAnalyzerTheorems.EveryRunBalances` | tools/viewer/web/app.js:876-897 | for every sequence of frames, missing less out-of-order chunks is the number of indices still missing below the highest one, counted one by one and summed over all captures |
| `LogicAnalyzerTheorems.EveryRunKeepsRangesExact` | tools/viewer/web/app.js:888-896 | missing ranges are disjoint and increasing and hold exactly the indices not received in order |
| `LogicAnalyzerTheorems.CapturesAreIndependent` | tools/viewer/web/app.js:777-793 | frames of one capture never affect another |
| `LogicAnalyzerTheorems.SampleDataRoundTrip` | tools/viewer/web/app.js:2664-2680 | the decoder reads back the sample data the encoder wrote |
| `LogicAnalyzerTheorems.HeaderRoundTrip` | tools/viewer/web/app.js:2650-2662 | the decoder reads back the header the encoder wrote |
| `LogicAnalyzerTheorems.EncodedCaptureIsRestored` | tools/viewer/web/app.js:2650-2680 | the encoded header followed by the encoded chunks of a capture, in any order, restores the samples and sets `complete` |
| `LogicAnalyzerTheorems.EncodedChunkArrives` | tools/viewer/web/app.js:2664-2680 | an encoded chunk reaches its capture unchanged and no other |
| `LogicAnalyzerTheorems.PartsAreAssembled` | tools/viewer/web/app.js:899-931 | for any order of chunks with disjoint ranges a sample is original where a chunk with an unused index supplied it and missing elsewhere; `complete` holds if and only if all are supplied |
| `LogicAnalyzerTheorems.CaptureIsRestored` | tools/viewer/web/app.js:819-931 | after the first header any arrival order of chunks that cover the capture restores the samples and completes it |
| `LogicAnalyzerTheorems.RepeatedHeaderLosesCapture` | tools/viewer/web/app.js:837-881 | after a repeated header the same chunks, sent again, are all refused and the capture stays empty and incomplete |
| `LogicAnalyzerTheorems.FilledSamplesStay` | tools/viewer/web/app.js:912-931 | until another header a filled sample keeps its value and `complete` implies that none is missing |
| `LogicAnalyzerTheorems.FillIsPointwise` | tools/viewer/web/app.js:899-918 | a chunk that overlaps others in any way keeps the samples that are there, fills every free one of its range with its own value, leaves the rest, and counts exactly those that were there |
| `LogicAnalyzerTheorems.EveryFrameIsCounted` | tools/viewer/web/app.js:819-944 | every frame is counted as header, chunk, malformed or duplicate, and the drops are the duplicates and the samples that were there before, each counted from the frames |
| `LogicAnalyzerReports.EveryDropIsListed` | tools/viewer/web/app.js:876-918 | for every sequence of frames the drop counter is the number of overlaps listed in all captures together |
| `LogicAnalyzerReports.MissingHeadersAreListed` | tools/viewer/web/app.js:873-875 | a capture lists one missing header for each chunk that came before its first header, however many follow |
| `LogicAnalyzerReports.CapturesAreInOrder` | tools/viewer/web/app.js:777-793 | the captures are those of the well-formed frames, each once, in the order of their first frame |
| `LogicAnalyzerReports.LatestIsShown` | tools/viewer/web/app.js:842-935 | the latest capture is that of the last frame that was a header or a new chunk |
| `Snapshot.UnwrapTimestamps` | tools/viewer/web/diagnostic_snapshot.js:85-95 | the map with its mutable state computes the unwrapped ticks record by record |
| `Snapshot.StampsKeepTheirRaws` | tools/viewer/web/diagnostic_snapshot.js:85-95 | every record keeps its raw timestamp, its tick is that plus its wraps times the modulus, and wraps never decrease |
| `Snapshot.UnwrappingIsExact` | tools/viewer/web/diagnostic_snapshot.js:85-95 | ticks are the true ones up to one constant multiple of the modulus if and only if every step goes back by at most half the modulus within a lap or into the next lap by less than half |
| `Snapshot.SlowRecordsAreFollowed` | tools/viewer/web/diagnostic_snapshot.js:91 | records in time order that advance by less than half the modulus meet that condition |
| `Snapshot.RowsOutOfOrderMislead` | tools/viewer/web/diagnostic_snapshot.js:113-152 | rows of several sources are not in time order: a step back of more than half the modulus is taken for a wrap |
| `Snapshot.CollectRuns` | tools/viewer/web/diagnostic_snapshot.js:137-143 | the runs emitted are maximal, disjoint and increasing, hold exactly the non-null samples, and are edges exactly when of length one |
| `Snapshot.RunsAreUnique` | tools/viewer/web/diagnostic_snapshot.js:137-143 | there is only one such list of runs |
| `EndToEnd.MessagesSurviveTheBridge` | tools/jtag/yifpga_jtag_bridge.py:157-193 | if the FPGA's writes of a session are, one after the other, a beginning of the bytes the core transferred, and none was refused, what is delivered of it decodes to the first accepted messages, each once, without error |
| `EndToEnd.ClientReceivesAContiguousPart` | tools/jtag/yifpga_jtag_bridge.py:134-155 | for every session the bytes a client was sent are a contiguous part of those delivered, beginning where it joined; for a client that joined first, their beginning |
| `EndToEnd.FtdiDeliversExactlyOnce` | tools/jtag/ftdi_backend.py:58-100 | exactly-once delivery and gap-free clients hold over the FT232H backend while no reset falls between a header and its payload scan |
| `StreamScan.ChunkingIsIrrelevant` | tools/jtag/bridge_protocol.py:55-67 | a parser that keeps its unconsumed bytes gives the same events and leftover for every chunking |
| `StreamScan.TruncatedStream` | tools/viewer/validate_uart_board.py:40-76 | of a truncated stream of encoded events exactly the complete ones are recognised and the beginning of the next is kept |
| `StreamScan.CostsOnlyItselfIff` | tools/viewer/web/app.js:444-475 | for every such parser, bytes in front of a stream cost only themselves if and only if the events taken from their head end where the stream begins |

## Left out

- Sockets, asyncio servers, the WebSocket handshake, serial ports, libftdi and the Vivado worker: the bytes they carry are parameters; above `Write` and `Read` a USB transfer that fails is not modelled, and the scanner reads what the chip has ready.
- Waiting times, back-off, read timeouts and the status interval: pump, status, join and reconnect are steps that can happen at any time.
- Cancellation of a running pump and errors while writing the capture file.
- JSON, SHA-256 and base64: HELLO, STATUS and SESSION records are values, frame payloads are opaque bytes.
- UART, Monitor core, trace, profiler and Logic Analyzer adapters of the FPGA: they are inputs of the core, and their messages may be of any type and length except where a theorem says otherwise.
- The signals `busy`, `uart_tx` and `debug_state` of the hardware modules, and the configuration bytes written to the FT232H when it is opened.
- `_tms` with reading, which nothing calls.
- Status and trigger frames of the Logic Analyzer: they touch neither chunks nor samples.
- The dispatch of decoded frames to the viewer's tables, except for reading the core's five message types; rendering and exports.
- The JTAG mailbox in hardware: its reference model is modelled, and of its data register the command engine. Its answers are an arbitrary function of what the target has noticed, and above `UserCommand` a payload scan is one step that returns and consumes bytes.
- AI Debug provider, redaction, board validators, benchmark scripts and the near-copies of the frame parser in other scripts.
- MpsseScanner.FtdiMpsseJtag.Read: a short read fails at once, because waiting for the device is not modelled.
- LogicAnalyzerState.LogicAnalyzerView: a JavaScript Map is modelled as a list of entries in order of insertion.
