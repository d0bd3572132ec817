/** Properties of the mailbox over runs of any length, with all counters modulo 2^32. */
module MailboxTheorems {
  import opened Bytes
  import opened Wrappers
  import opened Mailbox
  import opened MailboxHeader

  // ---------------------------------------------------------- session identifiers

  lemma {:induction false} SessionIdRange(epoch: nat)
    ensures 1 <= SessionId(epoch) <= SESSIONS
    ensures epoch < SESSIONS ==> SessionId(epoch) == epoch + 1
  {
    if SESSIONS <= epoch {
      SessionIdRange(epoch - SESSIONS);
    }
  }

  /** A multiple of the number of session identifiers. */
  predicate WholeRounds(n: nat) {
    if n < SESSIONS then n == 0 else WholeRounds(n - SESSIONS)
  }

  /** Two resets apart by `n` show the same identifier exactly when `n` goes round completely. */
  lemma {:induction false} SessionIdRepeats(epoch: nat, n: nat)
    ensures SessionId(epoch + n) == SessionId(epoch) <==> WholeRounds(n)
    decreases epoch + n
  {
    if SESSIONS <= epoch {
      SessionIdRepeats(epoch - SESSIONS, n);
    } else if SESSIONS <= n {
      SessionIdRepeats(epoch, n - SESSIONS);
    } else if SESSIONS <= epoch + n {
      SessionIdRange(epoch + n - SESSIONS);
    }
  }

  lemma {:induction false} NextSession(epoch: nat)
    ensures SessionId(epoch + 1) == if SessionId(epoch) == SESSIONS then 1 else SessionId(epoch) + 1
  {
    if SESSIONS <= epoch {
      NextSession(epoch - SESSIONS);
    }
  }

  // ---------------------------------------------------------------- observations

  /** Every header a mailbox can publish passes validation, and the host reads back the same header. */
  lemma PublishedHeaderIsValid(f: Fifo, buildId: u32)
    requires Mailbox.Ok(f)
    ensures Validate(HeaderOf(f, buildId)) == None
    ensures Unpack(Pack(HeaderOf(f, buildId))) == Result.Ok(HeaderOf(f, buildId))
  {
    Low32Distinct(f.consumed, |f.accepted|);
    HeaderRoundTrip(HeaderOf(f, buildId), []);
  }

  // ------------------------------------------------------------------------- runs

  /** What every run keeps: finished sessions are history, and within a session bytes are only
      appended and only consumed from the front. */
  lemma {:induction false} RunKeepsHistory(f: Fifo, actions: seq<Action>)
    requires Mailbox.Ok(f)
    ensures var g := Run(f, actions);
            && g.capacity == f.capacity
            && Epoch(g) == Epoch(f) + Resets(actions)
            && f.past <= g.past
            && f.accepted <= AcceptedIn(g, Epoch(f))
            && (Resets(actions) == 0 ==> f.consumed <= g.consumed)
    decreases |actions|
  {
    if actions != [] {
      var h := Step(f, actions[0]);
      RunKeepsHistory(h, actions[1..]);
      if actions[0].Resetting? {
        assert h.past[Epoch(f)] == f.accepted;
      }
    }
  }

  lemma {:induction false} OfferedTotal(f: Fifo, actions: seq<Action>)
    requires Mailbox.Ok(f)
    ensures var g := Run(f, actions);
            |g.accepted| + g.dropped == OfferedSince(|f.accepted| + f.dropped, actions)
    decreases |actions|
  {
    if actions != [] {
      OfferedTotal(Step(f, actions[0]), actions[1..]);
    }
  }

  /** Bytes offered since the last reset are the bytes accepted and the bytes dropped, exactly and as
      the 32-bit counters show them. */
  lemma OfferedIsAcceptedPlusDropped(f: Fifo, actions: seq<Action>)
    requires Mailbox.Ok(f)
    ensures var g := Run(f, actions);
            var offered := OfferedSince(|f.accepted| + f.dropped, actions);
            && |g.accepted| + g.dropped == offered
            && Low32(WriteCount(g) + Low32(g.dropped)) == Low32(offered)
  {
    OfferedTotal(f, actions);
    var g := Run(f, actions);
    Low32Add(g.dropped, Low32(|g.accepted|));
    Low32Add(|g.accepted|, g.dropped);
  }

  // ------------------------------------------------------------- which bytes are stored

  /** A write appends a beginning of its data, in order, and refuses bytes only when the buffer is then full. */
  lemma WriteAppendsABeginning(f: Fifo, data: seq<byte>)
    requires Mailbox.Ok(f)
    ensures var g := Write(f, data);
            var k := |g.accepted| - |f.accepted|;
            && 0 <= k <= |data|
            && g.accepted == f.accepted + data[..k]
            && (k < |data| ==> Available(g) == g.capacity)
            && g.dropped == f.dropped + |data| - k
            && g.consumed == f.consumed && g.past == f.past
  {
    var k := Min(|data|, Room(f));
    assert f.accepted + data[..k] == Write(f, data).accepted;
  }

  /** What session `e` holds before the run that starts in `f`. */
  function HeldBefore(f: Fifo, e: nat): seq<byte> {
    if e == Epoch(f) then f.accepted else []
  }

  /** Each part is a beginning of the write at its place. */
  predicate AreBeginnings(parts: seq<seq<byte>>, writes: seq<seq<byte>>) {
    |parts| == |writes| && forall i | 0 <= i < |parts| :: parts[i] <= writes[i]
  }

  /** A session that is already finished stays as it is and is offered nothing more. */
  lemma {:induction false} NothingOfThePast(f: Fifo, actions: seq<Action>, e: nat)
    requires Mailbox.Ok(f) && e < Epoch(f)
    ensures WritesIn(Epoch(f), actions, e) == []
    ensures RefusedIn(f, actions, e) == 0
    ensures AcceptedIn(Run(f, actions), e) == f.past[e]
    decreases |actions|
  {
    if actions != [] {
      NothingOfThePast(Step(f, actions[0]), actions[1..], e);
    }
  }

  /** What one action adds to session `e`: a write of that session, and the bytes it accepts of it. */
  function Offers(f: Fifo, a: Action, e: nat): seq<seq<byte>> {
    if a.Writing? && Epoch(f) == e then [a.data] else []
  }

  lemma SessionStep(f: Fifo, actions: seq<Action>, e: nat)
    requires Mailbox.Ok(f) && actions != []
    ensures var g := Step(f, actions[0]);
            && Run(f, actions) == Run(g, actions[1..])
            && WritesIn(Epoch(f), actions, e) == Offers(f, actions[0], e) + WritesIn(Epoch(g), actions[1..], e)
            && RefusedIn(f, actions, e) ==
               (if Offers(f, actions[0], e) == [] then 0 else g.dropped - f.dropped) + RefusedIn(g, actions[1..], e)
  {
  }

  lemma HeldStep(f: Fifo, a: Action, e: nat) returns (k: nat)
    requires Mailbox.Ok(f) && Epoch(f) <= e && !(a.Resetting? && Epoch(f) == e)
    ensures var g := Step(f, a);
            && Epoch(g) <= e
            && if Offers(f, a, e) == [] then HeldBefore(g, e) == HeldBefore(f, e)
               else k <= |a.data| && HeldBefore(g, e) == HeldBefore(f, e) + a.data[..k]
                    && g.dropped - f.dropped == |a.data| - k
  {
    k := 0;
    if Offers(f, a, e) != [] {
      WriteAppendsABeginning(f, a.data);
      k := |Write(f, a.data).accepted| - |f.accepted|;
    }
  }

  /** Over every run, also with resets and commits: what is accepted in a session is made of beginnings of the
      writes of that session, in their order; nothing is lost between them but what was refused. */
  lemma {:induction false} AcceptedIsMadeOfBeginnings(f: Fifo, actions: seq<Action>, e: nat) returns (parts: seq<seq<byte>>)
    requires Mailbox.Ok(f) && Epoch(f) <= e
    ensures AreBeginnings(parts, WritesIn(Epoch(f), actions, e))
    ensures AcceptedIn(Run(f, actions), e) == HeldBefore(f, e) + Flatten(parts)
    ensures |Flatten(parts)| + RefusedIn(f, actions, e) == |Flatten(WritesIn(Epoch(f), actions, e))|
    decreases |actions|
  {
    parts := [];
    if actions == [] {
      assert HeldBefore(f, e) + [] == HeldBefore(f, e);
      return;
    }
    var g, a := Step(f, actions[0]), actions[0];
    SessionStep(f, actions, e);
    if a.Resetting? && Epoch(f) == e {
      NothingOfThePast(g, actions[1..], e);
      assert f.accepted + [] == f.accepted;
      return;
    }
    var k := HeldStep(f, a, e);
    var writes := WritesIn(Epoch(g), actions[1..], e);
    parts := AcceptedIsMadeOfBeginnings(g, actions[1..], e);
    if Offers(f, a, e) != [] {
      parts := OnePartMore(HeldBefore(f, e), a.data, k, parts, writes);
    } else {
      assert [] + writes == writes;
    }
  }

  lemma OnePartMore(before: seq<byte>, data: seq<byte>, k: nat, rest: seq<seq<byte>>, writes: seq<seq<byte>>)
    returns (parts: seq<seq<byte>>)
    requires k <= |data| && AreBeginnings(rest, writes)
    ensures AreBeginnings(parts, [data] + writes)
    ensures before + Flatten(parts) == before + data[..k] + Flatten(rest)
    ensures |Flatten(parts)| == k + |Flatten(rest)|
    ensures |Flatten([data] + writes)| == |data| + |Flatten(writes)|
  {
    parts := [data[..k]] + rest;
    FlattenFirst(data[..k], rest);
    FlattenFirst(data, writes);
    Associate(before, data[..k], Flatten(rest));
  }

  lemma {:induction false} FullBeginnings(parts: seq<seq<byte>>, writes: seq<seq<byte>>)
    requires AreBeginnings(parts, writes)
    ensures |Flatten(parts)| <= |Flatten(writes)|
    ensures |Flatten(parts)| == |Flatten(writes)| ==> parts == writes
    decreases |parts|
  {
    if parts != [] {
      FullBeginnings(parts[1..], writes[1..]);
      if |Flatten(parts)| == |Flatten(writes)| {
        assert parts[0] == writes[0];
        assert parts == [parts[0]] + parts[1..] && writes == [writes[0]] + writes[1..];
      }
    }
  }

  /** A session holds exactly the data written in it, one write after the other, if and only if nothing was refused
      in it. */
  lemma AcceptedIsWhatWasWrittenIff(f: Fifo, actions: seq<Action>, e: nat)
    requires Mailbox.Ok(f) && Epoch(f) <= e
    ensures RefusedIn(f, actions, e) == 0 <==>
            AcceptedIn(Run(f, actions), e) == HeldBefore(f, e) + Flatten(WritesIn(Epoch(f), actions, e))
  {
    var parts := AcceptedIsMadeOfBeginnings(f, actions, e);
    FullBeginnings(parts, WritesIn(Epoch(f), actions, e));
  }

  /** For the current session the refused bytes and the short writes are those the mailbox counts. */
  lemma {:induction false} RefusedIsCounted(f: Fifo, actions: seq<Action>)
    requires Mailbox.Ok(f)
    ensures var g := Run(f, actions);
            && g.dropped == (if Resets(actions) == 0 then f.dropped else 0) + RefusedIn(f, actions, Epoch(g))
            && g.refusals == (if Resets(actions) == 0 then f.refusals else 0) + ShortWritesIn(f, actions, Epoch(g))
    decreases |actions|
  {
    if actions != [] {
      RefusedIsCounted(Step(f, actions[0]), actions[1..]);
      RunKeepsHistory(f, actions);
    }
  }

  lemma HeaderShowsTheQueue(g: Fifo, buildId: u32)
    requires Mailbox.Ok(g)
    ensures var h := HeaderOf(g, buildId);
            && h.writeCount == Low32(|g.accepted|) && h.readCount == Low32(g.consumed)
            && h.availableBytes == |Contents(g)| == |g.accepted| - g.consumed
            && h.droppedBytes == Low32(g.dropped) && h.overflowCount == Low32(g.refusals)
            && h.bufferSize == g.capacity && h.buildId == buildId
  {
  }

  /** The relations between the counters survive the wrap-around. */
  lemma CountersAgree(write: u32, read: u32, dropped: u32, accepted: nat, consumed: nat, refused: nat)
    requires consumed <= accepted
    requires write == Low32(accepted) && read == Low32(consumed) && dropped == Low32(refused)
    ensures write == Low32(read + accepted - consumed)
    ensures Low32(write + dropped) == Low32(accepted + refused)
  {
    Low32Add(consumed, accepted - consumed);
    Low32Sum(accepted, refused);
  }

  /** What the header of a mailbox shows after a run from its start: the bytes refused and the short writes since the
      last reset, and with the accepted bytes all that was offered. */
  lemma HeaderShowsTheRun(capacity: nat, actions: seq<Action>, buildId: u32)
    requires SupportedSize(capacity)
    ensures var start := New(capacity);
            var g := Run(start, actions);
            var h := HeaderOf(g, buildId);
            && h.droppedBytes == Low32(RefusedIn(start, actions, Epoch(g)))
            && h.overflowCount == Low32(ShortWritesIn(start, actions, Epoch(g)))
            && Low32(h.writeCount + h.droppedBytes) == Low32(OfferedSince(0, actions))
            && h.writeCount == Low32(h.readCount + h.availableBytes) && h.availableBytes == |Contents(g)|
            && h.bufferSize == capacity && h.buildId == buildId
  {
    var start := New(capacity);
    var g := Run(start, actions);
    var refused, short := RefusedIn(start, actions, Epoch(g)), ShortWritesIn(start, actions, Epoch(g));
    assert g.dropped == refused && g.refusals == short by {
      RefusedIsCounted(start, actions);
    }
    assert g.capacity == capacity by {
      RunKeepsHistory(start, actions);
    }
    OfferedTotal(start, actions);
    HeaderShowsTheQueue(g, buildId);
    var h := HeaderOf(g, buildId);
    CountersAgree(h.writeCount, h.readCount, h.droppedBytes, |g.accepted|, g.consumed, refused);
  }

  /** What a mailbox still has to deliver is never touched: until it is consumed or the session ends,
      the bytes waiting at the start of a run are still waiting, in the same place, at its end. */
  lemma StoredBytesSurvive(f: Fifo, actions: seq<Action>)
    requires Mailbox.Ok(f)
    requires Resets(actions) == 0
    ensures var g := Run(f, actions);
            && |Contents(g)| <= g.capacity
            && f.consumed <= g.consumed
            && (g.consumed <= |f.accepted| ==> f.accepted[g.consumed..] <= Contents(g))
  {
    RunKeepsHistory(f, actions);
  }

  // ----------------------------------------------------------------- transactions

  /** Exactly when the mailbox takes a commit after a run: the two identifying numbers must have come
      round to the same values. */
  lemma CommitIsTakenIff(f: Fifo, actions: seq<Action>, t: Transaction)
    requires Mailbox.Ok(f) && t.sessionId == SessionId(Epoch(f)) && t.startCount == ReadCount(f)
    ensures var g := Run(f, actions);
            Accepts(g, t) <==>
              && WholeRounds(Resets(actions))
              && ReadCount(g) == ReadCount(f)
              && |t.data| <= Available(g)
  {
    RunKeepsHistory(f, actions);
    SessionIdRepeats(Epoch(f), Resets(actions));
  }

  /** While fewer than 2^32 - 1 resets and fewer than 2^32 consumed bytes pass, a commit is taken if
      and only if nothing was reset or consumed since the transaction began. */
  lemma CommitIsTakenIffUndisturbed(f: Fifo, length: int, actions: seq<Action>)
    requires Mailbox.Ok(f) && BeginRead(f, length).Ok?
    requires Resets(actions) < SESSIONS
    requires Resets(actions) == 0 ==> Run(f, actions).consumed - f.consumed < U32_MODULUS
    ensures var t, g := BeginRead(f, length).value, Run(f, actions);
            Accepts(g, t) <==> Resets(actions) == 0 && g.consumed == f.consumed
  {
    CommitIsTakenIff(f, actions, BeginRead(f, length).value);
    RunKeepsHistory(f, actions);
    if Resets(actions) == 0 {
      Low32Distinct(f.consumed, Run(f, actions).consumed);
    }
  }

  /** A commit that is taken removes exactly the bytes the transaction carries from the head of the
      queue, within the same bounds. */
  lemma TransactionSafety(f: Fifo, length: int, actions: seq<Action>)
    requires Mailbox.Ok(f) && BeginRead(f, length).Ok?
    requires Resets(actions) < SESSIONS
    requires Resets(actions) == 0 ==> Run(f, actions).consumed - f.consumed < U32_MODULUS
    requires Accepts(Run(f, actions), BeginRead(f, length).value)
    ensures var t, g := BeginRead(f, length).value, Run(f, actions);
            && t.data <= Contents(g)
            && Contents(Commit(g, t)) == Contents(g)[|t.data|..]
            && Commit(g, t).accepted == g.accepted
  {
    CommitIsTakenIffUndisturbed(f, length, actions);
    RunKeepsHistory(f, actions);
    var g := Run(f, actions);
    assert Contents(g)[..length] == Contents(f)[..length];
  }

  /** Of the transactions begun at one session and start count at most one is ever taken, and none
      after a reset, within the same bounds. */
  lemma AtMostOneCommit(f: Fifo, first: Transaction, second: Transaction, actions: seq<Action>)
    requires Mailbox.Ok(f) && Accepts(f, first) && first.data != []
    requires second.sessionId == first.sessionId && second.startCount == first.startCount
    requires Resets(actions) < SESSIONS
    requires Resets(actions) == 0 ==> Run(Commit(f, first), actions).consumed - f.consumed < U32_MODULUS
    ensures !Accepts(Run(Commit(f, first), actions), second)
  {
    var all := [Committing(first)] + actions;
    assert all[1..] == actions;
    assert Run(f, all) == Run(Commit(f, first), actions);
    RunKeepsHistory(Commit(f, first), actions);
    CommitIsTakenIff(f, all, second);
    if Resets(actions) == 0 {
      Low32Distinct(f.consumed, Run(f, all).consumed);
    }
  }
}
