/** Incremental parsing of a byte stream.

    A lexer looks at the bytes received so far and gives a verdict: not enough bytes yet (`Wait`),
    nothing can be parsed any more (`Halt`), or the first `n` bytes form an event (`Take`). Every
    stream parser of the system is a loop over such a lexer that keeps the unconsumed bytes. */
module StreamScan {
  import opened Bytes

  datatype Verdict<+E> = Wait | Halt | Take(n: nat, event: E)

  datatype Scanned<+E> = Scanned(events: seq<E>, rest: seq<byte>)

  /** A lexer makes progress, and later bytes never change a verdict other than `Wait`. */
  ghost predicate Stable<E(!new)>(next: seq<byte> -> Verdict<E>) {
    forall b, x :: StableAt(next, b, x)
  }

  ghost predicate StableAt<E>(next: seq<byte> -> Verdict<E>, b: seq<byte>, x: seq<byte>) {
    && (next(b).Take? ==> 0 < next(b).n <= |b|)
    && (next(b).Wait? || next(b + x) == next(b))
  }

  /** All events at the head of `buffer`, and the bytes the parser keeps. */
  function Scan<E>(next: seq<byte> -> Verdict<E>, buffer: seq<byte>): Scanned<E>
    decreases |buffer|
  {
    match next(buffer)
    case Take(n, event) =>
      if 0 < n <= |buffer| then
        var tail := Scan(next, buffer[n..]);
        Scanned([event] + tail.events, tail.rest)
      else
        Scanned([], buffer)
    case _ => Scanned([], buffer)
  }

  /** A parser that is fed `chunks` one after the other and keeps its unconsumed bytes in between. */
  function Feed<E>(next: seq<byte> -> Verdict<E>, rest: seq<byte>, chunks: seq<seq<byte>>): Scanned<E>
    decreases |chunks|
  {
    if chunks == [] then
      Scanned([], rest)
    else
      var first := Scan(next, rest + chunks[0]);
      var tail := Feed(next, first.rest, chunks[1..]);
      Scanned(first.events + tail.events, tail.rest)
  }

  /** One step of a scan that starts at `offset`. */
  lemma ScanStep<E>(next: seq<byte> -> Verdict<E>, data: seq<byte>, offset: nat, n: nat, event: E)
    requires offset + n <= |data| && 0 < n
    requires next(data[offset..]) == Take(n, event)
    ensures Scan(next, data[offset..]) ==
            var more := Scan(next, data[offset + n..]);
            Scanned([event] + more.events, more.rest)
  {
    assert data[offset..][n..] == data[offset + n..];
  }

  lemma {:induction false} RestIsStuck<E(!new)>(next: seq<byte> -> Verdict<E>, a: seq<byte>)
    requires Stable(next)
    ensures !next(Scan(next, a).rest).Take?
    ensures Scan(next, Scan(next, a).rest) == Scanned([], Scan(next, a).rest)
    decreases |a|
  {
    assert StableAt(next, a, []);
    if next(a).Take? {
      RestIsStuck(next, a[next(a).n..]);
    }
  }

  /** Scanning a stream in two parts is scanning it whole. */
  lemma {:induction false} ScanSplit<E(!new)>(next: seq<byte> -> Verdict<E>, a: seq<byte>, b: seq<byte>)
    requires Stable(next)
    ensures Scan(next, a + b) ==
            var first := Scan(next, a);
            var second := Scan(next, first.rest + b);
            Scanned(first.events + second.events, second.rest)
    decreases |a|
  {
    assert StableAt(next, a, b);
    if next(a).Take? {
      var n := next(a).n;
      assert (a + b)[n..] == a[n..] + b;
      ScanSplit(next, a[n..], b);
    }
  }

  /** How the stream is cut into chunks does not matter. */
  lemma {:induction false} ChunkingIsIrrelevant<E(!new)>(next: seq<byte> -> Verdict<E>, rest: seq<byte>, chunks: seq<seq<byte>>)
    requires Stable(next)
    requires Scan(next, rest) == Scanned([], rest)
    ensures Feed(next, rest, chunks) == Scan(next, rest + Flatten(chunks))
    decreases |chunks|
  {
    if chunks == [] {
      assert rest + Flatten(chunks) == rest;
    } else {
      var first := Scan(next, rest + chunks[0]);
      RestIsStuck(next, rest + chunks[0]);
      ChunkingIsIrrelevant(next, first.rest, chunks[1..]);
      ScanSplit(next, rest + chunks[0], Flatten(chunks[1..]));
      assert rest + Flatten(chunks) == rest + chunks[0] + Flatten(chunks[1..]);
    }
  }

  // ------------------------------------------------------------ encoded streams

  function EncodeAll<E>(encode: E -> seq<byte>, events: seq<E>): seq<byte> {
    if events == [] then [] else encode(events[0]) + EncodeAll(encode, events[1..])
  }

  /** `encode(e)` is recognised as `e`, and not before its last byte has arrived. */
  ghost predicate Encodes<E(!new)>(next: seq<byte> -> Verdict<E>, encode: E -> seq<byte>, e: E) {
    && encode(e) != []
    && next(encode(e)) == Take(|encode(e)|, e)
    && forall k :: WaitsAt(next, encode(e), k)
  }

  ghost predicate WaitsAt<E>(next: seq<byte> -> Verdict<E>, code: seq<byte>, k: nat) {
    k < |code| ==> next(code[..k]).Wait?
  }

  /** The event recognised at the head of `b`, if any, is the encoding of the bytes taken. */
  ghost predicate SpelledBy<E>(next: seq<byte> -> Verdict<E>, encode: E -> seq<byte>, b: seq<byte>) {
    next(b).Take? ==> next(b).n <= |b| && encode(next(b).event) == b[..next(b).n]
  }

  lemma {:induction false} EncodeAllAppend<E>(encode: E -> seq<byte>, a: seq<E>, b: seq<E>)
    ensures EncodeAll(encode, a + b) == EncodeAll(encode, a) + EncodeAll(encode, b)
    decreases |a|
  {
    if a == [] {
      assert a + b == b;
    } else {
      assert (a + b)[1..] == a[1..] + b;
      EncodeAllAppend(encode, a[1..], b);
    }
  }

  /** The events account for every byte: their encodings followed by the rest are the input. */
  lemma {:induction false} EventsAccountForInput<E(!new)>(next: seq<byte> -> Verdict<E>, encode: E -> seq<byte>, buffer: seq<byte>)
    requires Stable(next)
    requires forall b :: SpelledBy(next, encode, b)
    ensures EncodeAll(encode, Scan(next, buffer).events) + Scan(next, buffer).rest == buffer
    decreases |buffer|
  {
    assert StableAt(next, buffer, []) && SpelledBy(next, encode, buffer);
    if next(buffer).Take? {
      var n := next(buffer).n;
      EventsAccountForInput(next, encode, buffer[n..]);
      var tail := Scan(next, buffer[n..]);
      assert Scan(next, buffer).events[1..] == tail.events;
      assert buffer == buffer[..n] + buffer[n..];
    }
  }

  // --------------------------------------------------------------- where events end

  /** The events taken from the head of `b` end exactly after `n` bytes. */
  predicate EndsAt<E>(next: seq<byte> -> Verdict<E>, b: seq<byte>, n: nat)
    decreases n
  {
    n == 0 || (next(b).Take? && 0 < next(b).n <= Min(n, |b|) && EndsAt(next, b[next(b).n..], n - next(b).n))
  }

  /** The first `k` events of a scan spell `garbage`, and the others are those of `stream` alone. */
  ghost predicate CostsOnlyItself<E>(
    next: seq<byte> -> Verdict<E>, encode: E -> seq<byte>, garbage: seq<byte>, stream: seq<byte>, k: nat)
  {
    var whole := Scan(next, garbage + stream);
    && k <= |whole.events|
    && EncodeAll(encode, whole.events[..k]) == garbage
    && Scanned(whole.events[k..], whole.rest) == Scan(next, stream)
  }

  /** One event off the front of the garbage. */
  lemma CostsStep<E(!new)>(
    next: seq<byte> -> Verdict<E>, encode: E -> seq<byte>, garbage: seq<byte>, stream: seq<byte>, k: nat)
    requires SpelledBy(next, encode, garbage + stream)
    requires next(garbage + stream).Take? && 0 < next(garbage + stream).n <= |garbage|
    ensures var n := next(garbage + stream).n;
            && (garbage + stream)[n..] == garbage[n..] + stream
            && (CostsOnlyItself(next, encode, garbage, stream, k + 1) <==>
                CostsOnlyItself(next, encode, garbage[n..], stream, k))
  {
    var b := garbage + stream;
    var n, e := next(b).n, next(b).event;
    var tail := Scan(next, b[n..]);
    assert b[n..] == garbage[n..] + stream;
    assert b[..n] == garbage[..n];
    assert Scan(next, b).events == [e] + tail.events;
    if k <= |tail.events| {
      assert ([e] + tail.events)[..k + 1] == [e] + tail.events[..k];
      assert ([e] + tail.events)[k + 1..] == tail.events[k..];
      SpellsStep(encode, garbage, n, e, tail.events[..k]);
    }
  }

  lemma SpellsStep<E>(encode: E -> seq<byte>, garbage: seq<byte>, n: nat, e: E, events: seq<E>)
    requires n <= |garbage| && encode(e) == garbage[..n]
    ensures EncodeAll(encode, [e] + events) == garbage <==> EncodeAll(encode, events) == garbage[n..]
  {
    assert ([e] + events)[1..] == events;
    assert garbage == garbage[..n] + garbage[n..];
  }

  lemma {:induction false} EndsThenCosts<E(!new)>(
    next: seq<byte> -> Verdict<E>, encode: E -> seq<byte>, garbage: seq<byte>, stream: seq<byte>) returns (k: nat)
    requires forall b :: SpelledBy(next, encode, b)
    requires EndsAt(next, garbage + stream, |garbage|)
    ensures CostsOnlyItself(next, encode, garbage, stream, k)
    decreases |garbage|
  {
    if garbage == [] {
      assert garbage + stream == stream;
      return 0;
    }
    var n := next(garbage + stream).n;
    assert SpelledBy(next, encode, garbage + stream);
    CostsStep(next, encode, garbage, stream, 0);
    k := EndsThenCosts(next, encode, garbage[n..], stream);
    CostsStep(next, encode, garbage, stream, k);
    k := k + 1;
  }

  lemma {:induction false} CostsThenEnds<E(!new)>(
    next: seq<byte> -> Verdict<E>, encode: E -> seq<byte>, garbage: seq<byte>, stream: seq<byte>, k: nat)
    requires Stable(next)
    requires forall b :: SpelledBy(next, encode, b)
    requires CostsOnlyItself(next, encode, garbage, stream, k)
    ensures EndsAt(next, garbage + stream, |garbage|)
    decreases k
  {
    var b := garbage + stream;
    var whole := Scan(next, b);
    if k == 0 {
      assert garbage == [];
    } else {
      assert StableAt(next, b, []) && SpelledBy(next, encode, b);
      assert next(b).Take? && whole.events[0] == next(b).event;
      assert whole.events[..k][0] == whole.events[0];
      var n := next(b).n;
      assert garbage == b[..n] + EncodeAll(encode, whole.events[..k][1..]);
      CostsStep(next, encode, garbage, stream, k - 1);
      CostsThenEnds(next, encode, garbage[n..], stream, k - 1);
    }
  }

  /** Bytes in front of a stream cost exactly themselves if and only if the events taken from their head end
      where the stream begins. */
  lemma CostsOnlyItselfIff<E(!new)>(
    next: seq<byte> -> Verdict<E>, encode: E -> seq<byte>, garbage: seq<byte>, stream: seq<byte>)
    requires Stable(next)
    requires forall b :: SpelledBy(next, encode, b)
    ensures EndsAt(next, garbage + stream, |garbage|) <==>
            exists k: nat :: CostsOnlyItself(next, encode, garbage, stream, k)
  {
    if EndsAt(next, garbage + stream, |garbage|) {
      var k := EndsThenCosts(next, encode, garbage, stream);
    }
    if k: nat :| CostsOnlyItself(next, encode, garbage, stream, k) {
      CostsThenEnds(next, encode, garbage, stream, k);
    }
  }

  lemma ScanHead<E(!new)>(next: seq<byte> -> Verdict<E>, encode: E -> seq<byte>, e: E, more: seq<byte>)
    requires Stable(next) && Encodes(next, encode, e)
    ensures var tail := Scan(next, more);
            Scan(next, encode(e) + more) == Scanned([e] + tail.events, tail.rest)
  {
    var head := encode(e);
    assert StableAt(next, head, more);
    assert (head + more)[|head|..] == more;
  }

  /** Encoded events at the head of a stream are recognised one by one. */
  lemma {:induction false} CleanStream<E(!new)>(
    next: seq<byte> -> Verdict<E>, encode: E -> seq<byte>, events: seq<E>, tail: seq<byte>)
    requires Stable(next)
    requires forall e | e in events :: Encodes(next, encode, e)
    ensures Scan(next, EncodeAll(encode, events) + tail) ==
            Scanned(events + Scan(next, tail).events, Scan(next, tail).rest)
    decreases |events|
  {
    if events == [] {
      assert EncodeAll(encode, events) + tail == tail;
    } else {
      var more := EncodeAll(encode, events[1..]);
      CleanStream(next, encode, events[1..], tail);
      ScanHead(next, encode, events[0], more + tail);
      Associate(encode(events[0]), more, tail);
      Associate([events[0]], events[1..], Scan(next, tail).events);
      assert events == [events[0]] + events[1..];
    }
  }

  /** A truncated stream of encoded events: the complete events are recognised, nothing else is,
      and the bytes kept are the beginning of the next event. */
  lemma {:induction false} TruncatedStream<E(!new)>(
    next: seq<byte> -> Verdict<E>, encode: E -> seq<byte>, events: seq<E>, input: seq<byte>)
    returns (k: nat)
    requires Stable(next)
    requires next([]).Wait?
    requires forall e | e in events :: Encodes(next, encode, e)
    requires input <= EncodeAll(encode, events)
    ensures k <= |events|
    ensures Scan(next, input).events == events[..k]
    ensures input == EncodeAll(encode, events[..k]) + Scan(next, input).rest
    ensures if k == |events| then Scan(next, input).rest == [] else Scan(next, input).rest < encode(events[k])
    decreases |events|
  {
    if events == [] {
      return 0;
    }
    var head := encode(events[0]);
    assert Encodes(next, encode, events[0]);
    if |input| < |head| {
      assert WaitsAt(next, head, |input|);
      assert input == head[..|input|];
      return 0;
    }
    var left := input[|head|..];
    SplitPrefix(head, EncodeAll(encode, events[1..]), input);
    var j := TruncatedStream(next, encode, events[1..], left);
    ScanHead(next, encode, events[0], left);
    k := j + 1;
    Associate(head, EncodeAll(encode, events[1..][..j]), Scan(next, left).rest);
    EncodeAllTake(encode, events, k);
  }

  lemma EncodeAllTake<E>(encode: E -> seq<byte>, events: seq<E>, k: nat)
    requires 0 < k <= |events|
    ensures events[..k] == [events[0]] + events[1..][..k - 1]
    ensures EncodeAll(encode, events[..k]) == encode(events[0]) + EncodeAll(encode, events[1..][..k - 1])
  {
    assert events[..k][1..] == events[1..][..k - 1];
  }

  /** The same for a stream that arrives in chunks. */
  lemma TruncatedChunks<E(!new)>(
    next: seq<byte> -> Verdict<E>, encode: E -> seq<byte>, events: seq<E>, chunks: seq<seq<byte>>)
    returns (k: nat)
    requires Stable(next)
    requires next([]).Wait?
    requires forall e | e in events :: Encodes(next, encode, e)
    requires Flatten(chunks) <= EncodeAll(encode, events)
    ensures k <= |events|
    ensures Feed(next, [], chunks).events == events[..k]
    ensures Flatten(chunks) == EncodeAll(encode, events[..k]) + Feed(next, [], chunks).rest
    ensures next(Feed(next, [], chunks).rest).Wait?
    ensures if k == |events| then Feed(next, [], chunks).rest == []
            else Feed(next, [], chunks).rest < encode(events[k])
  {
    var data := Flatten(chunks);
    assert [] + data == data;
    ChunkingIsIrrelevant(next, [], chunks);
    k := TruncatedStream(next, encode, events, data);
    if k < |events| {
      var rest := Scan(next, data).rest;
      assert Encodes(next, encode, events[k]);
      assert WaitsAt(next, encode(events[k]), |rest|);
      assert rest == encode(events[k])[..|rest|];
    }
  }

  /** Nothing of a completely received stream remains. */
  lemma WholeStream<E(!new)>(next: seq<byte> -> Verdict<E>, encode: E -> seq<byte>, events: seq<E>)
    requires Stable(next)
    requires next([]).Wait?
    requires forall e | e in events :: Encodes(next, encode, e)
    ensures Scan(next, EncodeAll(encode, events)) == Scanned(events, [])
  {
    CleanStream(next, encode, events, []);
    assert EncodeAll(encode, events) + [] == EncodeAll(encode, events);
    assert events + [] == events;
  }

  lemma CompleteChunks<E(!new)>(
    next: seq<byte> -> Verdict<E>, encode: E -> seq<byte>, events: seq<E>, chunks: seq<seq<byte>>)
    requires Stable(next)
    requires next([]).Wait?
    requires forall e | e in events :: Encodes(next, encode, e)
    requires Flatten(chunks) == EncodeAll(encode, events)
    ensures Feed(next, [], chunks) == Scanned(events, [])
  {
    WholeStream(next, encode, events);
    ChunkingIsIrrelevant(next, [], chunks);
    assert [] + Flatten(chunks) == Flatten(chunks);
  }
}
