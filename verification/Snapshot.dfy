/** The diagnostic snapshot: unwrapping timestamps and extracting runs of equal samples. */
module Snapshot {
  import opened Arithmetic
  import opened Wrappers

  // ------------------------------------------------------------------- timestamps

  /** A record's timestamp as found and with the wraps counted so far; both absent for an unstamped one. */
  datatype Stamp = Stamp(raw: Option<int>, tick: Option<int>, wraps: nat)

  /** The counter seems to have wrapped around between two readings: it fell by more than half its range. */
  predicate SeemsWrapped(previous: int, raw: int, modulus: nat) {
    raw < previous && 2 * (previous - raw) > modulus
  }

  function Unwrap(raws: seq<Option<int>>, modulus: nat, previous: Option<int>, wraps: nat): (stamps: seq<Stamp>)
    ensures |stamps| == |raws|
    decreases |raws|
  {
    if raws == [] then []
    else
      match raws[0]
      case None => [Stamp(None, None, wraps)] + Unwrap(raws[1..], modulus, previous, wraps)
      case Some(raw) =>
        var now := if previous.Some? && SeemsWrapped(previous.value, raw, modulus) then wraps + 1 else wraps;
        [Stamp(Some(raw), Some(raw + now * modulus), now)] + Unwrap(raws[1..], modulus, Some(raw), now)
  }

  /** `unwrapTimestamps` */
  method UnwrapTimestamps(raws: seq<Option<int>>, modulus: nat) returns (stamps: seq<Stamp>)
    ensures stamps == Unwrap(raws, modulus, None, 0)
  {
    stamps := [];
    var previous: Option<int> := None;
    var wraps := 0;
    for k := 0 to |raws|
      invariant stamps + Unwrap(raws[k..], modulus, previous, wraps) == Unwrap(raws, modulus, None, 0)
    {
      UnwrapHead(raws, k, modulus, previous, wraps, stamps);
      if raws[k].None? {
        stamps := stamps + [Stamp(None, None, wraps)];
      } else {
        var raw := raws[k].value;
        if previous.Some? && SeemsWrapped(previous.value, raw, modulus) {
          wraps := wraps + 1;
        }
        previous := Some(raw);
        stamps := stamps + [Stamp(Some(raw), Some(raw + wraps * modulus), wraps)];
      }
    }
    assert stamps + [] == stamps;
  }

  lemma UnwrapHead(raws: seq<Option<int>>, k: nat, modulus: nat, previous: Option<int>, wraps: nat, stamps: seq<Stamp>)
    requires k < |raws|
    ensures stamps + Unwrap(raws[k..], modulus, previous, wraps) ==
            match raws[k]
            case None => stamps + [Stamp(None, None, wraps)] + Unwrap(raws[k + 1..], modulus, previous, wraps)
            case Some(raw) =>
              var now := if previous.Some? && SeemsWrapped(previous.value, raw, modulus) then wraps + 1 else wraps;
              stamps + [Stamp(Some(raw), Some(raw + now * modulus), now)] + Unwrap(raws[k + 1..], modulus, Some(raw), now)
  {
  }

  /** Each stamp keeps its own raw value; its tick is that value plus as many rounds of the counter as it shows,
      and these never become fewer. */
  ghost predicate KeepTheirRaws(stamps: seq<Stamp>, raws: seq<Option<int>>, modulus: nat, wraps: nat) {
    && |stamps| == |raws|
    && (forall k | 0 <= k < |raws| ::
          && stamps[k].raw == raws[k] && wraps <= stamps[k].wraps
          && stamps[k].tick == if raws[k].Some? then Some(raws[k].value + stamps[k].wraps * modulus) else None)
    && (forall j, k | 0 <= j < k < |raws| :: stamps[j].wraps <= stamps[k].wraps)
  }

  lemma {:induction false} StampsKeepTheirRaws(raws: seq<Option<int>>, modulus: nat, previous: Option<int>, wraps: nat)
    ensures KeepTheirRaws(Unwrap(raws, modulus, previous, wraps), raws, modulus, wraps)
    decreases |raws|
  {
    if raws != [] {
      var stamps := Unwrap(raws, modulus, previous, wraps);
      var last := if raws[0].Some? then raws[0] else previous;
      StampsKeepTheirRaws(raws[1..], modulus, last, stamps[0].wraps);
      OneMoreStamp(stamps[0], Unwrap(raws[1..], modulus, last, stamps[0].wraps), raws, modulus, wraps);
    }
  }

  lemma OneMoreStamp(s: Stamp, rest: seq<Stamp>, raws: seq<Option<int>>, modulus: nat, wraps: nat)
    requires raws != [] && KeepTheirRaws(rest, raws[1..], modulus, s.wraps)
    requires s.raw == raws[0] && wraps <= s.wraps
    requires s.tick == if raws[0].Some? then Some(raws[0].value + s.wraps * modulus) else None
    ensures KeepTheirRaws([s] + rest, raws, modulus, wraps)
  {
    forall k | 0 < k < |raws|
      ensures ([s] + rest)[k] == rest[k - 1] && raws[k] == raws[1..][k - 1]
    {
    }
  }

  /** A true time as the counter's reading and the number of wraps before it. */
  datatype Time = Time(laps: int, reading: nat)

  function TrueTick(t: Time, modulus: nat): int {
    t.laps * modulus + t.reading
  }

  predicate IsReading(t: Time, modulus: nat) {
    t.reading < modulus
  }

  /** The raw timestamps of records, some of them unstamped. */
  function Raws(times: seq<Option<Time>>): (raws: seq<Option<int>>)
    ensures |raws| == |times|
  {
    if times == [] then []
    else [if times[0].Some? then Some(times[0].value.reading) else None] + Raws(times[1..])
  }

  predicate AllReadings(times: seq<Option<Time>>, modulus: nat) {
    forall k | 0 <= k < |times| && times[k].Some? :: IsReading(times[k].value, modulus)
  }

  /** From one stamped record to the next the counter is followed correctly: back by at most half its
      range within a lap, or into the next lap by less than half. */
  predicate IsFollowed(s: Time, t: Time, modulus: nat) {
    || (t.laps == s.laps && 2 * (TrueTick(s, modulus) - TrueTick(t, modulus)) <= modulus)
    || (t.laps == s.laps + 1 && 2 * (TrueTick(t, modulus) - TrueTick(s, modulus)) < modulus)
  }

  /** Every step between stamped records is followed. */
  predicate AllFollowed(times: seq<Option<Time>>, modulus: nat, previous: Option<Time>)
    decreases |times|
  {
    times == [] ||
    match times[0]
    case None => AllFollowed(times[1..], modulus, previous)
    case Some(t) =>
      (previous.Some? ==> IsFollowed(previous.value, t, modulus)) && AllFollowed(times[1..], modulus, Some(t))
  }

  /** Every tick is the true one less `offset` laps; unstamped records have none. */
  predicate TicksAreTrue(stamps: seq<Stamp>, times: seq<Option<Time>>, modulus: nat, offset: int) {
    && |stamps| == |times|
    && forall k | 0 <= k < |times| ::
         stamps[k].tick == if times[k].Some? then Some(TrueTick(times[k].value, modulus) - offset * modulus) else None
  }

  lemma StepIsFollowed(s: Time, t: Time, modulus: nat)
    requires IsReading(s, modulus) && IsReading(t, modulus)
    ensures IsFollowed(s, t, modulus) <==>
            t.laps - s.laps == if SeemsWrapped(s.reading, t.reading, modulus) then 1 else 0
  {
  }

  /** The tick is right exactly when the wraps counted are the laps less the offset. */
  lemma TickIsTrue(t: Time, modulus: nat, wraps: int, offset: int)
    requires 0 < modulus
    ensures t.reading + wraps * modulus == TrueTick(t, modulus) - offset * modulus <==> wraps == t.laps - offset
  {
    var d := wraps - t.laps + offset;
    assert d * modulus == wraps * modulus - t.laps * modulus + offset * modulus;
    if d * modulus == 0 {
      NoMultipleBetween(d, modulus);
    }
  }

  lemma TicksHead(stamps: seq<Stamp>, times: seq<Option<Time>>, modulus: nat, offset: int)
    requires times != [] && |stamps| == |times|
    ensures TicksAreTrue(stamps, times, modulus, offset) <==>
            && stamps[0].tick == (if times[0].Some? then Some(TrueTick(times[0].value, modulus) - offset * modulus) else None)
            && TicksAreTrue(stamps[1..], times[1..], modulus, offset)
  {
  }

  lemma {:induction false} ContinuesTrue(times: seq<Option<Time>>, modulus: nat, previous: Time, wraps: nat, offset: int)
    requires 0 < modulus && AllReadings(times, modulus)
    requires IsReading(previous, modulus) && wraps == previous.laps - offset
    ensures TicksAreTrue(Unwrap(Raws(times), modulus, Some(previous.reading), wraps), times, modulus, offset)
            <==> AllFollowed(times, modulus, Some(previous))
    decreases |times|
  {
    if times != [] {
      var stamps := Unwrap(Raws(times), modulus, Some(previous.reading), wraps);
      TicksHead(stamps, times, modulus, offset);
      assert Raws(times)[1..] == Raws(times[1..]);
      match times[0] {
        case None =>
          ContinuesTrue(times[1..], modulus, previous, wraps, offset);
        case Some(t) =>
          TickIsTrue(t, modulus, stamps[0].wraps, offset);
          StepIsFollowed(previous, t, modulus);
          if stamps[0].wraps == t.laps - offset {
            ContinuesTrue(times[1..], modulus, t, stamps[0].wraps, offset);
          }
      }
    }
  }

  /** The lap of the first stamped record. */
  function FirstLap(times: seq<Option<Time>>): int {
    if times == [] then 0 else if times[0].Some? then times[0].value.laps else FirstLap(times[1..])
  }

  predicate HasStamp(times: seq<Option<Time>>) {
    exists k :: 0 <= k < |times| && times[k].Some?
  }

  /** The unwrapped ticks are the true ticks, up to one constant multiple of the modulus, if and only if
      every step between stamped records is followed; records without timestamp are passed over. */
  lemma {:induction false} UnwrappingIsExact(times: seq<Option<Time>>, modulus: nat, offset: int)
    requires 0 < modulus && AllReadings(times, modulus)
    ensures TicksAreTrue(Unwrap(Raws(times), modulus, None, 0), times, modulus, offset) <==>
            (HasStamp(times) ==> offset == FirstLap(times)) && AllFollowed(times, modulus, None)
    decreases |times|
  {
    if times != [] {
      var stamps := Unwrap(Raws(times), modulus, None, 0);
      TicksHead(stamps, times, modulus, offset);
      assert Raws(times)[1..] == Raws(times[1..]);
      match times[0] {
        case None =>
          UnwrappingIsExact(times[1..], modulus, offset);
          HasStampHead(times);
        case Some(t) =>
          TickIsTrue(t, modulus, 0, offset);
          if offset == t.laps {
            ContinuesTrue(times[1..], modulus, t, 0, offset);
          }
      }
    }
  }

  lemma HasStampHead(times: seq<Option<Time>>)
    requires times != [] && times[0].None?
    ensures HasStamp(times) <==> HasStamp(times[1..])
  {
  }

  /** Records in time order that advance by less than half the modulus at a time. */
  predicate AdvancesSlowly(times: seq<Option<Time>>, modulus: nat, previous: Option<Time>)
    decreases |times|
  {
    times == [] ||
    match times[0]
    case None => AdvancesSlowly(times[1..], modulus, previous)
    case Some(t) =>
      && (previous.Some? ==> TrueTick(previous.value, modulus) <= TrueTick(t, modulus)
                             && 2 * (TrueTick(t, modulus) - TrueTick(previous.value, modulus)) < modulus)
      && AdvancesSlowly(times[1..], modulus, Some(t))
  }

  lemma SlowStepIsFollowed(s: Time, t: Time, modulus: nat)
    requires IsReading(s, modulus) && IsReading(t, modulus)
    requires TrueTick(s, modulus) <= TrueTick(t, modulus) && 2 * (TrueTick(t, modulus) - TrueTick(s, modulus)) < modulus
    ensures IsFollowed(s, t, modulus)
  {
    var d := t.laps - s.laps;
    assert d * modulus == t.laps * modulus - s.laps * modulus;
    NextMultipleOnly(d, modulus);
  }

  lemma {:induction false} SlowRecordsAreFollowed(times: seq<Option<Time>>, modulus: nat, previous: Option<Time>)
    requires AllReadings(times, modulus) && (previous.Some? ==> IsReading(previous.value, modulus))
    requires AdvancesSlowly(times, modulus, previous)
    ensures AllFollowed(times, modulus, previous)
    decreases |times|
  {
    if times != [] {
      match times[0] {
        case None => SlowRecordsAreFollowed(times[1..], modulus, previous);
        case Some(t) =>
          if previous.Some? {
            SlowStepIsFollowed(previous.value, t, modulus);
          }
          SlowRecordsAreFollowed(times[1..], modulus, Some(t));
      }
    }
  }

  /** The snapshot lists its rows source by source, so that an early record of one source can follow a late
      record of another. Back by more than half the modulus, it is taken for a wrap. */
  lemma RowsOutOfOrderMislead(modulus: nat, late: nat)
    requires late < modulus < 2 * late
    ensures var times := [Some(Time(0, late)), Some(Time(0, 0))];
            && !AllFollowed(times, modulus, None)
            && Unwrap(Raws(times), modulus, None, 0)[1].tick == Some(modulus)
  {
  }

  // ---------------------------------------------------------------------- sample runs

  datatype Kind = Edge | StableRange

  datatype Run = Run(kind: Kind, first: nat, last: nat, value: int, timestamp: Option<int>)

  /** When the samples of a capture were taken: header timestamp and sample period. */
  datatype Clock = Clock(timestamp: Option<int>, period: int)

  function TimeOf(clock: Clock, index: nat): Option<int> {
    if clock.timestamp.Some? then Some(clock.timestamp.value + index * (if clock.period == 0 then 1 else clock.period))
    else None
  }

  /** A stretch of equal samples that cannot be extended to either side. */
  predicate IsRun(r: Run, samples: seq<Option<int>>, clock: Clock) {
    && r.first <= r.last < |samples|
    && (forall i | r.first <= i <= r.last :: samples[i] == Some(r.value))
    && (0 < r.first ==> samples[r.first - 1] != Some(r.value))
    && (r.last + 1 < |samples| ==> samples[r.last + 1] != Some(r.value))
    && (r.kind.Edge? <==> r.first == r.last)
    && (r.timestamp.Some? <==> clock.timestamp.Some?)
    && (clock.timestamp.Some? ==>
          r.timestamp.value == clock.timestamp.value + r.first * if clock.period == 0 then 1 else clock.period)
  }

  predicate Contains(r: Run, i: int) {
    r.first <= i <= r.last
  }

  predicate IsInRun(runs: seq<Run>, i: int) {
    exists k :: 0 <= k < |runs| && Contains(runs[k], i)
  }

  /** The runs at or after `from`: maximal, disjoint, in order, and holding every sample that is there. */
  ghost predicate AreRuns(runs: seq<Run>, samples: seq<Option<int>>, clock: Clock, from: nat) {
    && (forall k | 0 <= k < |runs| :: IsRun(runs[k], samples, clock) && from <= runs[k].first)
    && (forall j, k | 0 <= j < k < |runs| :: runs[j].last < runs[k].first)
    && (forall i | from <= i < |samples| :: samples[i].Some? <==> IsInRun(runs, i))
  }

  /** The loop over the samples of a capture in `collectRecords`. */
  method CollectRuns(samples: seq<Option<int>>, clock: Clock) returns (runs: seq<Run>)
    ensures AreRuns(runs, samples, clock, 0)
  {
    runs := [];
    var start := 0;
    for index := 1 to |samples| + 1
      invariant 0 <= start < index && (start < |samples| ==> index <= |samples|)
      invariant start < |samples| ==> forall i | start <= i < index :: i < |samples| && samples[i] == samples[start]
      invariant 0 < start < |samples| ==> samples[start - 1] != samples[start]
      invariant |samples| <= start ==> start == |samples| && (index == |samples| + 1 || |samples| == 0)
      invariant RunsBefore(runs, samples, clock, start)
    {
      if index == |samples| || samples[index] != samples[start] {
        if samples[start].Some? {
          var run := Run(if index - start == 1 then Edge else StableRange, start, index - 1, samples[start].value,
                         TimeOf(clock, start));
          OneMoreRun(runs, samples, clock, start, run);
          runs := runs + [run];
        } else {
          NothingThere(runs, samples, clock, start, index);
        }
        start := index;
      }
    }
    BeforeIsAll(runs, samples, clock);
  }

  /** The runs of the samples before `end`, which is not inside a stretch of equal samples. */
  ghost predicate RunsBefore(runs: seq<Run>, samples: seq<Option<int>>, clock: Clock, end: nat) {
    && (forall k | 0 <= k < |runs| :: IsRun(runs[k], samples, clock) && runs[k].last < end)
    && (forall j, k | 0 <= j < k < |runs| :: runs[j].last < runs[k].first)
    && (forall i | 0 <= i < end && i < |samples| :: samples[i].Some? <==> IsInRun(runs, i))
  }

  lemma InMoreRuns(runs: seq<Run>, run: Run, i: int)
    ensures IsInRun(runs + [run], i) <==> IsInRun(runs, i) || Contains(run, i)
  {
    var more := runs + [run];
    if IsInRun(runs, i) {
      var k :| 0 <= k < |runs| && Contains(runs[k], i);
      assert Contains(more[k], i);
    }
    if Contains(run, i) {
      assert Contains(more[|runs|], i);
    }
  }

  lemma OneMoreRun(runs: seq<Run>, samples: seq<Option<int>>, clock: Clock, start: nat, run: Run)
    requires RunsBefore(runs, samples, clock, start)
    requires run.first == start && IsRun(run, samples, clock)
    ensures RunsBefore(runs + [run], samples, clock, run.last + 1)
  {
    forall i | 0 <= i < run.last + 1 && i < |samples|
      ensures samples[i].Some? <==> IsInRun(runs + [run], i)
    {
      InMoreRuns(runs, run, i);
    }
  }

  lemma NothingThere(runs: seq<Run>, samples: seq<Option<int>>, clock: Clock, start: nat, end: nat)
    requires RunsBefore(runs, samples, clock, start) && start <= end <= |samples|
    requires forall i | start <= i < end :: samples[i].None?
    ensures RunsBefore(runs, samples, clock, end)
  {
  }

  lemma BeforeIsAll(runs: seq<Run>, samples: seq<Option<int>>, clock: Clock)
    requires RunsBefore(runs, samples, clock, |samples|)
    ensures AreRuns(runs, samples, clock, 0)
  {
  }

  /** A capture has exactly one such list of runs, so the one collected is it. */
  lemma {:induction false} RunsAreUnique(a: seq<Run>, b: seq<Run>, samples: seq<Option<int>>, clock: Clock, from: nat)
    requires AreRuns(a, samples, clock, from) && AreRuns(b, samples, clock, from)
    ensures a == b
    decreases |a|
  {
    if a == [] && b == [] {
    } else if a == [] {
      FirstRunIsFirst(b, a, samples, clock, from);
    } else if b == [] {
      FirstRunIsFirst(a, b, samples, clock, from);
    } else {
      FirstRunIsFirst(a, b, samples, clock, from);
      FirstRunIsFirst(b, a, samples, clock, from);
      SameRun(a[0], b[0], samples, clock);
      TailRuns(a, samples, clock, from);
      TailRuns(b, samples, clock, from);
      RunsAreUnique(a[1..], b[1..], samples, clock, a[0].last + 1);
    }
  }

  lemma FirstRunIsFirst(a: seq<Run>, b: seq<Run>, samples: seq<Option<int>>, clock: Clock, from: nat)
    requires AreRuns(a, samples, clock, from) && AreRuns(b, samples, clock, from)
    requires a != []
    ensures b != [] && b[0].first <= a[0].first
  {
    var i := a[0].first;
    assert Contains(a[0], i) && IsInRun(a, i);
    var k :| 0 <= k < |b| && Contains(b[k], i);
    assert IsRun(b[0], samples, clock);
  }

  lemma SameRun(r: Run, s: Run, samples: seq<Option<int>>, clock: Clock)
    requires IsRun(r, samples, clock) && IsRun(s, samples, clock) && r.first == s.first
    ensures r == s
  {
    assert samples[r.first] == Some(r.value) && samples[s.first] == Some(s.value);
  }

  lemma TailRuns(runs: seq<Run>, samples: seq<Option<int>>, clock: Clock, from: nat)
    requires AreRuns(runs, samples, clock, from) && runs != []
    ensures AreRuns(runs[1..], samples, clock, runs[0].last + 1)
  {
    var tail := runs[1..];
    assert forall k | 0 <= k < |tail| :: tail[k] == runs[k + 1];
    forall i | runs[0].last + 1 <= i < |samples|
      ensures samples[i].Some? <==> IsInRun(tail, i)
    {
      assert IsRun(runs[0], samples, clock);
      if IsInRun(runs, i) {
        var k :| 0 <= k < |runs| && Contains(runs[k], i);
        assert Contains(tail[k - 1], i);
      }
      if IsInRun(tail, i) {
        var k :| 0 <= k < |tail| && Contains(tail[k], i);
        assert Contains(runs[k + 1], i);
      }
    }
  }
}
