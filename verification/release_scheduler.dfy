/** The self-driven scheduler: a timer thread that releases each service
    whose deadline has passed and advances that deadline by one period, and
    the worker side of a service, which counts its activations and keeps
    execution-time and start-deviation extremes after a warm-up. Time is a
    clock reading passed in; one worker activation is one method call. */
module ReleaseScheduler {
  import opened Wrappers
  import opened CArith
  import opened Timespec
  import TimespecFacts

  /** Activations whose timing is left out of the minimum and maximum. */
  const INITIAL_CYCLE_STATS_IGNORE_COUNT: nat := 10
  const MAX_SLEEP_MS: int := 100
  /** The shortest sleep the timer takes, in nanoseconds. */
  const MIN_SLEEP_NS: int := 10
  const START_MIN_INIT: int := 1000 * MS_TO_NS
  const START_MAX_INIT: int := -1000 * MS_TO_NS

  /** The smaller of `init` and every element of `s`, taken in order. */
  function MinFold(init: int, s: seq<int>): (m: int)
    ensures m <= init
  {
    if s == [] then init
    else
      var m := MinFold(init, s[..|s| - 1]);
      if m > s[|s| - 1] then s[|s| - 1] else m
  }

  /** The larger of `init` and every element of `s`, taken in order. */
  function MaxFold(init: int, s: seq<int>): (m: int)
    ensures m >= init
  {
    if s == [] then init
    else
      var m := MaxFold(init, s[..|s| - 1]);
      if m < s[|s| - 1] then s[|s| - 1] else m
  }

  /** The minimum is below every element and is one of them or `init`. */
  lemma {:induction false} MinFoldBounds(init: int, s: seq<int>)
    ensures forall i :: 0 <= i < |s| ==> MinFold(init, s) <= s[i]
    ensures MinFold(init, s) == init || MinFold(init, s) in s
  {
    if s != [] {
      var n := |s| - 1;
      MinFoldBounds(init, s[..n]);
      assert s == s[..n] + [s[n]];
    }
  }

  /** The maximum is above every element and is one of them or `init`. */
  lemma {:induction false} MaxFoldBounds(init: int, s: seq<int>)
    ensures forall i :: 0 <= i < |s| ==> MaxFold(init, s) >= s[i]
    ensures MaxFold(init, s) == init || MaxFold(init, s) in s
  {
    if s != [] {
      var n := |s| - 1;
      MaxFoldBounds(init, s[..n]);
      assert s == s[..n] + [s[n]];
    }
  }

  /** The samples that reach the statistics: those from activation 11 on. */
  function Warm(s: seq<int>): seq<int>
  {
    if |s| <= INITIAL_CYCLE_STATS_IGNORE_COUNT then [] else s[INITIAL_CYCLE_STATS_IGNORE_COUNT..]
  }

  /** The worker of one service (`Service` and its `_provideService` loop).
      `pending` is the count of its `counting_semaphore<1>`. */
  class Service {
    const affinity: byte
    const priority: byte
    const period: uint32
    var running: bool
    var pending: nat
    var iterationCount: nat
    var execMin: int
    var execMax: int
    var startMin: int
    var startMax: int
    var nextStart: Timespec
    /** Execution times and start deviations of every activation that ran
        the callback, in nanoseconds, oldest first. */
    ghost var execs: seq<int>
    ghost var starts: seq<int>

    ghost predicate Valid()
      reads this`pending, this`iterationCount, this`execMin, this`execMax, this`startMin, this`startMax
      reads this`execs, this`starts
    {
      && pending <= 1
      && iterationCount == |execs| == |starts|
      && execMin == MinFold(NS_PER_SEC, Warm(execs))
      && execMax == MaxFold(0, Warm(execs))
      && startMin == MinFold(START_MIN_INIT, Warm(starts))
      && startMax == MaxFold(START_MAX_INIT, Warm(starts))
    }

    /** A new service is running with nothing released; `clock` is the
        reading its worker takes before waiting for the first release. */
    constructor (affinity: byte, priority: byte, period: uint32, clock: Timespec)
      ensures Valid()
      ensures this.affinity == affinity && this.priority == priority && this.period == period
      ensures running && pending == 0 && iterationCount == 0
      ensures execs == [] && starts == [] && nextStart == clock
    {
      this.affinity := affinity;
      this.priority := priority;
      this.period := period;
      running := true;
      pending := 0;
      iterationCount := 0;
      execMin := NS_PER_SEC;
      execMax := 0;
      startMin := START_MIN_INIT;
      startMax := START_MAX_INIT;
      nextStart := clock;
      execs := [];
      starts := [];
    }

    /** `release`: the semaphore may hold at most one release. */
    method Release()
      requires Valid() && pending == 0
      modifies this`pending
      ensures Valid() && pending == 1
    {
      pending := 1;
    }

    /** One pass of the worker loop after a release: the release is
        consumed; the callback runs, and the statistics move, only if the
        service is still running. `start` and `stop` are the readings around
        the callback. */
    method Activate(start: Timespec, stop: Timespec) returns (ran: bool)
      requires Valid() && pending == 1
      requires Total(start) <= Total(stop)
      modifies this`pending, this`iterationCount, this`execMin, this`execMax, this`startMin, this`startMax
      modifies this`execs, this`starts, this`nextStart
      ensures Valid() && pending == 0 && running == old(running)
      ensures ran == old(running)
      ensures ran ==> execs == old(execs) + [Total(stop) - Total(start)]
      ensures ran ==> starts == old(starts) + [Total(start) - Total(old(nextStart))]
      ensures ran ==> nextStart == CalcNextRelease(Some(start), Some(old(nextStart)), period).value
      ensures !ran ==> execs == old(execs) && starts == old(starts) && nextStart == old(nextStart)
    {
      pending := 0;
      ran := running;
      if running {
        var startDev := ElapsedNs(start, nextStart);
        var execTime := ElapsedNs(stop, start);
        Record(execTime, startDev);
        nextStart := CalcNextRelease(Some(start), Some(nextStart), period).value;
      }
    }

    /** The statistics update of one activation that ran the callback: the
        count goes up, and the extremes take the new samples only once the
        count exceeds the warm-up. */
    method Record(execTime: int, startDev: int)
      requires Valid()
      modifies this`iterationCount, this`execMin, this`execMax, this`startMin, this`startMax, this`execs, this`starts
      ensures Valid()
      ensures execs == old(execs) + [execTime] && starts == old(starts) + [startDev]
    {
      iterationCount := iterationCount + 1;
      RecordExec(execTime);
      RecordStart(startDev);
    }

    /** The execution-time half of `Record`, once the count has moved. */
    method RecordExec(execTime: int)
      requires iterationCount == |execs| + 1
      requires execMin == MinFold(NS_PER_SEC, Warm(execs)) && execMax == MaxFold(0, Warm(execs))
      modifies this`execMin, this`execMax, this`execs
      ensures execs == old(execs) + [execTime]
      ensures execMin == MinFold(NS_PER_SEC, Warm(execs)) && execMax == MaxFold(0, Warm(execs))
    {
      StatsStep(NS_PER_SEC, 0, execs, execTime);
      execs := execs + [execTime];
      if iterationCount > INITIAL_CYCLE_STATS_IGNORE_COUNT {
        if execMin > execTime { execMin := execTime; }
        if execMax < execTime { execMax := execTime; }
      }
    }

    /** The start-deviation half of `Record`, once the count has moved. */
    method RecordStart(startDev: int)
      requires iterationCount == |starts| + 1
      requires startMin == MinFold(START_MIN_INIT, Warm(starts)) && startMax == MaxFold(START_MAX_INIT, Warm(starts))
      modifies this`startMin, this`startMax, this`starts
      ensures starts == old(starts) + [startDev]
      ensures startMin == MinFold(START_MIN_INIT, Warm(starts)) && startMax == MaxFold(START_MAX_INIT, Warm(starts))
    {
      StatsStep(START_MIN_INIT, START_MAX_INIT, starts, startDev);
      starts := starts + [startDev];
      if iterationCount > INITIAL_CYCLE_STATS_IGNORE_COUNT {
        if startMin > startDev { startMin := startDev; }
        if startMax < startDev { startMax := startDev; }
      }
    }

    /** `stop`: clear the running flag and release the worker once so that
        it wakes, consumes the release without running the callback, and
        exits; the join waits for that. */
    method Stop()
      requires Valid() && pending == 0
      modifies this`running
      ensures Valid() && !running && pending == 0
    {
      running := false;
    }
  }

  lemma WarmSnoc(s: seq<int>, x: int)
    ensures Warm(s + [x]) == if |s| + 1 <= INITIAL_CYCLE_STATS_IGNORE_COUNT then [] else Warm(s) + [x]
  {
    if |s| + 1 > INITIAL_CYCLE_STATS_IGNORE_COUNT && |s| > INITIAL_CYCLE_STATS_IGNORE_COUNT {
      assert (s + [x])[INITIAL_CYCLE_STATS_IGNORE_COUNT..] == s[INITIAL_CYCLE_STATS_IGNORE_COUNT..] + [x];
    }
  }

  /** One more sample moves the extremes only once warm-up is over. */
  lemma StatsStep(minInit: int, maxInit: int, s: seq<int>, x: int)
    ensures var cur, next := Warm(s), Warm(s + [x]);
      if |s| + 1 > INITIAL_CYCLE_STATS_IGNORE_COUNT then
        && MinFold(minInit, next) == (if MinFold(minInit, cur) > x then x else MinFold(minInit, cur))
        && MaxFold(maxInit, next) == (if MaxFold(maxInit, cur) < x then x else MaxFold(maxInit, cur))
      else
        next == cur
  {
    WarmSnoc(s, x);
    FoldSnoc(minInit, maxInit, Warm(s), x);
  }

  lemma FoldSnoc(minInit: int, maxInit: int, s: seq<int>, x: int)
    ensures MinFold(minInit, s + [x]) == if MinFold(minInit, s) > x then x else MinFold(minInit, s)
    ensures MaxFold(maxInit, s + [x]) == if MaxFold(maxInit, s) < x then x else MaxFold(maxInit, s)
  {
    assert (s + [x])[..|s|] == s;
  }

  /** During warm-up the extremes keep their initial values. */
  lemma WarmUpLeavesExtremes(s: seq<int>)
    requires |s| <= INITIAL_CYCLE_STATS_IGNORE_COUNT
    ensures MinFold(NS_PER_SEC, Warm(s)) == NS_PER_SEC && MaxFold(0, Warm(s)) == 0
  {
  }

  /** After warm-up the minimum and maximum are attained samples of the
      counted activations, and bracket every one of them. */
  lemma {:induction false} ExtremesAfterWarmUp(s: seq<int>)
    requires |s| > INITIAL_CYCLE_STATS_IGNORE_COUNT
    requires forall i :: 0 <= i < |s| ==> 0 <= s[i] <= NS_PER_SEC
    ensures MinFold(NS_PER_SEC, Warm(s)) in Warm(s)
    ensures MinFold(NS_PER_SEC, Warm(s)) <= MaxFold(0, Warm(s))
    ensures forall i :: INITIAL_CYCLE_STATS_IGNORE_COUNT <= i < |s| ==>
      MinFold(NS_PER_SEC, Warm(s)) <= s[i] <= MaxFold(0, Warm(s))
  {
    var w := Warm(s);
    var m := MinFold(NS_PER_SEC, w);
    MinFoldBounds(NS_PER_SEC, w);
    MaxFoldBounds(0, w);
    assert w[0] == s[INITIAL_CYCLE_STATS_IGNORE_COUNT];
    assert m <= w[0] <= MaxFold(0, w);
    if m == NS_PER_SEC {
      assert w[0] == m;
    }
    forall i | INITIAL_CYCLE_STATS_IGNORE_COUNT <= i < |s|
      ensures m <= s[i] <= MaxFold(0, w)
    {
      assert s[i] == w[i - INITIAL_CYCLE_STATS_IGNORE_COUNT];
    }
  }

  /** `order` lists every service index once, in ascending order of period
      (what `std::sort` with the `service_period` comparison produces; equal
      periods may come in any order). */
  ghost predicate SortedByPeriod(servicePeriods: seq<uint32>, order: seq<nat>)
  {
    && |order| == |servicePeriods|
    && (forall i :: 0 <= i < |order| ==> order[i] < |servicePeriods|)
    && (forall i, j :: 0 <= i < j < |order| ==> order[i] != order[j])
    && (forall i, j :: 0 <= i < j < |order| ==> servicePeriods[order[i]] <= servicePeriods[order[j]])
  }

  /** The services a release check lets go: `order[i]` for every slot `i`
      (in slot order) whose deadline is due at `now`. */
  function DueServices(deadlines: seq<Timespec>, order: seq<nat>, now: Timespec): (r: seq<nat>)
    requires |order| == |deadlines|
    ensures |r| <= |deadlines|
    ensures forall k :: 0 <= k < |r| ==> r[k] in order
  {
    if deadlines == [] then []
    else
      var n := |deadlines| - 1;
      DueServices(deadlines[..n], order[..n], now) + (if Due(deadlines[n], now) then [order[n]] else [])
  }

  /** The deadlines after a release check. */
  function Advanced(deadlines: seq<Timespec>, periods: seq<uint32>, now: Timespec): (r: seq<Timespec>)
    requires |periods| == |deadlines|
  {
    seq(|deadlines|, i requires 0 <= i < |deadlines| =>
      if Due(deadlines[i], now) then AdvanceDeadline(deadlines[i], periods[i]) else deadlines[i])
  }

  /** The nanoseconds from `now` to each deadline. */
  function TimesToRelease(deadlines: seq<Timespec>, now: Timespec): (r: seq<int>)
    ensures |r| == |deadlines|
  {
    if deadlines == [] then []
    else
      var n := |deadlines| - 1;
      TimesToRelease(deadlines[..n], now) + [Total(deadlines[n]) - Total(now)]
  }

  /** The sleep the timer takes before its next check: the time to the
      nearest deadline, at most 100 ms and at least 10 ns. */
  function SleepChoice(deadlines: seq<Timespec>, now: Timespec): (ns: int)
    ensures MIN_SLEEP_NS <= ns <= MAX_SLEEP_MS * MS_TO_NS
  {
    var m := MinFold(MAX_SLEEP_MS * MS_TO_NS, TimesToRelease(deadlines, now));
    if m < MIN_SLEEP_NS then MIN_SLEEP_NS else m
  }

  /** The timer side of `Sequencer::_runTimer`. Slot `i` belongs to the
      service `order[i]`, whose period is `periods[i]`. */
  class ReleaseTimer {
    var order: seq<nat>
    var periods: seq<uint32>
    var deadlines: seq<Timespec>

    ghost predicate Valid()
      reads this
    {
      && |periods| == |order| == |deadlines|
      && forall i :: 0 <= i < |deadlines| ==> Normalised(deadlines[i])
    }

    /** The start of the timer thread: every service is released once, in
        slot order, and its first deadline is one period after `start`. */
    static method Start(servicePeriods: seq<uint32>, sorted: seq<nat>, start: Timespec)
      returns (t: ReleaseTimer, released: seq<nat>)
      requires SortedByPeriod(servicePeriods, sorted)
      requires Normalised(start)
      ensures fresh(t) && t.Valid()
      ensures t.order == sorted && released == sorted
      ensures |t.periods| == |sorted|
      ensures forall i :: 0 <= i < |sorted| ==> t.periods[i] == servicePeriods[sorted[i]]
      ensures forall i :: 0 <= i < |sorted| ==> t.deadlines[i] == AdvanceDeadline(start, t.periods[i])
      ensures forall i :: 0 <= i < |sorted| ==> Total(t.deadlines[i]) == Total(start) + servicePeriods[sorted[i]] * MS_TO_NS
    {
      t := new ReleaseTimer.Empty();
      released := [];
      var i := 0;
      while i < |sorted|
        invariant 0 <= i <= |sorted|
        invariant t.order == [] && released == sorted[..i]
        invariant |t.periods| == |t.deadlines| == i
        invariant forall k :: 0 <= k < i ==> t.periods[k] == servicePeriods[sorted[k]]
        invariant forall k :: 0 <= k < i ==> t.deadlines[k] == AdvanceDeadline(start, t.periods[k])
      {
        released := released + [sorted[i]];
        t.periods := t.periods + [servicePeriods[sorted[i]]];
        t.deadlines := t.deadlines + [AdvanceDeadline(start, servicePeriods[sorted[i]])];
        i := i + 1;
      }
      t.order := sorted;
    }

    constructor Empty()
      ensures order == [] && periods == [] && deadlines == []
    {
      order := [];
      periods := [];
      deadlines := [];
    }

    /** The first loop of an iteration: the time to sleep, computed from the
        deadlines and the current reading. */
    method SleepNs(now: Timespec) returns (sleep: int)
      requires Valid()
      ensures sleep == SleepChoice(deadlines, now)
    {
      sleep := MAX_SLEEP_MS * MS_TO_NS;
      var i := 0;
      while i < |deadlines|
        invariant 0 <= i <= |deadlines|
        invariant sleep == MinFold(MAX_SLEEP_MS * MS_TO_NS, TimesToRelease(deadlines[..i], now))
      {
        var timeToRelease := (deadlines[i].sec - now.sec) * NS_PER_SEC + (deadlines[i].nsec - now.nsec);
        TimeToReleaseIsDifference(deadlines[i], now);
        assert deadlines[..i + 1][..i] == deadlines[..i];
        FoldSnoc(MAX_SLEEP_MS * MS_TO_NS, 0, TimesToRelease(deadlines[..i], now), timeToRelease);
        if timeToRelease < sleep {
          sleep := timeToRelease;
        }
        i := i + 1;
      }
      assert deadlines[..i] == deadlines;
      if sleep < MIN_SLEEP_NS {
        sleep := MIN_SLEEP_NS;
      }
    }

    /** The second loop of an iteration: every due slot's service is
        released once and its deadline moves one period on from the old
        deadline; the other slots are left alone. */
    method CheckReleases(now: Timespec) returns (released: seq<nat>)
      requires Valid()
      modifies this`deadlines
      ensures Valid()
      ensures deadlines == Advanced(old(deadlines), periods, now)
      ensures released == DueServices(old(deadlines), order, now)
    {
      ghost var before := deadlines;
      released := [];
      var i := 0;
      while i < |deadlines|
        invariant 0 <= i <= |deadlines| == |before|
        invariant forall k :: 0 <= k < i ==> deadlines[k] == Advanced(before, periods, now)[k]
        invariant forall k :: i <= k < |deadlines| ==> deadlines[k] == before[k]
        invariant forall k :: 0 <= k < |deadlines| ==> Normalised(deadlines[k])
        invariant released == DueServices(before[..i], order[..i], now)
      {
        assert before[..i + 1][..i] == before[..i];
        assert order[..i + 1][..i] == order[..i];
        var d := deadlines[i];
        if now.sec > d.sec || (now.sec == d.sec && now.nsec >= d.nsec) {
          released := released + [order[i]];
          deadlines := deadlines[i := AdvanceDeadline(d, periods[i])];
        }
        i := i + 1;
      }
      assert before[..i] == before;
      assert order[..i] == order;
    }
  }

  /** A release check lets each due service go exactly once and no other:
      the released list holds `order[i]` once if slot `i` is due and not at
      all otherwise. */
  lemma {:induction false} DueReleasedOnce(deadlines: seq<Timespec>, order: seq<nat>, now: Timespec, i: nat)
    requires |order| == |deadlines| && i < |order|
    requires forall a, b :: 0 <= a < b < |order| ==> order[a] != order[b]
    ensures multiset(DueServices(deadlines, order, now))[order[i]] == if Due(deadlines[i], now) then 1 else 0
  {
    var n := |deadlines| - 1;
    var last: seq<nat> := if Due(deadlines[n], now) then [order[n]] else [];
    assert DueServices(deadlines, order, now) == DueServices(deadlines[..n], order[..n], now) + last;
    if i == n {
      NotReleased(deadlines[..n], order[..n], now, order[n]);
    } else {
      DueReleasedOnce(deadlines[..n], order[..n], now, i);
      assert order[..n][i] == order[i];
      assert deadlines[..n][i] == deadlines[i];
    }
  }

  lemma NotReleased(deadlines: seq<Timespec>, order: seq<nat>, now: Timespec, x: nat)
    requires |order| == |deadlines| && x !in order
    ensures multiset(DueServices(deadlines, order, now))[x] == 0
  {
  }

  /** A deadline that was missed by more than one period is still due after
      its advance: a late timer catches up one period per check instead of
      skipping releases, since the new deadline is computed from the old one. */
  lemma OverslipStaysDue(deadline: Timespec, periodMs: nat, now: Timespec)
    requires Normalised(deadline) && Normalised(now)
    requires Total(now) >= Total(deadline) + periodMs * MS_TO_NS
    ensures Due(deadline, now) && Due(AdvanceDeadline(deadline, periodMs), now)
  {
    TimespecFacts.DueIsLater(deadline, now);
    TimespecFacts.DueIsLater(AdvanceDeadline(deadline, periodMs), now);
  }

  /** The timer never sleeps past a deadline that is at least 10 ns away:
      the sleep is at most the time to the nearest deadline. */
  lemma {:induction false} SleepBeforeDeadline(deadlines: seq<Timespec>, now: Timespec, i: nat)
    requires i < |deadlines|
    requires Total(deadlines[i]) - Total(now) >= MIN_SLEEP_NS
    ensures SleepChoice(deadlines, now) <= Total(deadlines[i]) - Total(now)
  {
    TimeToReleaseAt(deadlines, now, i);
    MinFoldBounds(MAX_SLEEP_MS * MS_TO_NS, TimesToRelease(deadlines, now));
  }

  lemma TimeToReleaseIsDifference(d: Timespec, now: Timespec)
    ensures (d.sec - now.sec) * NS_PER_SEC + (d.nsec - now.nsec) == Total(d) - Total(now)
  {
  }

  lemma {:induction false} TimeToReleaseAt(deadlines: seq<Timespec>, now: Timespec, i: nat)
    requires i < |deadlines|
    ensures TimesToRelease(deadlines, now)[i] == Total(deadlines[i]) - Total(now)
  {
    var n := |deadlines| - 1;
    if i < n {
      TimeToReleaseAt(deadlines[..n], now, i);
      assert deadlines[..n][i] == deadlines[i];
    }
  }
}
