/** The timer-driven scheduler: one POSIX interval timer per service posts
    its semaphore every period; the worker times each activation and folds
    the result into running statistics, which `stop` reports. Instants are
    integer nanoseconds of a clock passed in; durations are milliseconds,
    computed exactly as reals. */
module TimerScheduler {
  import opened CArith
  import opened Timespec

  /** `std::numeric_limits<double>::max()`, the initial minimum. */
  const DBL_MAX: real := 179769313486231570814527423731704356798070567525844996598917476803157260780028538760589558632766878171540458953514382464234321326889464182768467546703537516986049910576551282076245490090389328944075868508455133942304583236903222948165808559332123348274797826204144723168738177180919299881250404026184124858368.0

  function RMin(init: real, s: seq<real>): real
  {
    if s == [] then init
    else var m := RMin(init, s[..|s| - 1]); if s[|s| - 1] < m then s[|s| - 1] else m
  }

  function RMax(init: real, s: seq<real>): real
  {
    if s == [] then init
    else var m := RMax(init, s[..|s| - 1]); if m < s[|s| - 1] then s[|s| - 1] else m
  }

  function RSum(s: seq<real>): real
  {
    if s == [] then 0.0 else RSum(s[..|s| - 1]) + s[|s| - 1]
  }

  function Abs(x: real): real { if x < 0.0 then -x else x }

  /** What `logStatistics` reports: nothing but the period when the service
      never ran, otherwise the extremes, the average execution time and the
      two jitters, in milliseconds. */
  datatype Report =
    | NoData(period: uint32)
    | Stats(name: string, period: uint32, minExec: real, maxExec: real, avgExec: real,
            execJitter: real, minStartJitter: real, maxStartJitter: real, startJitter: real)

  /** One service: the configuration, the POSIX release semaphore, and the
      statistics its worker keeps. */
  class TimedService {
    const name: string
    const affinity: byte
    const priority: byte
    const period: uint32
    var isRunning: bool
    /** The semaphore's value, and whether it still exists. */
    var semCount: nat
    var semAlive: bool
    var lastStart: int
    var minExec: real
    var maxExec: real
    var totalExec: real
    var executionCount: nat
    var minStartJitter: real
    var maxStartJitter: real
    /** The execution times and the start jitters of every activation that
        ran the callback, in milliseconds, oldest first. */
    ghost var execs: seq<real>
    ghost var jitters: seq<real>

    ghost predicate Valid()
      reads this
    {
      && executionCount == |execs|
      && |jitters| == (if executionCount == 0 then 0 else executionCount - 1)
      && minExec == RMin(DBL_MAX, execs) && maxExec == RMax(0.0, execs)
      && totalExec == RSum(execs)
      && minStartJitter == RMin(DBL_MAX, jitters) && maxStartJitter == RMax(0.0, jitters)
    }

    /** The configuration is stored, the service is running and the
        semaphore starts at 0. */
    constructor (name: string, affinity: byte, priority: byte, period: uint32)
      ensures Valid()
      ensures this.name == name && this.affinity == affinity && this.priority == priority && this.period == period
      ensures isRunning && semAlive && semCount == 0
      ensures execs == [] && jitters == []
    {
      this.name := name;
      this.affinity := affinity;
      this.priority := priority;
      this.period := period;
      isRunning := true;
      semCount := 0;
      semAlive := true;
      lastStart := 0;
      minExec := DBL_MAX;
      maxExec := 0.0;
      totalExec := 0.0;
      executionCount := 0;
      minStartJitter := DBL_MAX;
      maxStartJitter := 0.0;
      execs := [];
      jitters := [];
    }

    /** `release`: one `sem_post`; releases accumulate. `postOk` is its
        outcome; on failure only an error line is printed. */
    method Release(postOk: bool)
      requires semAlive
      modifies this`semCount
      ensures semCount == old(semCount) + (if postOk then 1 else 0)
    {
      if postOk {
        semCount := semCount + 1;
      }
    }

    /** One pass of the worker loop once `sem_wait` returns: if the service
        is still running, the start jitter (from the second activation on),
        the start instant and the execution time are recorded. `start` and
        `end` are the clock readings around the callback. */
    method Activate(start: int, end: int) returns (ran: bool)
      requires Valid() && semAlive && semCount >= 1
      modifies this
      ensures Valid() && semAlive && semCount == old(semCount) - 1
      ensures isRunning == old(isRunning) && ran == old(isRunning)
      ensures ran ==> executionCount == old(executionCount) + 1 && lastStart == start
      ensures ran ==> execs == old(execs) + [Interval(start, end)]
      ensures ran && old(executionCount) > 0 ==>
        jitters == old(jitters) + [Abs(Interval(old(lastStart), start) - period as real)]
      ensures ran && old(executionCount) == 0 ==> jitters == old(jitters)
      ensures !ran ==> execs == old(execs) && jitters == old(jitters) && lastStart == old(lastStart)
    {
      semCount := semCount - 1;
      ran := isRunning;
      if isRunning {
        if executionCount > 0 {
          RecordJitter(Abs(Interval(lastStart, start) - period as real));
        }
        lastStart := start;
        RecordExec(Interval(start, end));
      }
    }

    /** The start-jitter fold: the extremes take the new sample. */
    method RecordJitter(jitter: real)
      requires Valid() && executionCount > 0
      modifies this`minStartJitter, this`maxStartJitter, this`jitters
      ensures jitters == old(jitters) + [jitter]
      ensures minStartJitter == RMin(DBL_MAX, jitters) && maxStartJitter == RMax(0.0, jitters)
    {
      RFoldSnoc(jitters, jitter);
      jitters := jitters + [jitter];
      minStartJitter := if minStartJitter < jitter then minStartJitter else jitter;
      maxStartJitter := if maxStartJitter < jitter then jitter else maxStartJitter;
    }

    /** The execution-time fold: extremes, total and count, with no warm-up. */
    method RecordExec(execTime: real)
      requires executionCount == |execs| && minExec == RMin(DBL_MAX, execs)
      requires maxExec == RMax(0.0, execs) && totalExec == RSum(execs)
      modifies this`minExec, this`maxExec, this`totalExec, this`executionCount, this`execs
      ensures execs == old(execs) + [execTime] && executionCount == |execs|
      ensures minExec == RMin(DBL_MAX, execs) && maxExec == RMax(0.0, execs) && totalExec == RSum(execs)
    {
      RFoldSnoc(execs, execTime);
      execs := execs + [execTime];
      minExec := if minExec < execTime then minExec else execTime;
      maxExec := if maxExec < execTime then execTime else maxExec;
      totalExec := totalExec + execTime;
      executionCount := executionCount + 1;
    }

    /** `stop`: the service stops running, the semaphore is posted and then
        destroyed, and the statistics are reported. */
    method Stop(postOk: bool) returns (report: Report)
      requires Valid() && semAlive
      modifies this`isRunning, this`semCount, this`semAlive
      ensures Valid() && !isRunning && !semAlive
      ensures report == Statistics()
    {
      isRunning := false;
      Release(postOk);
      semAlive := false;
      report := Statistics();
    }

    /** The state `stop` leaves: stopped, the semaphore gone, the samples
        `e` kept, and `r` the report of them. */
    ghost predicate StoppedWith(e: seq<real>, r: Report)
      reads this
    {
      !isRunning && !semAlive && Valid() && execs == e && r == Statistics()
    }

    /** `logStatistics`. */
    function Statistics(): (r: Report)
      reads this
      ensures r.NoData? <==> executionCount == 0
      ensures r.period == period
      ensures r.Stats? ==> r.avgExec * executionCount as real == totalExec
    {
      if executionCount == 0 then NoData(period)
      else
        Stats(name, period, minExec, maxExec, totalExec / executionCount as real,
              maxExec - minExec, minStartJitter, maxStartJitter, maxStartJitter - minStartJitter)
    }
  }

  /** The length of the interval between two readings, in milliseconds. */
  function Interval(from: int, to: int): (ms: real)
    ensures from <= to ==> ms >= 0.0
  {
    (to - from) as real / 1_000_000.0
  }

  lemma RFoldSnoc(s: seq<real>, x: real)
    ensures RMin(DBL_MAX, s + [x]) == if RMin(DBL_MAX, s) < x then RMin(DBL_MAX, s) else x
    ensures RMax(0.0, s + [x]) == if RMax(0.0, s) < x then x else RMax(0.0, s)
    ensures RSum(s + [x]) == RSum(s) + x
  {
    assert (s + [x])[..|s|] == s;
  }

  lemma {:induction false} RMinBelow(init: real, s: seq<real>)
    ensures forall i :: 0 <= i < |s| ==> RMin(init, s) <= s[i]
  {
    if s != [] {
      RMinBelow(init, s[..|s| - 1]);
      assert forall i :: 0 <= i < |s| - 1 ==> s[..|s| - 1][i] == s[i];
    }
  }

  lemma {:induction false} RMaxAbove(init: real, s: seq<real>)
    ensures forall i :: 0 <= i < |s| ==> RMax(init, s) >= s[i]
  {
    if s != [] {
      RMaxAbove(init, s[..|s| - 1]);
      assert forall i :: 0 <= i < |s| - 1 ==> s[..|s| - 1][i] == s[i];
    }
  }

  lemma {:induction false} RSumBounds(s: seq<real>, lo: real, hi: real)
    requires forall i :: 0 <= i < |s| ==> lo <= s[i] <= hi
    ensures |s| as real * lo <= RSum(s) <= |s| as real * hi
  {
    if s != [] {
      var n := |s| - 1;
      var t := s[..n];
      assert forall i :: 0 <= i < n ==> t[i] == s[i];
      RSumBounds(t, lo, hi);
      assert RSum(s) == RSum(t) + s[n];
      assert lo <= s[n] <= hi;
      AddBounds(n as real, RSum(t), s[n], lo, hi);
      var m := |s| as real;
      assert m == n as real + 1.0;
      assert m * lo == (n as real + 1.0) * lo && m * hi == (n as real + 1.0) * hi;
    }
  }

  lemma MulSucc(n: real, x: real)
    ensures (n + 1.0) * x == n * x + x
  {
  }

  lemma AddBounds(n: real, sum: real, x: real, lo: real, hi: real)
    requires n * lo <= sum <= n * hi && lo <= x <= hi
    ensures (n + 1.0) * lo <= sum + x <= (n + 1.0) * hi
  {
    MulSucc(n, lo);
    MulSucc(n, hi);
  }

  /** Once a service has run, the reported minimum, average and maximum
      execution times are ordered and the execution jitter is not negative. */
  lemma ReportOrdered(execs: seq<real>)
    requires |execs| >= 1
    ensures var lo, hi := RMin(DBL_MAX, execs), RMax(0.0, execs);
      var avg := RSum(execs) / |execs| as real;
      lo <= avg <= hi && hi - lo >= 0.0
  {
    var lo, hi := RMin(DBL_MAX, execs), RMax(0.0, execs);
    RMinBelow(DBL_MAX, execs);
    RMaxAbove(0.0, execs);
    RSumBounds(execs, lo, hi);
    assert lo <= execs[0] <= hi;
    QuotientBetween(RSum(execs), |execs| as real, lo, hi);
  }

  lemma QuotientBetween(sum: real, n: real, lo: real, hi: real)
    requires n > 0.0 && n * lo <= sum <= n * hi
    ensures lo <= sum / n <= hi
  {
    var q := sum / n;
    assert q * n == sum;
  }

  /** With exactly one activation there is no jitter sample: the report
      shows the initial extremes and a start jitter of minus `DBL_MAX`. */
  lemma SingleRunStartJitter(svc: TimedService)
    requires svc.Valid() && svc.executionCount == 1
    ensures svc.Statistics().Stats? && svc.Statistics().startJitter == -DBL_MAX
  {
    assert svc.jitters == [];
  }

  /** The `itimerspec` armed for a service: the period read into an `int`
      and split into seconds and nanoseconds with C's `/` and `%`; the
      interval repeats the initial value. */
  datatype ItimerSpec = ItimerSpec(value: Timespec, interval: Timespec)

  function ItimerValue(period: uint32): (its: ItimerSpec)
    ensures its.interval == its.value
    ensures period <= INT32_MAX ==> Normalised(its.value) && Total(its.value) == period * MS_TO_NS
    ensures period > INT32_MAX ==> its.value.sec <= 0 && its.value.nsec <= 0 && Total(its.value) < 0
  {
    var periodMs := Uint32ToInt32(period);
    var value := Timespec(TruncDiv(periodMs, 1000), TruncMod(periodMs, 1000) * 1_000_000);
    ItimerSpec(value, value)
  }

  /** A timer that `timer_create` made and `timer_settime` armed, with the
      index of the service it releases. */
  datatype Armed = Armed(id: int, service: nat, setting: ItimerSpec)

  /** The timers `startServices` keeps: for each service in order, the one
      whose creation and arming both succeeded. */
  function ArmedTimers(periods: seq<uint32>, ids: seq<int>, createOk: seq<bool>, settimeOk: seq<bool>, from: nat)
    : (r: seq<Armed>)
    requires |ids| == |createOk| == |settimeOk| == |periods| && from <= |periods|
    ensures |r| <= |periods| - from
    decreases |periods| - from
  {
    if from == |periods| then []
    else
      var rest := ArmedTimers(periods, ids, createOk, settimeOk, from + 1);
      if createOk[from] && settimeOk[from] then [Armed(ids[from], from, ItimerValue(periods[from]))] + rest
      else rest
  }

  /** The arming loop of `startServices`: the ids of the armed timers, in
      service order, with what each was armed with, and the ids of the
      timers deleted because arming failed. */
  method ArmTimers(periods: seq<uint32>, ids: seq<int>, createOk: seq<bool>, settimeOk: seq<bool>)
    returns (kept: seq<int>, ghost added: seq<Armed>, ghost dropped: seq<int>)
    requires |ids| == |createOk| == |settimeOk| == |periods|
    ensures added == ArmedTimers(periods, ids, createOk, settimeOk, 0)
    ensures dropped == FailedArming(ids, createOk, settimeOk, 0)
    ensures |kept| == |added| && forall k :: 0 <= k < |added| ==> added[k].id == kept[k]
  {
    var i := 0;
    added, dropped, kept := [], [], [];
    while i < |periods|
      invariant 0 <= i <= |periods|
      invariant added + ArmedTimers(periods, ids, createOk, settimeOk, i) == ArmedTimers(periods, ids, createOk, settimeOk, 0)
      invariant dropped + FailedArming(ids, createOk, settimeOk, i) == FailedArming(ids, createOk, settimeOk, 0)
      invariant |kept| == |added| && forall k :: 0 <= k < |added| ==> added[k].id == kept[k]
    {
      if createOk[i] {
        var its := ItimerValue(periods[i]);
        if settimeOk[i] {
          var timer := Armed(ids[i], i, its);
          assert added + [timer] + ArmedTimers(periods, ids, createOk, settimeOk, i + 1)
            == added + ([timer] + ArmedTimers(periods, ids, createOk, settimeOk, i + 1));
          kept := kept + [ids[i]];
          added := added + [timer];
        } else {
          assert dropped + [ids[i]] + FailedArming(ids, createOk, settimeOk, i + 1)
            == dropped + ([ids[i]] + FailedArming(ids, createOk, settimeOk, i + 1));
          dropped := dropped + [ids[i]];
        }
      }
      i := i + 1;
    }
  }

  /** The sequencer: the services and the ids of the timers it armed. */
  class TimerSequencer {
    var services: seq<TimedService>
    var timerIds: seq<int>
    /** What each kept timer was armed with, and the ids handed to
        `timer_delete` so far. */
    ghost var armed: seq<Armed>
    ghost var deleted: seq<int>

    ghost predicate Valid()
      reads this, services
    {
      && |armed| == |timerIds|
      && (forall i :: 0 <= i < |armed| ==> armed[i].id == timerIds[i])
      && (forall i, j :: 0 <= i < j < |services| ==> services[i] != services[j])
      && (forall i :: 0 <= i < |services| ==> services[i].Valid() && services[i].semAlive)
    }

    constructor (services: seq<TimedService>)
      requires forall i, j :: 0 <= i < j < |services| ==> services[i] != services[j]
      requires forall i :: 0 <= i < |services| ==> services[i].Valid() && services[i].semAlive
      ensures Valid() && this.services == services && timerIds == [] && deleted == []
    {
      this.services := services;
      timerIds := [];
      armed := [];
      deleted := [];
    }

    /** `startServices`: for service `i`, `timer_create` succeeds with
        `createOk[i]` and yields `ids[i]`, and `timer_settime` succeeds
        with `settimeOk[i]`. A failure skips that service only; a timer
        whose arming failed is deleted; only armed timers are kept. */
    method StartServices(ids: seq<int>, createOk: seq<bool>, settimeOk: seq<bool>)
      requires Valid()
      requires |ids| == |createOk| == |settimeOk| == |services|
      modifies this`timerIds, this`armed, this`deleted
      ensures Valid()
      ensures armed == old(armed) + ArmedTimers(Periods(services), ids, createOk, settimeOk, 0)
      ensures deleted == old(deleted) + FailedArming(ids, createOk, settimeOk, 0)
    {
      var kept, added, dropped := ArmTimers(Periods(services), ids, createOk, settimeOk);
      timerIds := timerIds + kept;
      armed := armed + added;
      deleted := deleted + dropped;
    }

    /** `stopServices`: every kept timer is deleted and the list cleared;
        then every service is stopped, in order, and reports. `postOk[i]`
        is the outcome of service `i`'s final `sem_post`. */
    method StopServices(postOk: seq<bool>) returns (reports: seq<Report>)
      requires Valid() && |postOk| == |services|
      modifies this`timerIds, this`armed, this`deleted, services
      ensures timerIds == [] && armed == [] && deleted == old(deleted) + old(timerIds)
      ensures |reports| == |services|
      ensures forall i :: 0 <= i < |services| ==> services[i].StoppedWith(old(services[i].execs), reports[i])
    {
      deleted := deleted + timerIds;
      timerIds := [];
      armed := [];
      reports := [];
      var i := 0;
      while i < |services|
        invariant 0 <= i <= |services| && |reports| == i
        invariant forall a, b :: 0 <= a < b < |services| ==> services[a] != services[b]
        invariant forall k :: 0 <= k < i ==> services[k].StoppedWith(old(services[k].execs), reports[k])
        invariant forall k :: i <= k < |services| ==> unchanged(services[k])
        invariant timerIds == [] && armed == [] && deleted == old(deleted) + old(timerIds)
      {
        var r := services[i].Stop(postOk[i]);
        reports := reports + [r];
        i := i + 1;
      }
    }
  }

  function Periods(services: seq<TimedService>): (r: seq<uint32>)
    ensures |r| == |services|
  {
    seq(|services|, i requires 0 <= i < |services| => services[i].period)
  }

  /** The ids of timers that were created but could not be armed. */
  function FailedArming(ids: seq<int>, createOk: seq<bool>, settimeOk: seq<bool>, from: nat): seq<int>
    requires |ids| == |createOk| == |settimeOk| && from <= |ids|
    decreases |ids| - from
  {
    if from == |ids| then []
    else
      var rest := FailedArming(ids, createOk, settimeOk, from + 1);
      if createOk[from] && !settimeOk[from] then [ids[from]] + rest else rest
  }

  /** Every kept timer belongs to a service whose creation and arming both
      succeeded, and was armed with that service's period. */
  lemma {:induction false} ArmedTimersSound(periods: seq<uint32>, ids: seq<int>, createOk: seq<bool>, settimeOk: seq<bool>, from: nat, k: nat)
    requires |ids| == |createOk| == |settimeOk| == |periods| && from <= |periods|
    requires k < |ArmedTimers(periods, ids, createOk, settimeOk, from)|
    ensures var a := ArmedTimers(periods, ids, createOk, settimeOk, from)[k];
      from <= a.service < |periods| && createOk[a.service] && settimeOk[a.service]
      && a.id == ids[a.service] && a.setting == ItimerValue(periods[a.service])
    decreases |periods| - from
  {
    var rest := ArmedTimers(periods, ids, createOk, settimeOk, from + 1);
    if createOk[from] && settimeOk[from] {
      if k > 0 {
        ArmedTimersSound(periods, ids, createOk, settimeOk, from + 1, k - 1);
      }
    } else {
      ArmedTimersSound(periods, ids, createOk, settimeOk, from + 1, k);
    }
  }

  /** When every call succeeds, every service gets exactly one timer. */
  lemma {:induction false} AllArmed(periods: seq<uint32>, ids: seq<int>, createOk: seq<bool>, settimeOk: seq<bool>, from: nat)
    requires |ids| == |createOk| == |settimeOk| == |periods| && from <= |periods|
    requires forall i :: 0 <= i < |periods| ==> createOk[i] && settimeOk[i]
    ensures |ArmedTimers(periods, ids, createOk, settimeOk, from)| == |periods| - from
    decreases |periods| - from
  {
    if from < |periods| {
      AllArmed(periods, ids, createOk, settimeOk, from + 1);
    }
  }
}
