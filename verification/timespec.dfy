/** `struct timespec` arithmetic of the two schedulers and of the eye
    detector's timing: carry after adding a period, borrow after subtracting
    two clock readings. A clock reading is an input here. */
module Timespec {
  import opened Wrappers

  const MS_TO_NS: int := 1_000_000
  const NS_PER_SEC: int := 1_000_000_000

  datatype Timespec = Timespec(sec: int, nsec: int)

  /** The instant a `timespec` denotes, in nanoseconds. */
  function Total(t: Timespec): int { t.sec * 1_000_000_000 + t.nsec }

  /** The form `clock_gettime` produces: nanoseconds below one second. */
  predicate Normalised(t: Timespec) { 0 <= t.nsec < NS_PER_SEC }

  /** `Service::calcNextRelease`: the new value of `*new_release_time`.
      `None` stands for a null pointer; with either pointer null the target is
      left as it was. Otherwise the period is added to the nanoseconds and at
      most one second is carried, only when the nanoseconds strictly exceed
      one second. */
  function CalcNextRelease(current: Option<Timespec>, target: Option<Timespec>, periodMs: nat)
    : (r: Option<Timespec>)
    ensures current.None? || target.None? ==> r == target
    ensures current.Some? && target.Some? ==>
      r.Some? && Total(r.value) == Total(current.value) + periodMs * MS_TO_NS
    ensures current.Some? && target.Some? ==>
      r.value.sec - current.value.sec == (if current.value.nsec + periodMs * MS_TO_NS > NS_PER_SEC then 1 else 0)
  {
    if current.None? || target.None? then target
    else
      var nsec := current.value.nsec + periodMs * MS_TO_NS;
      if nsec > NS_PER_SEC then Some(Timespec(current.value.sec + 1, nsec - NS_PER_SEC))
      else Some(Timespec(current.value.sec, nsec))
  }

  /** The deadline advance of `Sequencer::_runTimer`: whole seconds and the
      remaining nanoseconds of the period are added separately, then one
      carry is made when the nanoseconds reach one second. */
  function AdvanceDeadline(t: Timespec, periodMs: nat): (r: Timespec)
    ensures Total(r) == Total(t) + periodMs * MS_TO_NS
    ensures Normalised(t) ==> Normalised(r)
  {
    var periodNs := periodMs * MS_TO_NS;
    var sec := t.sec + periodNs / NS_PER_SEC;
    var nsec := t.nsec + periodNs % NS_PER_SEC;
    if nsec >= NS_PER_SEC then Timespec(sec + 1, nsec - NS_PER_SEC) else Timespec(sec, nsec)
  }

  /** `_delta_t`: `stop - start`, borrowing one second when the nanosecond
      difference is negative. */
  function DeltaT(stop: Timespec, start: Timespec): (r: Timespec)
    ensures Total(r) == Total(stop) - Total(start)
    ensures Normalised(stop) && Normalised(start) ==> Normalised(r)
  {
    var dtSec := stop.sec - start.sec;
    var dtNsec := stop.nsec - start.nsec;
    if dtNsec >= 0 then Timespec(dtSec, dtNsec) else Timespec(dtSec - 1, NS_PER_SEC + dtNsec)
  }

  /** `_delta_t` followed by reading the difference as nanoseconds, as the
      worker does for its start deviation and its execution time. */
  method ElapsedNs(stop: Timespec, start: Timespec) returns (ns: int)
    ensures ns == Total(stop) - Total(start)
  {
    var delta := DeltaT(stop, start);
    ns := delta.nsec + 1_000_000_000 * delta.sec;
  }

  /** `delta_t` of the eye detector: the same borrow, written out separately
      for a negative and a non-negative seconds difference. */
  function DeltaTSigned(stop: Timespec, start: Timespec): (r: Timespec)
    ensures Total(r) == Total(stop) - Total(start)
    ensures Normalised(stop) && Normalised(start) ==> Normalised(r)
  {
    var dtSec := stop.sec - start.sec;
    var dtNsec := stop.nsec - start.nsec;
    if dtSec >= 0 then
      if dtNsec >= 0 then Timespec(dtSec, dtNsec) else Timespec(dtSec - 1, NS_PER_SEC + dtNsec)
    else
      if dtNsec >= 0 then Timespec(dtSec, dtNsec) else Timespec(dtSec - 1, NS_PER_SEC + dtNsec)
  }

  /** The release test of `_runTimer`: seconds first, then nanoseconds. */
  predicate Due(deadline: Timespec, now: Timespec)
  {
    now.sec > deadline.sec || (now.sec == deadline.sec && now.nsec >= deadline.nsec)
  }
}

/** What the `timespec` helpers guarantee beyond their single results. */
module TimespecFacts {
  import opened Wrappers
  import opened Timespec

  /** The two spellings of the borrow agree on every input. */
  lemma DeltaTAgree(stop: Timespec, start: Timespec)
    ensures DeltaTSigned(stop, start) == DeltaT(stop, start)
  {
  }

  /** For clock readings the field-wise release test is the comparison of
      instants. */
  lemma DueIsLater(deadline: Timespec, now: Timespec)
    requires Normalised(deadline) && Normalised(now)
    ensures Due(deadline, now) <==> Total(now) >= Total(deadline)
  {
    if now.sec > deadline.sec {
      assert Total(now) >= (deadline.sec + 1) * NS_PER_SEC;
    } else if now.sec < deadline.sec {
      assert Total(deadline) >= (now.sec + 1) * NS_PER_SEC;
    }
  }

  /** `calcNextRelease` yields a normalised result from a normalised reading
      exactly when the sum of nanoseconds is below one second, or strictly
      between one and two seconds. */
  lemma CalcNextReleaseNormalisedIff(current: Timespec, target: Timespec, periodMs: nat)
    requires Normalised(current)
    ensures var r := CalcNextRelease(Some(current), Some(target), periodMs).value;
      var sum := current.nsec + periodMs * MS_TO_NS;
      Normalised(r) <==> sum < NS_PER_SEC || NS_PER_SEC < sum < 2 * NS_PER_SEC
  {
  }

  /** The strict carry test lets nanoseconds of exactly one second through:
      a reading at `x.5 s` with a 500 ms period gives `{x, 1000000000}`. */
  lemma CalcNextReleaseExactSecond(sec: int)
    ensures CalcNextRelease(Some(Timespec(sec, 500_000_000)), Some(Timespec(0, 0)), 500)
      == Some(Timespec(sec, NS_PER_SEC))
  {
  }

  /** A period of two seconds or more is never brought back below one second
      by the single carry. */
  lemma CalcNextReleaseLongPeriod(current: Timespec, target: Timespec, periodMs: nat)
    requires Normalised(current) && periodMs >= 2000
    ensures !Normalised(CalcNextRelease(Some(current), Some(target), periodMs).value)
  {
  }

  /** Advancing `k` times from a deadline lands exactly `k` periods later:
      deadlines never drift, whatever the clock said in between. */
  lemma {:induction false} AdvanceNoDrift(t: Timespec, periodMs: nat, k: nat)
    ensures Total(AdvanceN(t, periodMs, k)) == Total(t) + k * (periodMs * MS_TO_NS)
    ensures Normalised(t) ==> Normalised(AdvanceN(t, periodMs, k))
  {
    if k > 0 {
      AdvanceNoDrift(t, periodMs, k - 1);
      var step := periodMs * MS_TO_NS;
      assert k * step == (k - 1) * step + step;
    }
  }

  function AdvanceN(t: Timespec, periodMs: nat, k: nat): Timespec
  {
    if k == 0 then t else AdvanceDeadline(AdvanceN(t, periodMs, k - 1), periodMs)
  }
}
