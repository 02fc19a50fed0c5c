/** The capture service's four memory-mapped camera buffers. A flag per
    buffer records whether the program holds it (dequeued) or the driver
    does (queued); a rotating index points at the oldest buffer to give
    back. Every driver call and every message send is an outcome passed in. */
module FramePool {
  import opened Wrappers
  import opened CArith
  import opened FrameTransport

  const NUM_OF_MEM_BUFFERS: nat := 4

  /** The outcomes of the driver calls made while setting the camera up. */
  datatype InitEnv = InitEnv(
    openOk: bool, querycapOk: bool, canCapture: bool, canStream: bool,
    setFormatOk: bool, pixelFormat: uint32, width: int, height: int,
    reqbufsOk: bool, grantedCount: nat,
    querybufOk: seq<bool>, mmapOk: seq<bool>, qbufOk: seq<bool>,
    streamonOk: bool)

  predicate InitEnvComplete(e: InitEnv)
  {
    |e.querybufOk| == |e.mmapOk| == |e.qbufOk| == NUM_OF_MEM_BUFFERS
  }

  /** The device is open and delivers YUYV frames. */
  predicate FormatAccepted(e: InitEnv)
  {
    e.openOk && e.querycapOk && e.canCapture && e.canStream && e.setFormatOk && e.pixelFormat == YUYV
  }

  /** The number of buffers, from the first, that were queried, mapped and
      queued before the first failure. */
  function BuffersQueued(e: InitEnv, from: nat): (k: nat)
    requires InitEnvComplete(e) && from <= NUM_OF_MEM_BUFFERS
    ensures from <= k <= NUM_OF_MEM_BUFFERS
    decreases NUM_OF_MEM_BUFFERS - from
  {
    if from == NUM_OF_MEM_BUFFERS then from
    else if e.querybufOk[from] && e.mmapOk[from] && e.qbufOk[from] then BuffersQueued(e, from + 1)
    else from
  }

  predicate InitSucceeds(e: InitEnv)
    requires InitEnvComplete(e)
  {
    && FormatAccepted(e) && e.reqbufsOk && e.grantedCount >= NUM_OF_MEM_BUFFERS
    && BuffersQueued(e, 0) == NUM_OF_MEM_BUFFERS && e.streamonOk
  }

  /** The outcomes of the calls made for one frame: the dequeue and the
      index and byte count it reports, the two sends, the re-queue of the
      same buffer after a failed send, the re-queue attempted at each
      position of the rotation scan, and the fallback re-queue. */
  datatype StepEnv = StepEnv(
    dqbufOk: bool, index: nat, bytesUsed: nat,
    headerSent: bool, frameSent: bool, requeueOk: bool,
    scanQbufOk: seq<bool>, fallbackQbufOk: bool)

  datatype Outcome =
    | NotInitialised
    | NoFrame
    | BadIndex(index: nat)
    | HeaderFailed(index: nat)
    | FrameFailed(index: nat)
    | Published(index: nat, header: FrameMetadata, requeued: Option<nat>)

  /** The flags and the rotating index. */
  datatype Pool = Pool(flags: seq<bool>, next: nat)

  predicate PoolValid(p: Pool)
  {
    |p.flags| == NUM_OF_MEM_BUFFERS && p.next < NUM_OF_MEM_BUFFERS
  }

  function Slot(next: nat, i: nat): nat
  {
    (next + i) % NUM_OF_MEM_BUFFERS
  }

  /** The rotation scan from position `from`: the first position `i` whose
      buffer `(next + i) mod 4` is dequeued and whose re-queue succeeds. */
  function ScanFrom(flags: seq<bool>, next: nat, qbufOk: seq<bool>, from: nat): (r: Option<nat>)
    requires |flags| == |qbufOk| == NUM_OF_MEM_BUFFERS && from <= NUM_OF_MEM_BUFFERS
    ensures r.Some? ==> (from <= r.value < NUM_OF_MEM_BUFFERS
      && flags[Slot(next, r.value)] && qbufOk[r.value])
    ensures r.Some? ==> forall j :: from <= j < r.value ==> !(flags[Slot(next, j)] && qbufOk[j])
    ensures r.None? ==> forall j :: from <= j < NUM_OF_MEM_BUFFERS ==> !(flags[Slot(next, j)] && qbufOk[j])
    decreases NUM_OF_MEM_BUFFERS - from
  {
    if from == NUM_OF_MEM_BUFFERS then None
    else if flags[Slot(next, from)] && qbufOk[from] then Some(from)
    else ScanFrom(flags, next, qbufOk, from + 1)
  }

  /** What follows a published frame: the rotation scan; if it re-queued
      nothing, one more try at `next` if that buffer is still dequeued.
      A re-queued buffer is marked queued and `next` moves just past it. */
  function Requeue(p: Pool, scanOk: seq<bool>, fallbackOk: bool): (r: (Pool, Option<nat>))
    requires PoolValid(p) && |scanOk| == NUM_OF_MEM_BUFFERS
    ensures PoolValid(r.0)
    ensures r.1.Some? ==> (r.1.value < NUM_OF_MEM_BUFFERS && p.flags[r.1.value]
      && r.0 == Pool(p.flags[r.1.value := false], (r.1.value + 1) % NUM_OF_MEM_BUFFERS))
    ensures r.1.None? ==> r.0 == p
  {
    match ScanFrom(p.flags, p.next, scanOk, 0)
    case Some(i) =>
      var t := Slot(p.next, i);
      (Pool(p.flags[t := false], (t + 1) % NUM_OF_MEM_BUFFERS), Some(t))
    case None =>
      if p.flags[p.next] && fallbackOk then
        (Pool(p.flags[p.next := false], (p.next + 1) % NUM_OF_MEM_BUFFERS), Some(p.next))
      else (p, None)
  }

  /** The state of `imageCaptureService` and of `free_buffer`. */
  class CaptureService {
    var initialized: bool
    const dequeued: array<bool>
    var nextOverwrite: nat
    var width: int
    var height: int
    /** The byte count last reported for each buffer. */
    var bytesUsed: seq<nat>
    /** One entry per zero-copy frame message still alive, naming its
        buffer; `free_buffer` will run for each. */
    ghost var inFlight: multiset<nat>

    ghost predicate Valid()
      reads this
    {
      && dequeued.Length == NUM_OF_MEM_BUFFERS
      && nextOverwrite < NUM_OF_MEM_BUFFERS
      && |bytesUsed| == NUM_OF_MEM_BUFFERS
      && forall i :: i in inFlight ==> i < NUM_OF_MEM_BUFFERS
    }

    ghost function State(): Pool
      reads this, dequeued
    {
      Pool(dequeued[..], nextOverwrite)
    }

    constructor ()
      ensures Valid() && fresh(dequeued) && !initialized
      ensures State() == Pool([false, false, false, false], 0) && inFlight == multiset{}
    {
      initialized := false;
      dequeued := new bool[NUM_OF_MEM_BUFFERS](_ => false);
      nextOverwrite := 0;
      width := 0;
      height := 0;
      bytesUsed := [0, 0, 0, 0];
      inFlight := multiset{};
      new;
      assert dequeued[..] == [false, false, false, false];
    }

    /** The set-up block: each failure returns with `initialized` still
        false so that the next call starts over; the width and height are
        stored once the format is accepted; each buffer that is queued is
        marked queued. */
    method Initialize(e: InitEnv)
      requires Valid() && !initialized && InitEnvComplete(e)
      modifies this`initialized, this`width, this`height, dequeued
      ensures Valid()
      ensures initialized == InitSucceeds(e)
      ensures FormatAccepted(e) ==> width == e.width && height == e.height
      ensures !FormatAccepted(e) ==> width == old(width) && height == old(height)
      ensures var k := if FormatAccepted(e) && e.reqbufsOk && e.grantedCount >= NUM_OF_MEM_BUFFERS then BuffersQueued(e, 0) else 0;
        forall i :: 0 <= i < NUM_OF_MEM_BUFFERS ==> dequeued[i] == (if i < k then false else old(dequeued[i]))
    {
      if !FormatAccepted(e) {
        return;
      }
      width := e.width;
      height := e.height;
      if !e.reqbufsOk || e.grantedCount < NUM_OF_MEM_BUFFERS {
        return;
      }
      var i := 0;
      while i < NUM_OF_MEM_BUFFERS
        invariant 0 <= i <= NUM_OF_MEM_BUFFERS && i <= BuffersQueued(e, 0)
        invariant BuffersQueued(e, i) == BuffersQueued(e, 0)
        invariant !initialized && width == e.width && height == e.height
        invariant forall j :: 0 <= j < NUM_OF_MEM_BUFFERS ==> dequeued[j] == (if j < i then false else old(dequeued[j]))
      {
        if !e.querybufOk[i] || !e.mmapOk[i] || !e.qbufOk[i] {
          return;
        }
        dequeued[i] := false;
        i := i + 1;
      }
      if !e.streamonOk {
        return;
      }
      initialized := true;
    }

    /** Re-queue of the same buffer after a failed send: it is marked queued
        only if the driver took it. */
    method RequeueSame(index: nat, ok: bool)
      requires Valid() && index < NUM_OF_MEM_BUFFERS
      modifies dequeued
      ensures dequeued[..] == old(dequeued[..])[index := if ok then false else old(dequeued[index])]
    {
      if ok {
        dequeued[index] := false;
      }
    }

    /** The rotation scan and its fallback, after a frame went out. */
    method Rotate(scanOk: seq<bool>, fallbackOk: bool) returns (requeued: Option<nat>)
      requires Valid() && |scanOk| == NUM_OF_MEM_BUFFERS
      modifies this`nextOverwrite, dequeued
      ensures Valid()
      ensures (State(), requeued) == Requeue(old(State()), scanOk, fallbackOk)
    {
      ghost var start := State();
      ghost var expected := Requeue(start, scanOk, fallbackOk);
      var queued := false;
      requeued := None;
      var i := 0;
      while i < NUM_OF_MEM_BUFFERS
        invariant 0 <= i <= NUM_OF_MEM_BUFFERS && Valid()
        invariant !queued ==> State() == start && requeued.None?
        invariant !queued ==> ScanFrom(start.flags, start.next, scanOk, 0) == ScanFrom(start.flags, start.next, scanOk, i)
        invariant queued ==> (State(), requeued) == expected
      {
        var tryIndex := (nextOverwrite + i) % NUM_OF_MEM_BUFFERS;
        if dequeued[tryIndex] && scanOk[i] {
          dequeued[tryIndex] := false;
          nextOverwrite := (tryIndex + 1) % NUM_OF_MEM_BUFFERS;
          requeued := Some(tryIndex);
          queued := true;
          break;
        }
        i := i + 1;
      }
      if !queued {
        var overwriteIndex := nextOverwrite;
        if dequeued[overwriteIndex] && fallbackOk {
          dequeued[overwriteIndex] := false;
          nextOverwrite := (overwriteIndex + 1) % NUM_OF_MEM_BUFFERS;
          requeued := Some(overwriteIndex);
        }
      }
    }

    /** One frame, once the camera is set up: dequeue, hand a bad index
        back, mark the buffer dequeued, publish header and frame, and either
        re-queue the same buffer after a failed send or rotate. */
    method Capture(e: StepEnv) returns (outcome: Outcome)
      requires Valid() && initialized && |e.scanQbufOk| == NUM_OF_MEM_BUFFERS
      modifies this`nextOverwrite, this`bytesUsed, this`inFlight, dequeued
      ensures Valid()
      ensures !e.dqbufOk ==> outcome == NoFrame
      ensures e.dqbufOk && e.index >= NUM_OF_MEM_BUFFERS ==> outcome == BadIndex(e.index)
      ensures !e.dqbufOk || e.index >= NUM_OF_MEM_BUFFERS ==>
        State() == old(State()) && bytesUsed == old(bytesUsed) && inFlight == old(inFlight)
      ensures e.dqbufOk && e.index < NUM_OF_MEM_BUFFERS ==>
        var i := e.index;
        var held := old(dequeued[..])[i := true];
        && bytesUsed == old(bytesUsed)[i := e.bytesUsed]
        && (!e.headerSent ==> outcome == HeaderFailed(i))
        && (e.headerSent && !e.frameSent ==> outcome == FrameFailed(i))
        && (!(e.headerSent && e.frameSent) ==>
              State() == Pool(held[i := !e.requeueOk], old(nextOverwrite)) && inFlight == old(inFlight))
        && (e.headerSent && e.frameSent ==>
              var (after, requeued) := Requeue(Pool(held, old(nextOverwrite)), e.scanQbufOk, e.fallbackQbufOk);
              && outcome == Published(i, FrameMetadata(width, height, YUYV, e.bytesUsed), requeued)
              && State() == after && inFlight == old(inFlight) + multiset{i})
    {
      if !e.dqbufOk {
        return NoFrame;
      }
      var index := e.index;
      if index >= NUM_OF_MEM_BUFFERS {
        return BadIndex(index);
      }
      bytesUsed := bytesUsed[index := e.bytesUsed];
      dequeued[index] := true;
      var header := FrameMetadata(width, height, YUYV, e.bytesUsed);
      if !e.headerSent {
        RequeueSame(index, e.requeueOk);
        return HeaderFailed(index);
      }
      if !e.frameSent {
        RequeueSame(index, e.requeueOk);
        return FrameFailed(index);
      }
      inFlight := inFlight + multiset{index};
      var requeued := Rotate(e.scanQbufOk, e.fallbackQbufOk);
      outcome := Published(index, header, requeued);
    }

    /** `imageCaptureService`: set the camera up if that has not succeeded
        yet, then handle one frame. */
    method Run(init: InitEnv, e: StepEnv) returns (outcome: Outcome)
      requires Valid() && InitEnvComplete(init) && |e.scanQbufOk| == NUM_OF_MEM_BUFFERS
      modifies this, dequeued
      ensures Valid()
      ensures !old(initialized) && !InitSucceeds(init) ==> outcome == NotInitialised && !initialized
      ensures outcome != NotInitialised ==> initialized
    {
      if !initialized {
        Initialize(init);
        if !initialized {
          return NotInitialised;
        }
      }
      outcome := Capture(e);
    }

    /** `free_buffer`, the completion callback of a zero-copy frame
        message: the buffer is marked dequeued, then queued again if the
        driver takes it back; the callback's context is released. */
    method FreeBuffer(index: nat, qbufOk: bool)
      requires Valid() && index in inFlight
      modifies dequeued, this`inFlight
      ensures Valid()
      ensures dequeued[..] == old(dequeued[..])[index := !qbufOk]
      ensures inFlight == old(inFlight) - multiset{index}
    {
      dequeued[index] := true;
      if qbufOk {
        dequeued[index] := false;
      }
      inFlight := inFlight - multiset{index};
    }
  }

  /** The rotating index always names one of the four buffers, and a scan
      re-queues at most one buffer, the first dequeued one in rotation order
      from `next` whose re-queue succeeds. */
  lemma {:induction false} ScanTakesFirstInRotation(p: Pool, scanOk: seq<bool>, i: nat)
    requires PoolValid(p) && |scanOk| == NUM_OF_MEM_BUFFERS
    requires i < NUM_OF_MEM_BUFFERS && p.flags[Slot(p.next, i)] && scanOk[i]
    ensures Requeue(p, scanOk, false).1.Some?
    ensures var t := Requeue(p, scanOk, false).1.value;
      exists k :: 0 <= k <= i && t == Slot(p.next, k)
  {
    var r := ScanFrom(p.flags, p.next, scanOk, 0);
    assert r.Some?;
    assert r.value <= i;
  }

  /** The first hazard: right after buffer `i` is published, a scan in
      which only `i` is dequeued gives `i` back to the driver, although the
      frame message still points into it. */
  lemma PublishedBufferRequeued(flags: seq<bool>, next: nat, i: nat, scanOk: seq<bool>)
    requires |flags| == NUM_OF_MEM_BUFFERS && next < NUM_OF_MEM_BUFFERS && i < NUM_OF_MEM_BUFFERS
    requires forall j :: 0 <= j < NUM_OF_MEM_BUFFERS ==> !flags[j]
    requires scanOk == [true, true, true, true]
    ensures Requeue(Pool(flags[i := true], next), scanOk, false).1 == Some(i)
    ensures !Requeue(Pool(flags[i := true], next), scanOk, false).0.flags[i]
  {
    var held := flags[i := true];
    var k := if i >= next then i - next else i + NUM_OF_MEM_BUFFERS - next;
    assert Slot(next, k) == i;
    ScanTakesFirstInRotation(Pool(held, next), scanOk, k);
    var t := Requeue(Pool(held, next), scanOk, false).1.value;
    assert held[t];
  }

  /** The second hazard: when a published frame's message is finally
      released, `free_buffer` marks its buffer dequeued whatever its flag
      was, even when a scan has already given the buffer back to the driver
      (flag clear). If the driver refuses that re-queue (`FreeBuffer` with
      `qbufOk` false, whose new flags are `flags[i := true]`), the flag
      stays set, and the next scan hands the buffer to the driver once more
      as soon as it is the first re-queueable one in rotation order. */
  lemma FreeBufferRemarksQueued(p: Pool, i: nat, k: nat, scanOk: seq<bool>, fallbackOk: bool)
    requires PoolValid(p) && |scanOk| == NUM_OF_MEM_BUFFERS
    requires i < NUM_OF_MEM_BUFFERS && k < NUM_OF_MEM_BUFFERS && Slot(p.next, k) == i && scanOk[k]
    requires forall j :: 0 <= j < k ==> !(p.flags[Slot(p.next, j)] && scanOk[j])
    ensures var afterFree := Pool(p.flags[i := true], p.next);
      && afterFree.flags[i]
      && Requeue(afterFree, scanOk, fallbackOk).1 == Some(i)
      && !Requeue(afterFree, scanOk, fallbackOk).0.flags[i]
  {
  }
}
