# Camera → detector → cursor pipeline: a verified model

This project models the integer and bookkeeping logic of a real-time head
and eye tracking pipeline that moves a mouse pointer. The pipeline has five
parts:

- **Capture service.** It dequeues YUYV frames from a four-buffer V4L2 pool.
  Each frame goes out as a two-part message: a fixed-size `FrameMetadata`
  header, then the zero-copy payload. A rotating index decides which buffer
  goes back to the driver.
- **Detectors.** Each one drains the frame queue, applies the same four
  checks to every message, and turns each accepted frame into a face centre
  (sent as `"FaceCenter:<x>,<y>"`) or a steadied eyeball position.
- **Cursor translator.** It parses `"Center:<x>,<y>"` messages, mirrors x,
  averages the last five points, maps the result through a calibration read
  from a CSV file, and clamps it to a 1920×1080 display.
- **Two schedulers.**
  - A self-driven timer thread releases each service whose deadline has
    passed and advances that deadline by one period.
  - An earlier variant uses one POSIX interval timer per service.
  - In both, each service's worker keeps execution-time and start-jitter
    statistics.
- **Calibration tools and a Base64 codec.**
  - The two tools capture five reference positions and write the CSV file
    that the translator loads.
  - The codec implements RFC 4648, section 4, with padding as in section 3.2.

The model works as follows:

- **Oracles.** Every operating-system, OpenCV and ZeroMQ call is an outcome
  passed in: ioctl and send results, detector outputs, key presses and clock
  readings.
- **State.** State that the source changes in place is a Dafny `class`:
  - the buffer flags (an `array<bool>`) and the rotating index;
  - the scheduler's deadline vector;
  - the services' statistics;
  - the detectors' and the translator's static and global state.
- **Spec functions.** Each such method is proved equal to a function of its
  inputs, and the source's promises are proved as lemmas about those
  functions.
- **Time and numbers.** Time is integer nanoseconds and durations are
  `real`.
- **C semantics.** C's truncating `/` and `%`, in-range float-to-int
  truncation, `round`, `cvRound` and the 32-bit casts are written out in
  `CArith`. The conversion of a non-finite or out-of-range value, which C++
  leaves undefined, is fixed in `Cursor.FloatToInt` to the x86-64 answer.

Some helpers exist twice in the source: `eyeBallDetection`, `detectLeftEye`,
`makeStable` and the face-centre arithmetic appear both in the detectors and
in the calibration tools. Each is defined once, in `Geometry`. The copies in
the calibration tools match those in `src/ImageProcessing.cpp` and
`faceEyeMovToCursorMov/src/ImageProcessing.cpp`. The one difference is that
the eye tool rounds the circle centre with `cvRound`, where the detector
truncates it. `Calibration.RoundedEyeball` models the eye tool's version.

Files:

| file | models |
|---|---|
| `carith.dfy` | C integer and conversion semantics |
| `decimal.dfy` | `%d` output and `sscanf` `%d` input, and their round trip |
| `timespec.dfy` | `timespec` carry and borrow |
| `release_scheduler.dfy` | `inc/Sequencer.hpp` |
| `timer_scheduler.dfy` | `faceEyeMovToCursorMov/inc/Sequencer.hpp` |
| `frame_transport.dfy` | the `FrameMetadata` wire form and the receive checks |
| `frame_pool.dfy` | `faceEyeMovToCursorMov/src/ImageCapture.cpp` |
| `geometry.dfy` | the shared detection helpers |
| `face_detection.dfy` | `faceEyeMovToCursorMov/src/ImageProcessing.cpp` |
| `eye_detection.dfy` | `src/ImageProcessing.cpp` |
| `cursor.dfy` | `faceEyeMovToCursorMov/src/CursorTranslation.cpp` |
| `base64.dfy`, `base64_facts.dfy` | `src/base64.cpp` |
| `calibration.dfy` | both `calibration.cpp` tools |

## Model

| member | source | states |
|---|---|---|
| Timespec.CalcNextRelease | inc/Sequencer.hpp:87-100 | A null pointer leaves the target unchanged. Otherwise the result is `current + period` ms, and one second is carried only when the nanoseconds strictly exceed one second. |
| Timespec.AdvanceDeadline | inc/Sequencer.hpp:316-322 | Adding seconds and nanoseconds separately, with one `>=` carry, adds exactly the period and keeps nanoseconds in [0, 1e9) for a normalised deadline. |
| Timespec.DeltaT | inc/Sequencer.hpp:329-346 | The result is `stop - start`, and it is normalised when both readings are. |
| Timespec.DeltaTSigned | src/ImageProcessing.cpp:10-32 | Both sign branches of `delta_t` give `stop - start`, normalised for normalised readings. |
| Timespec.ElapsedNs | inc/Sequencer.hpp:157-160 | The borrowed difference, read as nanoseconds, is exactly the time elapsed from start to stop. |
| TimespecFacts.DeltaTAgree | src/ImageProcessing.cpp:14-30 | The detector's four-branch `delta_t` equals the scheduler's `_delta_t` on every input. |
| TimespecFacts.DueIsLater | inc/Sequencer.hpp:311-312 | For clock readings, the field-wise release test holds iff now ≥ deadline. |
| TimespecFacts.CalcNextReleaseNormalisedIff | inc/Sequencer.hpp:93-99 | The result is normalised iff the nanosecond sum is below 1 s or strictly between 1 s and 2 s. |
| TimespecFacts.CalcNextReleaseExactSecond | inc/Sequencer.hpp:95-99 | The strict carry test lets nsec == 1e9 through: x.5 s plus 500 ms gives {x, 1000000000}. |
| TimespecFacts.CalcNextReleaseLongPeriod | inc/Sequencer.hpp:93-99 | A period of 2000 ms or more always gives an un-normalised result. |
| TimespecFacts.AdvanceNoDrift | inc/Sequencer.hpp:307-324 | k advances from a deadline land exactly k periods later (no drift), and stay normalised. |
| CArith.TruncDiv | faceEyeMovToCursorMov/inc/Sequencer.hpp:227 | C division truncates toward zero: the remainder has the dividend's sign and is smaller than the divisor. |
| CArith.TruncMod | faceEyeMovToCursorMov/inc/Sequencer.hpp:228 | C `%`: `a == b*(a/b) + a%b`, with the remainder's sign following the dividend. |
| CArith.Trunc | src/ImageProcessing.cpp:142 | Float-to-int conversion truncates toward zero. |
| CArith.Round | src/ImageProcessing.cpp:41-42 | `round` gives the nearest integer, with halves away from zero. |
| CArith.CvRound | eyeCalibrationService/calibration.cpp:128 | `cvRound` gives the nearest integer, with exact halves going to the even neighbour. |
| CArith.Uint32ToInt32 | faceEyeMovToCursorMov/inc/Sequencer.hpp:225 | A `uint32_t` read into an `int` keeps values up to INT32_MAX and wraps larger ones modulo 2^32. |
| CArith.Int32ToUint32 | faceEyeMovToCursorMov/src/ImageCapture.cpp:185-195 | The two's-complement pattern of an `int` is the exact inverse of `Uint32ToInt32`. |
| ReleaseScheduler.MinFoldBounds | inc/Sequencer.hpp:165-171 | The running minimum is ≤ every sample, and is the initial value or one of the samples. |
| ReleaseScheduler.MaxFoldBounds | inc/Sequencer.hpp:167-173 | The running maximum is ≥ every sample, and is the initial value or one of the samples. |
| ReleaseScheduler.Service.constructor | inc/Sequencer.hpp:28-37 | Affinity, priority and period are stored, the service is running, the semaphore is 0, and the first expected start is the worker's first clock reading. |
| ReleaseScheduler.Service.Release | inc/Sequencer.hpp:83-86 | The `counting_semaphore<1>` goes from 0 to 1. |
| ReleaseScheduler.Service.Activate | inc/Sequencer.hpp:138-181 | The release is consumed. The callback runs only if the service is still running; then it records the execution time and the start deviation, and sets the next expected start by `calcNextRelease`. |
| ReleaseScheduler.Service.Record | inc/Sequencer.hpp:156-174 | The count goes up by one. The extremes equal the min and max over the samples from activation 11 on (the warm-up invariant). |
| ReleaseScheduler.Service.RecordExec | inc/Sequencer.hpp:163-168 | The execution-time extremes stay the min and max over the samples from activation 11 on. |
| ReleaseScheduler.Service.RecordStart | inc/Sequencer.hpp:163-173 | The start-deviation extremes stay the min and max over the samples from activation 11 on. |
| ReleaseScheduler.Service.Stop | inc/Sequencer.hpp:73-81 | The service stops running, and its statistics invariant still holds. |
| ReleaseScheduler.StatsStep | inc/Sequencer.hpp:163-174 | A new sample moves the extremes only once the count exceeds 10. |
| ReleaseScheduler.WarmUpLeavesExtremes | inc/Sequencer.hpp:130-132 | During the first 10 activations, the extremes keep their initial values. |
| ReleaseScheduler.ExtremesAfterWarmUp | inc/Sequencer.hpp:163-174 | After warm-up, min ≤ max, the minimum is an actual sample, and both bracket every counted sample. |
| ReleaseScheduler.DueServices | inc/Sequencer.hpp:307-314 | The services released are drawn from the sorted order, at most one per slot. |
| ReleaseScheduler.TimesToRelease | inc/Sequencer.hpp:291-292 | There is one time-to-release per deadline. |
| ReleaseScheduler.TimeToReleaseAt | inc/Sequencer.hpp:291-292 | Entry i is the deadline minus now, in nanoseconds. |
| ReleaseScheduler.SleepChoice | inc/Sequencer.hpp:279-303 | The sleep is between 10 ns and 100 ms. |
| ReleaseScheduler.ReleaseTimer.Start | inc/Sequencer.hpp:244-272 | Given a period-sorted order, every service is released once in that order, and slot i's first deadline is start + period of the i-th sorted service. |
| ReleaseScheduler.ReleaseTimer.SleepNs | inc/Sequencer.hpp:279-302 | The sleep loop computes the minimum time to release, capped at 100 ms and floored at 10 ns. |
| ReleaseScheduler.ReleaseTimer.CheckReleases | inc/Sequencer.hpp:306-324 | Due slots release their service and advance by one period from the old deadline. Other slots are untouched, and deadlines stay normalised. |
| ReleaseScheduler.DueReleasedOnce | inc/Sequencer.hpp:307-314 | Each service is released exactly once if its slot is due, and not at all otherwise. |
| ReleaseScheduler.OverslipStaysDue | inc/Sequencer.hpp:311-322 | A deadline missed by a whole period is still due after its advance: a late timer catches up one period per check. |
| ReleaseScheduler.SleepBeforeDeadline | inc/Sequencer.hpp:285-303 | The timer never sleeps past a deadline that is at least 10 ns away. |
| TimerScheduler.TimedService.constructor | faceEyeMovToCursorMov/inc/Sequencer.hpp:34-47 | Name, affinity, priority and period are stored, the service is running, and the semaphore starts at 0. |
| TimerScheduler.TimedService.Release | faceEyeMovToCursorMov/inc/Sequencer.hpp:63-70 | A successful `sem_post` adds one, and a failed one changes nothing. |
| TimerScheduler.TimedService.Activate | faceEyeMovToCursorMov/inc/Sequencer.hpp:126-157 | The callback runs only if still running, and the count goes up by one. Start jitter is recorded from the second run on, `_lastStartTime` is set, and the execution time is recorded. |
| TimerScheduler.TimedService.RecordJitter | faceEyeMovToCursorMov/inc/Sequencer.hpp:136-144 | The jitter extremes are the min and max over all jitter samples. |
| TimerScheduler.TimedService.RecordExec | faceEyeMovToCursorMov/inc/Sequencer.hpp:150-156 | The execution min, max, total and count cover every activation, with no warm-up. |
| TimerScheduler.TimedService.Stop | faceEyeMovToCursorMov/inc/Sequencer.hpp:49-61 | Running is cleared, the semaphore is posted and destroyed, and the report is `logStatistics`. |
| TimerScheduler.TimedService.Statistics | faceEyeMovToCursorMov/inc/Sequencer.hpp:162-183 | The no-data report appears iff the count is 0, and the period is always reported. Otherwise average × count = total. |
| TimerScheduler.Interval | faceEyeMovToCursorMov/inc/Sequencer.hpp:138 | A forward interval in milliseconds is not negative. |
| TimerScheduler.RMinBelow | faceEyeMovToCursorMov/inc/Sequencer.hpp:153 | The execution-time minimum is ≤ every sample. |
| TimerScheduler.RMaxAbove | faceEyeMovToCursorMov/inc/Sequencer.hpp:154 | The execution-time maximum is ≥ every sample. |
| TimerScheduler.RSumBounds | faceEyeMovToCursorMov/inc/Sequencer.hpp:155 | The total lies between count × lower bound and count × upper bound. |
| TimerScheduler.ReportOrdered | faceEyeMovToCursorMov/inc/Sequencer.hpp:162-172 | After at least one run, min ≤ avg ≤ max and the execution jitter is not negative. |
| TimerScheduler.SingleRunStartJitter | faceEyeMovToCursorMov/inc/Sequencer.hpp:172 | After exactly one run, the reported start jitter is 0 − DBL_MAX. |
| TimerScheduler.ItimerValue | faceEyeMovToCursorMov/inc/Sequencer.hpp:224-229 | The interval equals the initial value. For periods ≤ INT32_MAX it is normalised and equals the period. Larger periods wrap to a negative value. |
| TimerScheduler.ArmedTimers | faceEyeMovToCursorMov/inc/Sequencer.hpp:207-238 | At most one timer is kept per service. |
| TimerScheduler.ArmedTimersSound | faceEyeMovToCursorMov/inc/Sequencer.hpp:218-237 | Every kept timer belongs to a service whose create and settime both succeeded, and carries that service's itimerspec. |
| TimerScheduler.AllArmed | faceEyeMovToCursorMov/inc/Sequencer.hpp:207-238 | When every call succeeds, every service gets a timer. |
| TimerScheduler.ArmTimers | faceEyeMovToCursorMov/inc/Sequencer.hpp:207-238 | The arming loop keeps exactly the `ArmedTimers` ids, in service order. It deletes exactly the timers that were created but not armed. |
| TimerScheduler.TimerSequencer.constructor | faceEyeMovToCursorMov/inc/Sequencer.hpp:255-257 | A sequencer starts with no timers. |
| TimerScheduler.TimerSequencer.StartServices | faceEyeMovToCursorMov/inc/Sequencer.hpp:205-239 | Only armed timers are kept, and a failure skips only that service. A timer whose arming failed is deleted. |
| TimerScheduler.TimerSequencer.StopServices | faceEyeMovToCursorMov/inc/Sequencer.hpp:241-253 | All kept timers are deleted and the list is cleared. Then every service is stopped and reports its statistics. |
| FrameTransport.EncodeMetadata | faceEyeMovToCursorMov/src/ImageCapture.cpp:185-195 | The header is exactly 24 bytes. |
| FrameTransport.DecodeMetadata | faceEyeMovToCursorMov/src/ImageProcessing.cpp:84-95 | A header is read back iff it is exactly `sizeof(FrameMetadata)` bytes. |
| FrameTransport.Examine | faceEyeMovToCursorMov/src/ImageProcessing.cpp:70-114 | One loop pass applies the checks in order: more flag, header size, format, second part, payload size. An accepted frame consumes two parts. A format rejection consumes only the header. |
| FrameTransport.AcceptedFrames | faceEyeMovToCursorMov/src/ImageProcessing.cpp:70-144 | A drain accepts at most one frame per two parts. |
| FrameTransportFacts.LeRoundTrip | faceEyeMovToCursorMov/src/ImageCapture.cpp:194-195 | A field copied by `memcpy` as n little-endian bytes reads back as the same value whenever it fits in n bytes. |
| FrameTransportFacts.MetadataRoundTrip | faceEyeMovToCursorMov/src/ImageCapture.cpp:185-195 | The receiver decodes exactly the header the sender copied, whatever the padding bytes are. |
| FrameTransportFacts.PublishedFrameAccepted | faceEyeMovToCursorMov/src/ImageProcessing.cpp:73-114 | A published YUYV frame with a matching payload is accepted as sent, and only its two parts are consumed. |
| FrameTransportFacts.BadFormatPayloadTakenAsHeader | faceEyeMovToCursorMov/src/ImageProcessing.cpp:98-101 | After a format rejection, the payload part is examined next as a header and rejected for lacking the more flag. |
| FrameTransportFacts.ShortPayloadSkipped | faceEyeMovToCursorMov/src/ImageProcessing.cpp:110-114 | A payload-size mismatch drops that frame, and the next frame is still accepted. |
| FrameTransportFacts.PublishedStreamAccepted | faceEyeMovToCursorMov/src/ImageProcessing.cpp:70-114 | A stream of well-formed frames is accepted frame for frame. |
| FramePool.BuffersQueued | faceEyeMovToCursorMov/src/ImageCapture.cpp:107-140 | Set-up queues buffers from the first one up to the first failure, at most 4. |
| FramePool.ScanFrom | faceEyeMovToCursorMov/src/ImageCapture.cpp:232-250 | The scan picks the first rotation position from `next` whose buffer is dequeued and whose QBUF succeeds. None means no position qualifies. |
| FramePool.Requeue | faceEyeMovToCursorMov/src/ImageCapture.cpp:232-266 | At most one dequeued buffer is re-queued: its flag is cleared and `next` becomes index+1 mod 4. If nothing is re-queued the pool is unchanged, and `next` stays in [0, 4). |
| FramePool.CaptureService.constructor | faceEyeMovToCursorMov/src/ImageCapture.cpp:13-20 | The service starts with four queued flags, rotation index 0, and not initialised. |
| FramePool.CaptureService.Initialize | faceEyeMovToCursorMov/src/ImageCapture.cpp:56-153 | `initialized` is set iff every step succeeds, so a failure means a retry on the next call. Width and height are stored once the format is accepted. Each buffer that was queued has its flag cleared. |
| FramePool.CaptureService.RequeueSame | faceEyeMovToCursorMov/src/ImageCapture.cpp:196-206 | After a failed send, the flag is cleared iff QBUF succeeds. |
| FramePool.CaptureService.Rotate | faceEyeMovToCursorMov/src/ImageCapture.cpp:232-266 | The in-place scan and fallback produce exactly `Requeue` of the old state. |
| FramePool.CaptureService.Capture | faceEyeMovToCursorMov/src/ImageCapture.cpp:156-266 | A failed DQBUF or a bad index leaves the pool unchanged. A valid index marks its buffer dequeued. A failed send re-queues the same buffer. A published frame carries header {width, height, YUYV, bytesused} and then rotates. |
| FramePool.CaptureService.Run | faceEyeMovToCursorMov/src/ImageCapture.cpp:46-153 | A failed set-up reports not initialised, and any other outcome happens only once the camera is set up. |
| FramePool.CaptureService.FreeBuffer | faceEyeMovToCursorMov/src/ImageCapture.cpp:23-44 | The flag ends up `!qbufOk`, and the message's context is released. |
| FramePool.ScanTakesFirstInRotation | faceEyeMovToCursorMov/src/ImageCapture.cpp:232-250 | If a qualifying position exists, the scan re-queues a buffer at that position or an earlier one in rotation order. |
| FramePool.PublishedBufferRequeued | faceEyeMovToCursorMov/src/ImageCapture.cpp:181-249 | Hazard: the just-published buffer is handed back to the driver while the zero-copy message still points into it. |
| FramePool.FreeBufferRemarksQueued | faceEyeMovToCursorMov/src/ImageCapture.cpp:23-44 | Hazard: after `free_buffer`'s QBUF fails, the buffer is marked dequeued whatever its flag was, even if the driver already holds it. The next scan re-queues it as soon as it is the first re-queueable buffer in rotation order. |
| Geometry.FaceCenter | faceEyeMovToCursorMov/src/ImageProcessing.cpp:26-40 | No face gives (-1,-1). Otherwise the result is the centre of the first rectangle, with halves truncated and inside the rectangle. |
| Geometry.Sums | src/ImageProcessing.cpp:35-49 | There is one interior sum per circle. |
| Geometry.FirstSmallest | src/ImageProcessing.cpp:50-57 | The index found is within the list. |
| Geometry.DarkestCircle | src/ImageProcessing.cpp:34-59 | The circle picked is one of the input circles. |
| Geometry.EyeBallDetection | src/ImageProcessing.cpp:34-59 | The nested pixel loops and the scan compute `DarkestCircle`. |
| Geometry.LeftEyeIndex | src/ImageProcessing.cpp:61-71 | On a non-empty input, the index is within the list. |
| Geometry.DetectLeftEye | src/ImageProcessing.cpp:61-71 | The loop computes `LeftEyeIndex`. |
| Geometry.Window | src/ImageProcessing.cpp:78-80 | The window holds min(iteration, size) points. |
| Geometry.WindowIsSuffix | src/ImageProcessing.cpp:78-84 | The window is the tail of the points. |
| Geometry.MakeStable | src/ImageProcessing.cpp:75-90 | The result is the mean of the last min(iteration, size) points, truncated toward zero, or (0,0) when there are none. |
| GeometryFacts.FaceCenterOfVisibleFace | faceEyeMovToCursorMov/src/ImageProcessing.cpp:26-40 | A face inside the image never gives (-1,-1), and its centre passes the sending test. |
| GeometryFacts.FirstSmallestIsFirstMinimum | src/ImageProcessing.cpp:50-57 | The result is the first minimum and lies below the sentinel. None means every value reaches the sentinel, and the reverse holds. |
| GeometryFacts.DarkestCircleIsDarkest | src/ImageProcessing.cpp:34-59 | The result is the first circle with the strictly smallest interior sum. None means every sum reaches 9999999, and the reverse holds. |
| GeometryFacts.LeftEyeIsLeftMost | src/ImageProcessing.cpp:61-71 | The result is the first rectangle with the minimal left edge. Only when every edge reaches the sentinel is it the first rectangle. |
| GeometryFacts.MeanInBox | src/ImageProcessing.cpp:75-90 | The steadied point stays inside the bounding box of the points averaged. |
| FaceDetection.FaceCenterService.constructor | faceEyeMovToCursorMov/src/ImageProcessing.cpp:58-61 | The service starts with the classifier not loaded and nothing sent. |
| FaceDetection.FaceCenterService.Init | faceEyeMovToCursorMov/src/ImageProcessing.cpp:47-57 | The classifier is loaded at most once. The service is initialised iff it already was or the load succeeds. |
| FaceDetection.FaceCenterService.Serve | faceEyeMovToCursorMov/src/ImageProcessing.cpp:58-145 | A failed load returns before receiving anything. Otherwise the queue is drained and the pushed messages are `Messages(SentCenters(queue))`. |
| FaceDetection.FaceCenterService.Drain | faceEyeMovToCursorMov/src/ImageProcessing.cpp:70-144 | The loop ends exactly when the queue is empty, and it sends one message per centre. |
| FaceDetection.FaceCenterService.Handle | faceEyeMovToCursorMov/src/ImageProcessing.cpp:117-140 | An accepted, converted frame pushes its face centre when both coordinates are ≥ 0. |
| FaceDetectionFacts.SentCentersNonNegative | faceEyeMovToCursorMov/src/ImageProcessing.cpp:135-140 | Every pushed centre has non-negative coordinates. |
| FaceDetectionFacts.SentAtMostAccepted | faceEyeMovToCursorMov/src/ImageProcessing.cpp:70-144 | At most one message is pushed per accepted frame. |
| FaceDetectionFacts.PublishedFaceSent | faceEyeMovToCursorMov/src/ImageProcessing.cpp:73-140 | A well-formed frame showing a face has that face's centre pushed, ahead of anything later. |
| FaceDetectionFacts.BadFormatSendsNothing | faceEyeMovToCursorMov/src/ImageProcessing.cpp:98-101 | A frame of the wrong format pushes nothing, and neither does its payload read as a header. |
| FaceDetectionFacts.MessageFitsBuffer | faceEyeMovToCursorMov/src/ImageProcessing.cpp:136-137 | Any pushed centre's text fits the 50-byte buffer with its terminator. |
| FaceDetectionFacts.MessageRoundTrip | faceEyeMovToCursorMov/src/ImageProcessing.cpp:137 | The message starts with "FaceCenter:", and scanning the rest gives the centre back. |
| EyeDetection.EyeTracker.constructor | src/ImageProcessing.cpp:73-74 | The tracker starts with no centres and a track of (0,0). |
| EyeDetection.EyeTracker.EyeDetection | src/ImageProcessing.cpp:92-153 | `centers` changes only with a face, exactly two eyes and a circle. Then exactly one truncated centre is appended, and the track is the mean of the last 5. |
| EyeDetection.EyeTracker.Serve | src/ImageProcessing.cpp:155-249 | A failure of either classifier load returns and changes nothing. Otherwise the queue is drained. |
| EyeDetection.EyeTracker.Handle | src/ImageProcessing.cpp:220-240 | Detection runs only on an accepted frame that converts. |
| EyeDetection.EyeTracker.Drain | src/ImageProcessing.cpp:174-248 | The loop stops when the queue is empty. The same ordered checks apply, and the centres of the accepted frames are appended in order. |
| EyeDetectionFacts.PublishedFrameTracked | src/ImageProcessing.cpp:174-240 | A well-formed frame reaches the detectors, and its centre is appended ahead of anything later. |
| EyeDetectionFacts.TrackWithinRecentCenters | src/ImageProcessing.cpp:143-145 | The track lies within the bounding box of the last five centres. |
| EyeDetectionFacts.SteadyEyeTracked | src/ImageProcessing.cpp:143-145 | Five equal centres give exactly that track. |
| Decimal.NatToString | faceEyeMovToCursorMov/src/ImageProcessing.cpp:137 | `%d` of a natural number gives digits with no leading zero. |
| Decimal.IntToString | faceEyeMovToCursorMov/src/CursorTranslation.cpp:189 | `%d` gives a minus sign iff the value is negative, followed by digits. |
| Decimal.ScanCommaInts | faceEyeMovToCursorMov/src/CursorTranslation.cpp:57-60 | `sscanf` stores at most n conversions. |
| DecimalRoundTrip.NatToStringDigits | faceEyeMovToCursorMov/src/ImageProcessing.cpp:137 | Everything `%d` writes for a natural number is a digit. |
| DecimalRoundTrip.NatToStringValue | faceEyeMovToCursorMov/src/ImageProcessing.cpp:137 | The digits `%d` writes have the value of the number written. |
| DecimalRoundTrip.ScanIntOfIntToString | faceEyeMovToCursorMov/src/CursorTranslation.cpp:136 | `%d` reads back exactly what `%d` wrote, and leaves the rest unread. |
| DecimalRoundTrip.ScanJoinedInts | faceEyeMovToCursorMov/src/CursorTranslation.cpp:57-60 | A comma-joined line of integers is read back field for field. |
| Cursor.Loaded | faceEyeMovToCursorMov/src/CursorTranslation.cpp:44-67 | A file that cannot be opened leaves the calibration unchanged. |
| Cursor.CalibrationFile | faceEyeMovToCursorMov/src/CursorTranslation.cpp:71-78 | A file is chosen iff the detection type is 1 or 2. |
| Cursor.ScanCenter | faceEyeMovToCursorMov/src/CursorTranslation.cpp:136 | The pattern `"Center:%d,%d"` converts at most two values. |
| Cursor.FloatToInt | faceEyeMovToCursorMov/src/CursorTranslation.cpp:160-161 | The value is truncated when it fits in an `int`. A non-finite or out-of-range value, undefined in C++, gives INT32_MIN, as x86-64 converts it. |
| Cursor.Clamp | faceEyeMovToCursorMov/src/CursorTranslation.cpp:164-165 | The result lies in [0, hi] and equals v inside that range. Values below the range give 0, and values above give hi. |
| Cursor.WindowSnoc | faceEyeMovToCursorMov/src/CursorTranslation.cpp:141-144 | Appending and then dropping the oldest beyond 5 gives the window of the longer history. |
| Cursor.CursorTranslator.constructor | faceEyeMovToCursorMov/src/CursorTranslation.cpp:36 | The calibration starts at {0,0,0,0} and the window is empty. |
| Cursor.CursorTranslator.LoadCalibrationData | faceEyeMovToCursorMov/src/CursorTranslation.cpp:44-67 | The in-place `sscanf` writes give exactly `Loaded`. |
| Cursor.CursorTranslator.CursorInit | faceEyeMovToCursorMov/src/CursorTranslation.cpp:69-118 | Type 1 loads the face file, type 2 the eye file, and other types load nothing. The status is 0 iff the device opens and is created. |
| Cursor.CursorTranslator.Smooth | faceEyeMovToCursorMov/src/CursorTranslation.cpp:141-153 | The window keeps holding the last ≤ 5 accepted points in arrival order, and the average is their mean. |
| Cursor.CursorTranslator.Move | faceEyeMovToCursorMov/src/CursorTranslation.cpp:141-197 | The window takes the new point. The pointer moves to the display position of the window's mean, and that move's control message is pushed. |
| Cursor.CursorTranslator.TranslationService | faceEyeMovToCursorMov/src/CursorTranslation.cpp:125-201 | An unparsed message leaves the window and the pointer alone. An accepted one mirrors x to 640 − x, smooths, and moves to the clamped display point. |
| CursorFacts.FaceCenterMessagesRejected | faceEyeMovToCursorMov/src/CursorTranslation.cpp:136 | Every "FaceCenter:" message from the face service fails the "Center:" pattern. |
| CursorFacts.CenterMessageAccepted | faceEyeMovToCursorMov/src/CursorTranslation.cpp:136 | A "Center:x,y" message reads back as (x, y). |
| CursorFacts.DefaultCalibrationPinsCursor | faceEyeMovToCursorMov/src/CursorTranslation.cpp:156-165 | With the default {0,0,0,0} calibration, under x86-64 float-to-int conversion, the pointer is pinned at (0,0). |
| CursorFacts.CalibratedExtremes | faceEyeMovToCursorMov/src/CursorTranslation.cpp:156-165 | The calibrated extremes map to the display corners, with x reversed. |
| CursorFacts.CalibrationLineLoaded | faceEyeMovToCursorMov/src/CursorTranslation.cpp:52-63 | The header is skipped. Fields 3-6 of the second line are stored. A short line keeps the fields it matched. |
| CursorFacts.HeaderOnlyKeepsCalibration | faceEyeMovToCursorMov/src/CursorTranslation.cpp:53-66 | A file with no second line leaves the calibration unchanged. |
| Base64.DecodeChar | src/base64.cpp:34-51 | The decode table gives a 6-bit value or the invalid mark. |
| Base64.EncodeGroup | src/base64.cpp:16-23 | Each step yields four characters. |
| Base64.EncodeBytes | src/base64.cpp:6-27 | The array loop computes `EncodeSpec` of the first `length` bytes. |
| Base64.Encode | src/base64.cpp:29-31 | The vector overload equals the pointer and length overload. |
| Base64.DecodeGroupAt | src/base64.cpp:57-80 | An accepted group yields 1 + [3rd ≠ '='] + [4th ≠ '='] bytes. |
| Base64.Decode | src/base64.cpp:33-84 | The decode loop computes `DecodeSpec`. |
| Base64.DecodeGroupStep | src/base64.cpp:59-80 | The early returns and pushes of one step give `DecodeGroupAt`. |
| Base64Facts.AlphabetMatches | src/base64.cpp:7-10 | The alphabet has 64 characters, in encoder order. |
| Base64Facts.EncodeCharDecodes | src/base64.cpp:34-51 | The table inverts the alphabet, and '=' is not in it. |
| Base64Facts.DecodeCharEncodes | src/base64.cpp:34-51 | Every character the table accepts is the alphabet character of its value. |
| Base64Facts.EncodeLength | src/base64.cpp:13-24 | Encoding n bytes gives exactly 4·⌈n/3⌉ characters. |
| Base64Facts.EncodeShape | src/base64.cpp:20-23 | '=' appears exactly at the last position when n mod 3 ≠ 0, and at the one before when n mod 3 = 1. Every other character is in the alphabet. |
| Base64Facts.GroupDecodes | src/base64.cpp:59-80 | An encoded chunk decodes back to its bytes. |
| Base64Facts.RoundTrip | src/base64.cpp:6-84 | `decode(encode(d)) == d` for every byte sequence. |
| Base64Facts.StopCauses | src/base64.cpp:57-72 | A group stops decoding iff it starts with '=' or holds an out-of-alphabet character before any '='. |
| Base64Facts.StopRule | src/base64.cpp:56-72 | Decoding returns the bytes of the groups before the first stopping group. |
| Calibration.CaptureFaceCenter | faceCalibrationService/calibration.cpp:39-94 | The loop computes `FaceCapture`. |
| Calibration.FaceCalibration | faceCalibrationService/calibration.cpp:96-152 | The exit code is 0 iff the cascade, the camera and the file all succeed. The file is then the header and the six readings. |
| Calibration.EyeCalibrator.DetectEyeCenter | eyeCalibrationService/calibration.cpp:81-139 | No face gives (-1,-1). Without two eyes or a circle the centre is unchanged. Otherwise the cvRound centre is appended and the mean of the last 5 is reported. |
| Calibration.EyeCalibrator.CaptureEyeCenter | eyeCalibrationService/calibration.cpp:141-196 | The loop computes `EyeCapture`. The centre starts at (0,0) each iteration, and key 13 or 10 is Enter. |
| Calibration.EyeCalibrator.EyeCalibration | eyeCalibrationService/calibration.cpp:198-265 | The exit code is 0 iff both cascades, the camera and the file succeed. The same header and field order as the face tool are used. |
| CalibrationFacts.FaceCaptureOutcome | faceCalibrationService/calibration.cpp:49-89 | A capture records either a seen face centre inside 640×480 with Enter, or (320,240) on 'q' or 'Q'. Otherwise the outputs are untouched. |
| CalibrationFacts.FaceCaptureIgnoresOutputs | faceCalibrationService/calibration.cpp:73-89 | Whether a capture succeeds, and what it captures, does not depend on the outputs' earlier values. |
| CalibrationFacts.FaceCaptureNeedsVisibleFace | faceCalibrationService/calibration.cpp:73-82 | Without a face inside the image and without a skip key, nothing is captured. |
| CalibrationFacts.FaceCaptureOrder | faceCalibrationService/calibration.cpp:123-127 | straight_x comes from "Max down" and top_y from "Max up". The other readings come from their own positions. |
| CalibrationFacts.CsvLoadsBack | faceCalibrationService/calibration.cpp:136-139 | The cursor loader reads left_x, right_x, top_y and bottom_y back from the written file. |
| CalibrationFacts.FaceCalibrationFeedsCursor | faceCalibrationService/calibration.cpp:114-139 | End to end, the cursor calibrates with the left and right turns' x and the up and down positions' y. |
| CalibrationFacts.EyeCaptureOutcome | eyeCalibrationService/calibration.cpp:141-196 | A capture is inside the image, or the outputs are untouched. The centre history only grows at its end. |
| CalibrationFacts.EyeCaptureAcceptsUnseenEye | eyeCalibrationService/calibration.cpp:161-184 | Hazard: with a face but not two eyes, Enter captures (0,0), although no eye was seen. |
| CalibrationFacts.FaceCaptureRefusesNoFace | faceCalibrationService/calibration.cpp:73-82 | Without a face, Enter is refused and the loop goes on. |

## Left out

- Threads, `std::jthread`, semaphores and atomics: each worker activation and each timer check is one sequential method call. `_initializeService` (affinity and priority) is left out, and so are the `Service` move constructor and move assignment of `inc/Sequencer.hpp`.
- ReleaseScheduler.Service.Release: requires the semaphore to be at 0, because a second release of the `counting_semaphore<1>` before it is consumed breaks its precondition.
- ReleaseScheduler.Service.Stop: requires the semaphore to be at 0 for the same reason, and leaves out `stop()`'s final release, which the worker consumes before the join returns.
- ReleaseScheduler.Service.Activate: takes the two clock readings around the callback with start ≤ stop, as a monotonic clock gives them.
- Clocks, `nanosleep`, POSIX timer expiry and signals: readings are inputs. The sleep rule is stated over nanoseconds only, since `sleep_time.tv_sec` is left uninitialised when no deadline falls within 100 ms.
- Floating point: `double` and `float` values are exact reals.
  - The running averages `exec_avg_ns` and `start_avg_ns` are not modelled.
  - The float sums in `makeStable`, the cursor average and the normalisation are exact. Their truncation to `int` is modelled explicitly.
- Timespec.DeltaTSigned: the source narrows the second and nanosecond differences to `int`. This is not modelled; it is harmless when the `tv_sec` difference fits in 32 bits.
- Cursor.FloatToInt: converting a NaN, an infinity or an out-of-range `float` to `int` is undefined in C++. The model fixes x86-64's answer, INT32_MIN. On AArch64 the conversion saturates (NaN gives 0, +inf gives INT32_MAX), and with the default calibration the cursor then goes to a screen edge rather than (0,0).
- 64-bit `long` and `size_t` arithmetic on times and sizes is unbounded. 32-bit overflow in `sscanf` `%d` and in the mirror step `640 - x` is not modelled.
- Geometry.DarkestCircle: when no circle's sum is below 9999999, the source indexes the circle list with -1 (undefined behaviour). The model answers None instead, and no centre is recorded.
- Drawing, windows, `imshow`, `waitKey` timing, console and log printing, and the detectors' timing printout are left out. The `Report` datatype stands for the printed statistics.
- OpenCV colour conversion, cascade detection and circle detection are oracle functions over the accepted frame.
- Device, transport and file calls: V4L2 ioctl, mmap and munmap, the uinput writes, ZeroMQ sockets and file streams are success flags, or recorded sequences (`moves`, `reports`, `outbox`).
  - The uinput set-up ioctls, `cursorDeinit` and `free_string` are not modelled.
  - The control message includes its NUL terminator.
- FramePool.CaptureService.Run: states only the set-up outcome. The frame step is stated in full by `Capture`, which `Run` calls.
- The calibration tools' output variables are never initialised in the source. The model takes their values as the `initial` readings.
- The calibration tools' capture loop waits forever without a key. The model ends with `Waiting` when the given events run out.
- The calibration tools share one camera stream across the five captures. The model gives each capture its own sequence of events.
- The eye tool's global `track_Eyeball = eyeCenter` is never read, and is left out.
- Base64.Decode: a character above 255 is treated as invalid. The source reads bytes of a `std::string`, which cannot hold such a character. The `reserve` calls are capacity hints and are left out.
- The following files are not part of this model: `src/ImageCapture.cpp`, `src/CursorTranslation.cpp`, `src/Compression.cpp`, both `Logging.cpp`, both `MessageQueue.cpp`, both `main.cpp`, and the headers that only declare.
