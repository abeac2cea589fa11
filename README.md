# Drone edge local inference: a Dafny model

This project models the local-storage inference run of the agriculture drone
edge node and the video source it reads from.

- **VideoSource** (`video_processor.dfy`) models the `VideoProcessor` class.
  - It opens a video file or a webcam through a capture device and extracts its metadata. For a webcam, the total frame count is -1 and the FPS falls back to 30.
  - It reads frames one at a time. The frame counter moves only on a successful read.
  - It reports progress as a percentage, with -1 when the length is unknown.
  - It releases the capture.
  - The capture device is an input: what it reports when opened, and the sequence of read results it will deliver.
- **LocalInference** (`run_inference_local.dfy`) models `main()` of the local mode.
  1. It derives the session id `local_<unix seconds>`.
  2. It opens the video and writes the initial `active` session record.
  3. The frame loop runs until the first failed read, or until the quit key is seen after a frame. For each frame it:
     - numbers the frame 1, 2, …;
     - runs the detector;
     - formats an event and tags it with the session id;
     - appends the event to the list of all detections;
     - adds the detection count to the running total;
     - rewrites the current-detections file.
  4. Finally it releases the video, writes the `completed` session record with the loop's counters, and writes the archive file.
  - The detector (`predict`), the clock readings (`Clock`) and the frame after which the quit key is pressed (`quitAfter`) are inputs.
  - File writes are returned as the sequence of values written to each file (`FileWrites`).
- **Decimal** (`decimal.dfy`) models Python's `str()` of an integer, with a parser that inverts it. The session id and the video path text use it.
- **Wrappers** (`wrappers.dfy`) holds `Option` and `Result`.

The loop is specified against value-level functions:
- `LeadingFrames` gives the frames delivered before the first failed read.
- `FramesProcessed` gives where the loop stops.
- `EventLog` gives the stored events.
- `DetectionTotal` gives the running total.
- `Snapshots` gives the successive contents of the current-detections file.

The lemmas beside these functions state the properties the run promises:
- frame numbers are sequential;
- every event carries the session id;
- events are only ever appended;
- the total matches the counts in the events;
- the last write of the detections file holds every event.

## Model

| member | source | states |
|---|---|---|
| Decimal.NatToString | drone_edge/src/run_inference_local.py:74 | the decimal text of a natural number is non-empty, all digits, and has no leading zero unless it is "0" |
| Decimal.IntToString | drone_edge/src/run_inference_local.py:74 | Python `str()` of an integer is non-empty, starts with a minus sign exactly when the integer is negative, and is digits after that sign with no leading zero (so never "-0" or a padded number) |
| Decimal.DigitsValueOfNatToString | drone_edge/src/run_inference_local.py:74 | the digits of a natural number's decimal text read back as that number |
| Decimal.ParseIntRoundTrip | drone_edge/src/run_inference_local.py:74 | reading back the decimal text of any integer gives that integer |
| Decimal.IntToStringInjective | drone_edge/src/run_inference_local.py:74 | different integers have different decimal texts |
| VideoSource.CaptureRead | drone_edge/src/video_processor.py:108 | a read on an open capture that has reads left delivers the next read result and moves on by one; a closed or used-up capture delivers no frame and stays as it is; a read never changes the results or the open flag |
| VideoSource.Truncate | drone_edge/src/video_processor.py:62-65 | Python `int()` of a float truncates toward zero: the result is within one of the input, on the input's side of zero |
| VideoSource.OpenMetadata | drone_edge/src/video_processor.py:49-102 | opening succeeds exactly when the capture opens and, for a file, the file exists; a missing file, an unopenable file and an unopenable webcam give their own errors; a webcam has total frames -1, the truncated FPS when that is non-zero and 30 when it is 0; a file's FPS, frame count and size are the truncated properties |
| VideoSource.Successes | drone_edge/src/video_processor.py:108-113 | the number of successful reads never exceeds the number of reads |
| VideoSource.Trues | drone_edge/src/video_processor.py:108-113 | the read log of n successful reads has length n and n successes |
| VideoSource.VideoProcessor.Init | drone_edge/src/video_processor.py:40-45 | a new processor has no capture, frame counter 0, zeroed metadata and no reads |
| VideoSource.VideoProcessor.OpenSource | drone_edge/src/video_processor.py:49-102 | opening reports an error exactly when the metadata cannot be obtained, and then reports that error; on success the capture is open at its first frame and the fields hold the metadata; a missing file creates no capture; an unopenable file or webcam leaves the unopened capture in place; on error the metadata fields are unchanged |
| VideoSource.VideoProcessor.Open | drone_edge/src/video_processor.py:21-47 | construction fails exactly when opening fails, with the same error and no processor; otherwise it gives a fresh processor with frame counter 0 whose capture is at its first frame and whose fields hold the metadata |
| VideoSource.VideoProcessor.ReadFrame | drone_edge/src/video_processor.py:104-113 | a read succeeds exactly when it returns a frame; without a capture it fails; otherwise it is one read on the capture; the counter rises by one on success only, so it keeps counting the successful reads |
| VideoSource.VideoProcessor.GetProgress | drone_edge/src/video_processor.py:115-118 | -1 when the total is not positive, otherwise the value p with p × total = 100 × current, which lies in [0, 100] while current is between 0 and the total |
| VideoSource.PercentageOf | drone_edge/src/video_processor.py:118 | current / total × 100 times the total is 100 × current, and lies in [0, 100] when 0 ≤ current ≤ total |
| VideoSource.VideoProcessor.Release | drone_edge/src/video_processor.py:120-123 | without a capture nothing happens; with one, the capture is closed and nothing else changes |
| VideoSource.VideoProcessor.Exit | drone_edge/src/video_processor.py:128-129 | leaving the context releases the capture, with the same effect as `Release` |
| LocalInference.SessionId | drone_edge/src/run_inference_local.py:74 | the session id is "local_" followed by the `str()` text of the Unix time truncated to whole seconds, which reads back as that second |
| LocalInference.SessionIdsCollideWithinASecond | drone_edge/src/run_inference_local.py:74 | two runs share a session id exactly when they start in the same whole second |
| LocalInference.VideoPathText | drone_edge/src/run_inference_local.py:99 | `str()` of the configured input is the file path itself, or the `str()` text of the webcam index, which reads back as that index |
| LocalInference.InitialSession | drone_edge/src/run_inference_local.py:95-102 | the initial session record has the session id, status active, frame count 0, total detections 0, no end time, the start time and the input path text |
| LocalInference.Finalized | drone_edge/src/run_inference_local.py:201-204 | the finalised session is completed, holds the given counters and end time, and keeps the id, start time and video path |
| LocalInference.FormatEvent | drone_edge/src/run_inference_local.py:137-142 | the event carries the frame number as its frame id, the timestamp, the detections and their count, the frame's width and height, and no session id yet |
| LocalInference.EventLog | drone_edge/src/run_inference_local.py:130-148 | exactly one event is stored per processed frame |
| LocalInference.EventLogAt | drone_edge/src/run_inference_local.py:130-148 | the i-th stored event is the tagged event of frame number i + 1, built from that frame |
| LocalInference.FrameIdsAreSequential | drone_edge/src/run_inference_local.py:130-142 | stored frame ids are 1, 2, …, n, strictly increasing, and each event carries its frame's detections and their count |
| LocalInference.EventsShareSessionId | drone_edge/src/run_inference_local.py:145 | every stored event is tagged with the session id |
| LocalInference.EventLogPrefix | drone_edge/src/run_inference_local.py:109-148 | the events of the first k frames are the first k events of a longer run: later frames only append |
| LocalInference.TotalMatchesEventCounts | drone_edge/src/run_inference_local.py:113-149 | the running total equals the sum of the detection counts in the stored events |
| LocalInference.SnapshotAt | drone_edge/src/run_inference_local.py:152-156 | the detections file is written once per frame, and the k-th write holds the session id and the first k + 1 events |
| LocalInference.LastSnapshot | drone_edge/src/run_inference_local.py:152-156 | the last write of the detections file holds the session id and every event |
| LocalInference.SnapshotsAppend | drone_edge/src/run_inference_local.py:152-156 | storing one more event adds exactly one write, holding the whole list so far |
| LocalInference.LeadingFrames | drone_edge/src/run_inference_local.py:122-128 | the frames delivered before the first failed read: each is a successful read at its position, and the read after them failed or the video has no more reads |
| LocalInference.FramesProcessed | drone_edge/src/run_inference_local.py:122-186 | the loop processes only successful reads, never more frames than the quit frame, and stops before a successful read only when the quit key was seen right after frame n, with n at least 1 |
| LocalInference.NextFrame | drone_edge/src/run_inference_local.py:130-149 | one more processed frame adds one event at the end and its detection count to the total |
| LocalInference.ReadStep | drone_edge/src/run_inference_local.py:124-130 | a successful read after the first k leading frames delivers leading frame k and moves the capture on by one; a failed read happens only at the end of the video or at a failed device read |
| LocalInference.LoopReads | drone_edge/src/run_inference_local.py:122-186 | the loop's reads succeed as often as frames are processed, and there is one read more exactly when the loop did not end by the quit key |
| LocalInference.LoopCapture | drone_edge/src/run_inference_local.py:122-186 | after the loop the capture is open on the same reads and stands just past the processed frames, plus the failed read when the loop did not end by the quit key and reads were left |
| LocalInference.QuitAfterFrameK | drone_edge/src/run_inference_local.py:184-186 | quitting after frame k of a video that delivers at least k frames leaves exactly k frames processed and k events, after k successful reads and with the capture just past frame k |
| LocalInference.FailedReadStops | drone_edge/src/run_inference_local.py:124-128 | a failed read after k leading frames and before the quit frame ends the loop with k frames processed, k successful reads then the failed one, and the capture after that read |
| LocalInference.EndOfVideo | drone_edge/src/run_inference_local.py:126-128 | without a quit, every frame up to the first failed read is processed and the read after them failed |
| LocalInference.RecordFrame | drone_edge/src/run_inference_local.py:130-156 | one loop iteration extends the stored events, the total and the detections-file writes from the first frameNumber - 1 frames to the first frameNumber frames |
| LocalInference.ProcessFrames | drone_edge/src/run_inference_local.py:122-194 | the loop processes exactly `FramesProcessed` frames; the counter, the stored events, the total and the detections-file writes are those of the processed frames; the video's frame counter agrees with the loop's, its read log is `LoopReads` and its capture is `LoopCapture` |
| LocalInference.RunLocal | drone_edge/src/run_inference_local.py:63-216 | the run fails exactly when the video cannot be opened, then writes nothing; otherwise the session file holds the initial then the completed session, whose counters are the loop's; the detections file holds the successive event lists; the archive holds the completed session and all events; the reads issued are `LoopReads`, with as many successes as frames processed; the capture is released afterwards, closed where the loop left it |

## Left out

- `draw_detections` and the OpenCV rendering, window display and `waitKey` are left out: they only draw and show frames. They can still raise and end the run, as the failure entry below says. The quit key becomes the input `quitAfter`, which takes effect only when the display window is configured.
- FPS, elapsed-time and average-inference-time figures, and the periodic progress log with its `get_progress` call, are left out as values: they are wall-clock floating-point figures that are printed. The failures they can raise are described in the failure entry below.
- A run can fail after the video has opened, and the model does not cover this. `RunLocal` has only two outcomes: the video fails to open, or the run completes. Every failure below ends `main()` through its exception handlers (drone_edge/src/run_inference_local.py:235-244). What each leaves behind:
  - A failure inside the loop that is not a file write leaves the session file holding the `active` record, writes no archive, and leaves the detections file holding the events of the frames processed so far. Causes include:
    - `frame_count % log_interval` raises when logging is on and `log_interval` is 0 (line 189);
    - `frame_count / elapsed` is evaluated without a zero guard (line 191);
    - the detector raises (line 133);
    - the user interrupts the process during the loop;
    - any other call in the loop body (lines 133-193) that raises. Examples are the event formatter (line 137), `print_detection_summary` (line 160), the display path when the window is on (lines 163-184: a missing `visualization` configuration key, or `cv2.imshow` on an OpenCV build without GUI support), and `get_progress` or `get_avg_inference_time` in the progress log (lines 192-193).
  - A failed file write leaves that file empty or partly written, because `open(..., 'w')` empties the file before `json.dump` writes it (lines 105, 152, 206 and 212).
  - A failure or interrupt after the loop depends on how far the run got:
    - before the session write at lines 206-207, the session file still holds the `active` record;
    - after that write, it holds the `completed` record;
    - during the archive write at lines 212-216, a partial archive file is left behind.
- JSON serialisation, `mkdir`, the output directory path and the timestamped archive file name are left out. Each file write is modelled as the value written.
- The detector's internals are left out. The inference engine is not part of this model, and `predict` is a function input.
- The event formatter is modelled, not left out. `FormatEvent` follows the event layout of the earlier revision .history/drone_edge/src/detection_formatter_20260114154225.py:36-45:
  - `frame_id` is the frame number;
  - `detection_count` is the number of detections;
  - `image_size` is built from `shape[1]` and `shape[0]`.

  The frame ids in `FrameIdsAreSequential` and the counts in `TotalMatchesEventCounts` rest on this layout. It has not been compared with the current `drone_edge/src/detection_formatter.py`, which is not part of this model.
- Loading the configuration and constructing the inference engine are left out. The two configuration entries the run consults are the `Config` input.
- The exception handlers that print and call `sys.exit` are left out. An open failure ends the run with its error value.
- `drone_edge/src/config.py` and `drone_edge/verify_env.py` are left out: they are a YAML load and an environment probe.
- The pathlib resolution of the input path and the `cv2.VideoCapture` queries are left out. What the device reports is the `Device` input.
- The duration and file-size figures `_open_source` prints are left out.
- Device properties and progress use exact reals, not IEEE floats.
- `__enter__` is left out: it returns the processor unchanged.
- `VideoSource.VideoProcessor.GetProgress` is not clamped to [0, 100], because the code does not clamp it. Callers such as drone_edge/src/video_processor.py:153-157 treat any value ≥ 0 as a percentage. The contract bounds it only while the frame counter is within the reported total.
- When no frame is processed, the current-detections file is not written. It keeps whatever an earlier run left in it.
