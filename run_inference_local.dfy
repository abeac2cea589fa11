/**
 * The local-storage inference run of the drone edge node: read frames until
 * the video ends or the user quits, run the detector on each, turn its result
 * into a detection event tagged with the session id, keep every event, keep a
 * running detection total, rewrite the "current detections" file after every
 * frame, and finally record the session as completed and archive it.
 *
 * The detector, the clock and the quit key are inputs: `predict` maps a frame
 * to its detections, `Clock` holds the times the run reads, and `quitAfter`
 * is the frame after which the quit key is seen.
 */
module LocalInference {
  import opened Wrappers
  import opened Decimal
  import opened VideoSource

  datatype BoundingBox = BoundingBox(x1: int, y1: int, x2: int, y2: int)

  datatype Detection = Detection(classId: int, className: string, confidence: real, bbox: BoundingBox)

  datatype ImageSize = ImageSize(width: nat, height: nat)

  /** A detection event; `sessionId` is None until the run tags the event. */
  datatype Event = Event(
    frameId: int,
    timestamp: string,
    imageSize: ImageSize,
    detectionCount: nat,
    detections: seq<Detection>,
    sessionId: Option<string>)

  datatype Status = Active | Completed

  /** The session record kept in the current-session file. */
  datatype Session = Session(
    sessionId: string,
    startTime: string,
    status: Status,
    videoPath: string,
    frameCount: int,
    totalDetections: int,
    endTime: Option<string>)

  /** Contents of the current-detections file. */
  datatype DetectionsRecord = DetectionsRecord(sessionId: string, detections: seq<Event>)

  /** Contents of the archive file written once at the end of a run. */
  datatype Archive = Archive(session: Session, detections: seq<Event>)

  /** The configuration entries the run consults. */
  datatype Config = Config(input: Source, displayWindow: bool)

  /**
   * The times the run reads: the Unix time the session id is made from, the
   * ISO-8601 start time, the ISO-8601 time at which frame n is formatted, and
   * the ISO-8601 end time.
   */
  datatype Clock = Clock(unixTime: real, startIso: string, frameIso: nat -> string, endIso: string)

  // ---------------------------------------------------------------------------
  // Session records

  /**
   * "local_" followed by the Unix time truncated to whole seconds: the text
   * after the prefix reads back as that second.
   */
  function SessionId(unixTime: real): (s: string)
    ensures |s| > 6 && s[..6] == "local_"
    ensures ParseInt(s[6..]) == Some(Truncate(unixTime))
    ensures s[6..] == IntToString(Truncate(unixTime))
  {
    var digits := IntToString(Truncate(unixTime));
    ParseIntRoundTrip(Truncate(unixTime));
    assert ("local_" + digits)[6..] == digits;
    "local_" + digits
  }

  /** Two runs get the same session id exactly when they start in the same second. */
  lemma SessionIdsCollideWithinASecond(t1: real, t2: real)
    ensures SessionId(t1) == SessionId(t2) <==> Truncate(t1) == Truncate(t2)
  {
    // Equal ids have equal texts after the prefix, which read back as the two seconds.
  }

  /** `str()` of the configured input: the path itself, or the webcam index in decimal. */
  function VideoPathText(s: Source): (t: string)
    ensures s.VideoFile? ==> t == s.path
    ensures s.Webcam? ==> ParseInt(t) == Some(s.index) && t == IntToString(s.index)
  {
    match s
    case VideoFile(p) => p
    case Webcam(i) => ParseIntRoundTrip(i); IntToString(i)
  }

  /** The session record written before the first frame is read. */
  function InitialSession(sid: string, clock: Clock, cfg: Config): (s: Session)
    ensures s.sessionId == sid && s.status == Active && s.endTime == None
    ensures s.frameCount == 0 && s.totalDetections == 0
    ensures s.startTime == clock.startIso && s.videoPath == VideoPathText(cfg.input)
  {
    Session(sid, clock.startIso, Active, VideoPathText(cfg.input), 0, 0, None)
  }

  /** The in-place finalisation of the session record after the loop. */
  function Finalized(s: Session, frameCount: int, totalDetections: int, endTime: string): (f: Session)
    ensures f.status == Completed && f.endTime == Some(endTime)
    ensures f.frameCount == frameCount && f.totalDetections == totalDetections
    ensures f.sessionId == s.sessionId && f.startTime == s.startTime && f.videoPath == s.videoPath
  {
    s.(status := Completed, frameCount := frameCount, totalDetections := totalDetections,
       endTime := Some(endTime))
  }

  // ---------------------------------------------------------------------------
  // Events

  /**
   * The event dictionary `DetectionFormatter.format_detection_event` builds
   * from a frame number, a timestamp, the detections and the frame's shape.
   */
  function FormatEvent(frameNumber: int, timestamp: string, detections: seq<Detection>, frame: Frame): (e: Event)
    ensures e.frameId == frameNumber && e.timestamp == timestamp && e.sessionId == None
    ensures e.detections == detections && e.detectionCount == |detections|
    ensures e.imageSize.width == frame.width && e.imageSize.height == frame.height
  {
    Event(frameNumber, timestamp, ImageSize(frame.width, frame.height), |detections|, detections, None)
  }

  /** The event the run stores for its n-th frame `f`. */
  function FrameEvent(n: nat, f: Frame, predict: Frame -> seq<Detection>, clock: Clock, sid: string): Event {
    FormatEvent(n, clock.frameIso(n), predict(f), f).(sessionId := Some(sid))
  }

  /** The events stored for the frames processed, in order. */
  function EventLog(frames: seq<Frame>, predict: Frame -> seq<Detection>, clock: Clock, sid: string): (es: seq<Event>)
    ensures |es| == |frames|
  {
    if frames == [] then []
    else EventLog(frames[..|frames| - 1], predict, clock, sid)
         + [FrameEvent(|frames|, frames[|frames| - 1], predict, clock, sid)]
  }

  /** The i-th stored event is the event of frame number i + 1. */
  lemma {:induction false} EventLogAt(frames: seq<Frame>, predict: Frame -> seq<Detection>, clock: Clock, sid: string, i: nat)
    requires i < |frames|
    ensures EventLog(frames, predict, clock, sid)[i] == FrameEvent(i + 1, frames[i], predict, clock, sid)
  {
    var k := |frames| - 1;
    if i < k {
      EventLogAt(frames[..k], predict, clock, sid, i);
    }
  }

  /**
   * Frame numbers run 1, 2, ..., n in strict order, and each event carries the
   * frame's detections and their count.
   */
  lemma {:induction false} FrameIdsAreSequential(frames: seq<Frame>, predict: Frame -> seq<Detection>, clock: Clock, sid: string)
    ensures var es := EventLog(frames, predict, clock, sid);
      && (forall i | 0 <= i < |es| :: es[i].frameId == i + 1)
      && (forall i, j | 0 <= i < j < |es| :: es[i].frameId < es[j].frameId)
      && (forall i | 0 <= i < |es| ::
            es[i].detections == predict(frames[i]) && es[i].detectionCount == |es[i].detections|)
  {
    var es := EventLog(frames, predict, clock, sid);
    forall i | 0 <= i < |es|
      ensures es[i].frameId == i + 1
      ensures es[i].detections == predict(frames[i]) && es[i].detectionCount == |es[i].detections|
    {
      EventLogAt(frames, predict, clock, sid, i);
    }
  }

  /** Every stored event is tagged with the session's id. */
  lemma {:induction false} EventsShareSessionId(frames: seq<Frame>, predict: Frame -> seq<Detection>, clock: Clock, sid: string)
    ensures forall e | e in EventLog(frames, predict, clock, sid) :: e.sessionId == Some(sid)
  {
    var es := EventLog(frames, predict, clock, sid);
    forall i | 0 <= i < |es| ensures es[i].sessionId == Some(sid) {
      EventLogAt(frames, predict, clock, sid, i);
    }
  }

  /** Processing more frames only appends: the earlier events stay as they were. */
  lemma EventLogPrefix(frames: seq<Frame>, predict: Frame -> seq<Detection>, clock: Clock, sid: string, k: nat)
    requires k <= |frames|
    ensures EventLog(frames[..k], predict, clock, sid) == EventLog(frames, predict, clock, sid)[..k]
  {
    var short := EventLog(frames[..k], predict, clock, sid);
    var long := EventLog(frames, predict, clock, sid);
    forall i | 0 <= i < k ensures short[i] == long[i] {
      EventLogAt(frames[..k], predict, clock, sid, i);
      EventLogAt(frames, predict, clock, sid, i);
    }
  }

  /** The number of detections the detector reports over the given frames. */
  function DetectionTotal(frames: seq<Frame>, predict: Frame -> seq<Detection>): nat {
    if frames == [] then 0
    else DetectionTotal(frames[..|frames| - 1], predict) + |predict(frames[|frames| - 1])|
  }

  /** The sum of the `detection_count` fields of some events. */
  function CountSum(es: seq<Event>): nat {
    if es == [] then 0 else CountSum(es[..|es| - 1]) + es[|es| - 1].detectionCount
  }

  /** The running total agrees with the counts recorded in the stored events. */
  lemma {:induction false} TotalMatchesEventCounts(frames: seq<Frame>, predict: Frame -> seq<Detection>, clock: Clock, sid: string)
    ensures DetectionTotal(frames, predict) == CountSum(EventLog(frames, predict, clock, sid))
  {
    if frames != [] {
      var k := |frames| - 1;
      TotalMatchesEventCounts(frames[..k], predict, clock, sid);
      var es := EventLog(frames, predict, clock, sid);
      assert es[..k] == EventLog(frames[..k], predict, clock, sid);
    }
  }

  /** The successive contents of the current-detections file: the whole list so far, after each frame. */
  function Snapshots(sid: string, es: seq<Event>): seq<DetectionsRecord> {
    if es == [] then []
    else Snapshots(sid, es[..|es| - 1]) + [DetectionsRecord(sid, es)]
  }

  /** The k-th write of the current-detections file holds the first k + 1 events. */
  lemma {:induction false} SnapshotAt(sid: string, es: seq<Event>, k: nat)
    requires k < |es|
    ensures |Snapshots(sid, es)| == |es|
    ensures Snapshots(sid, es)[k] == DetectionsRecord(sid, es[..k + 1])
  {
    var m := |es| - 1;
    if k < m {
      SnapshotAt(sid, es[..m], k);
      assert es[..m][..k + 1] == es[..k + 1];
    } else if m > 0 {
      SnapshotAt(sid, es[..m], 0);
    }
  }

  /** The last write of the current-detections file holds every event. */
  lemma LastSnapshot(sid: string, es: seq<Event>)
    requires es != []
    ensures Snapshots(sid, es) != [] && Snapshots(sid, es)[|Snapshots(sid, es)| - 1] == DetectionsRecord(sid, es)
  {
  }

  lemma SnapshotsAppend(sid: string, es: seq<Event>, e: Event)
    ensures Snapshots(sid, es + [e]) == Snapshots(sid, es) + [DetectionsRecord(sid, es + [e])]
  {
    assert (es + [e])[..|es|] == es;
  }

  // ---------------------------------------------------------------------------
  // Where the loop stops

  /** The frames read before the first failed read. */
  function LeadingFrames(results: seq<Option<Frame>>): (fs: seq<Frame>)
    ensures |fs| <= |results|
    ensures forall i | 0 <= i < |fs| :: results[i] == Some(fs[i])
    ensures |fs| < |results| ==> results[|fs|].None?
  {
    if results == [] || results[0].None? then []
    else [results[0].value] + LeadingFrames(results[1..])
  }

  /** The quit key is seen after a frame that the video does deliver. */
  predicate QuitRequested(results: seq<Option<Frame>>, cfg: Config, quitAfter: Option<nat>) {
    cfg.displayWindow && quitAfter.Some? && 1 <= quitAfter.value <= |LeadingFrames(results)|
  }

  /**
   * How many frames the loop processes: it stops at the first failed read, or
   * right after the frame at which the quit key is seen, whichever is first.
   */
  function FramesProcessed(results: seq<Option<Frame>>, cfg: Config, quitAfter: Option<nat>): (n: nat)
    ensures n <= |results| && forall i | 0 <= i < n :: results[i].Some?
    ensures cfg.displayWindow && quitAfter.Some? && 1 <= quitAfter.value ==> n <= quitAfter.value
    ensures n < |results| && results[n].Some? ==> cfg.displayWindow && 1 <= n && quitAfter == Some(n)
  {
    if QuitRequested(results, cfg, quitAfter) then quitAfter.value else |LeadingFrames(results)|
  }

  /** One more frame processed: one more event at the end, and its detections added to the total. */
  lemma NextFrame(leading: seq<Frame>, k: nat, predict: Frame -> seq<Detection>, clock: Clock, sid: string)
    requires k < |leading|
    ensures EventLog(leading[..k + 1], predict, clock, sid)
         == EventLog(leading[..k], predict, clock, sid) + [FrameEvent(k + 1, leading[k], predict, clock, sid)]
    ensures DetectionTotal(leading[..k + 1], predict) == DetectionTotal(leading[..k], predict) + |predict(leading[k])|
  {
    assert leading[..k + 1][..k] == leading[..k];
  }

  /**
   * One read on a capture that has delivered the first k leading frames: it
   * succeeds exactly when it delivers leading frame k, and fails only at the
   * end of the leading frames.
   */
  lemma ReadStep(results: seq<Option<Frame>>, k: nat)
    requires k <= |LeadingFrames(results)|
    ensures var (f, c) := CaptureRead(Capture(results, k, true));
      && (f.Some? ==> k < |LeadingFrames(results)| && LeadingFrames(results)[k] == f.value
                      && c == Capture(results, k + 1, true))
      && (f.None? ==> k == |results| || results[k].None?)
  {
  }

  /**
   * The outcome of every read the loop issues: one success per processed
   * frame, then one failed read unless the quit key ended the loop.
   */
  function LoopReads(results: seq<Option<Frame>>, cfg: Config, quitAfter: Option<nat>): (log: seq<bool>)
    ensures Successes(log) == FramesProcessed(results, cfg, quitAfter)
    ensures |log| == FramesProcessed(results, cfg, quitAfter) + (if QuitRequested(results, cfg, quitAfter) then 0 else 1)
  {
    var log := Trues(FramesProcessed(results, cfg, quitAfter));
    if QuitRequested(results, cfg, quitAfter) then log
    else
      assert (log + [false])[..|log|] == log;
      log + [false]
  }

  /**
   * The capture after the loop: just past the last processed frame when the
   * quit key ended the loop, otherwise after the failed read as well.
   */
  function LoopCapture(results: seq<Option<Frame>>, cfg: Config, quitAfter: Option<nat>): (c: Capture)
    ensures c.results == results && c.open
    ensures c.next == FramesProcessed(results, cfg, quitAfter)
                      + (if QuitRequested(results, cfg, quitAfter) || FramesProcessed(results, cfg, quitAfter) == |results| then 0 else 1)
  {
    var start := Capture(results, FramesProcessed(results, cfg, quitAfter), true);
    if QuitRequested(results, cfg, quitAfter) then start else CaptureRead(start).1
  }

  /**
   * Quitting after frame k of a video that delivers at least k frames leaves
   * exactly k frames processed, hence k stored events, after k successful reads
   * and with the capture just past frame k.
   */
  lemma QuitAfterFrameK(results: seq<Option<Frame>>, cfg: Config, k: nat,
                        predict: Frame -> seq<Detection>, clock: Clock, sid: string)
    requires cfg.displayWindow && 1 <= k <= |LeadingFrames(results)|
    ensures QuitRequested(results, cfg, Some(k)) && FramesProcessed(results, cfg, Some(k)) == k
    ensures |EventLog(LeadingFrames(results)[..k], predict, clock, sid)| == k
    ensures LoopReads(results, cfg, Some(k)) == Trues(k)
    ensures LoopCapture(results, cfg, Some(k)) == Capture(results, k, true)
  {
  }

  /**
   * A failed read after k leading frames, before any quit, ends the loop with
   * k frames processed, k successful reads followed by the failed one, and the
   * capture after that read.
   */
  lemma FailedReadStops(results: seq<Option<Frame>>, cfg: Config, quitAfter: Option<nat>, k: nat)
    requires k <= |LeadingFrames(results)| && (k == |results| || results[k].None?)
    requires cfg.displayWindow && quitAfter.Some? && 1 <= quitAfter.value ==> k < quitAfter.value
    ensures !QuitRequested(results, cfg, quitAfter) && FramesProcessed(results, cfg, quitAfter) == k
    ensures LoopReads(results, cfg, quitAfter) == Trues(k) + [false]
    ensures LoopCapture(results, cfg, quitAfter) == CaptureRead(Capture(results, k, true)).1
  {
  }

  /** Without a quit, the loop processes every frame up to the first failed read. */
  lemma EndOfVideo(results: seq<Option<Frame>>, cfg: Config, quitAfter: Option<nat>)
    requires !QuitRequested(results, cfg, quitAfter)
    ensures FramesProcessed(results, cfg, quitAfter) == |LeadingFrames(results)|
    ensures FramesProcessed(results, cfg, quitAfter) < |results| ==> !results[FramesProcessed(results, cfg, quitAfter)].Some?
  {
  }

  // ---------------------------------------------------------------------------
  // The run

  /** What a completed run leaves in memory. */
  datatype RunSummary = RunSummary(
    sessionId: string,
    frameCount: nat,
    totalDetections: nat,
    session: Session,
    events: seq<Event>)

  /**
   * The writes a run makes, oldest first: to the current-session file, to the
   * current-detections file, and of archive files. A file the run does not
   * write keeps whatever an earlier run left in it; one it writes holds its
   * last write.
   */
  datatype FileWrites = FileWrites(
    sessionFile: seq<Session>,
    detectionsFile: seq<DetectionsRecord>,
    archives: seq<Archive>)

  /**
   * The body of the frame loop for the `frameNumber`-th frame read: detect,
   * format, tag with the session id, store, count, and rewrite the
   * current-detections file with everything stored so far.
   */
  method RecordFrame(ghost leading: seq<Frame>, frameNumber: nat, frame: Frame,
                     predict: Frame -> seq<Detection>, clock: Clock, sessionId: string,
                     allDetections: seq<Event>, totalDetections: nat, detectionWrites: seq<DetectionsRecord>)
    returns (allDetections': seq<Event>, totalDetections': nat, detectionWrites': seq<DetectionsRecord>)
    requires 1 <= frameNumber <= |leading| && leading[frameNumber - 1] == frame
    requires allDetections == EventLog(leading[..frameNumber - 1], predict, clock, sessionId)
    requires totalDetections == DetectionTotal(leading[..frameNumber - 1], predict)
    requires detectionWrites == Snapshots(sessionId, allDetections)
    ensures allDetections' == EventLog(leading[..frameNumber], predict, clock, sessionId)
    ensures totalDetections' == DetectionTotal(leading[..frameNumber], predict)
    ensures detectionWrites' == Snapshots(sessionId, allDetections')
  {
    NextFrame(leading, frameNumber - 1, predict, clock, sessionId);
    var detections := predict(frame);
    var event := FormatEvent(frameNumber, clock.frameIso(frameNumber), detections, frame);
    event := event.(sessionId := Some(sessionId));

    SnapshotsAppend(sessionId, allDetections, event);
    allDetections' := allDetections + [event];
    totalDetections' := totalDetections + |detections|;
    detectionWrites' := detectionWrites + [DetectionsRecord(sessionId, allDetections')];
  }

  /**
   * The frame loop of `main()`: read, number, detect, format, tag, store,
   * count and rewrite the current-detections file, until a read fails or the
   * quit key is seen after a frame. Returns the loop's counters, the stored
   * events and the writes of the current-detections file. The two ways out of
   * the loop are joined into one `stop` test at the end of the body; each
   * is first shown to stop where `FramesProcessed` says.
   */
  method ProcessFrames(video: VideoProcessor, cfg: Config, predict: Frame -> seq<Detection>, clock: Clock,
                       quitAfter: Option<nat>, sessionId: string, ghost results: seq<Option<Frame>>)
    returns (frameCount: nat, allDetections: seq<Event>, totalDetections: nat,
             detectionWrites: seq<DetectionsRecord>)
    requires video.Valid() && video.cap == Some(Capture(results, 0, true))
    requires video.currentFrame == 0 && video.ReadLog == []
    modifies video`cap, video`currentFrame, video`ReadLog
    ensures video.Valid() && video.currentFrame == frameCount
    ensures video.ReadLog == LoopReads(results, cfg, quitAfter)
    ensures video.cap == Some(LoopCapture(results, cfg, quitAfter))
    ensures frameCount == FramesProcessed(results, cfg, quitAfter)
    ensures allDetections == EventLog(LeadingFrames(results)[..frameCount], predict, clock, sessionId)
    ensures totalDetections == DetectionTotal(LeadingFrames(results)[..frameCount], predict)
    ensures detectionWrites == Snapshots(sessionId, allDetections)
  {
    allDetections, detectionWrites := [], [];
    frameCount, totalDetections := 0, 0;

    ghost var leading := LeadingFrames(results);
    while true
      invariant video.Valid() && video.cap == Some(Capture(results, frameCount, true))
      invariant video.currentFrame == frameCount
      invariant video.ReadLog == Trues(frameCount)
      invariant frameCount <= |leading|
      invariant cfg.displayWindow && quitAfter.Some? && 1 <= quitAfter.value ==> frameCount < quitAfter.value
      invariant allDetections == EventLog(leading[..frameCount], predict, clock, sessionId)
      invariant totalDetections == DetectionTotal(leading[..frameCount], predict)
      invariant detectionWrites == Snapshots(sessionId, allDetections)
      decreases |results| - frameCount
    {
      ReadStep(results, frameCount);
      var success, frame := video.ReadFrame();
      var stop := !success;
      if success {
        frameCount := frameCount + 1;
        allDetections, totalDetections, detectionWrites :=
          RecordFrame(leading, frameCount, frame.value, predict, clock, sessionId,
                      allDetections, totalDetections, detectionWrites);
        stop := cfg.displayWindow && quitAfter.Some? && quitAfter.value == frameCount;
        if stop {
          QuitAfterFrameK(results, cfg, frameCount, predict, clock, sessionId);
        }
      } else {
        FailedReadStops(results, cfg, quitAfter, frameCount);
      }
      if stop {
        break;
      }
    }
  }

  /**
   * `main()` of the local mode: open the video, write the initial session,
   * run the frame loop, then release the video, write the completed session
   * and the archive. When the video cannot be opened the run ends with that
   * error and writes nothing. `readLog` is the outcome of every frame read
   * the run issued; exactly as many of them succeed as frames are processed.
   * `finalCap` is the capture once the video is released: closed, where the
   * loop left it.
   */
  method RunLocal(cfg: Config, device: Device, predict: Frame -> seq<Detection>, clock: Clock,
                  quitAfter: Option<nat>)
    returns (r: Result<RunSummary, OpenError>, writes: FileWrites, ghost readLog: seq<bool>,
             ghost finalCap: Option<Capture>)
    ensures r.Failure? <==> OpenMetadata(cfg.input, device).Failure?
    ensures r.Failure? ==>
      r.error == OpenMetadata(cfg.input, device).error && writes == FileWrites([], [], []) && readLog == []
    ensures r.Success? ==>
      var sid := SessionId(clock.unixTime);
      var n := FramesProcessed(device.results, cfg, quitAfter);
      var frames := LeadingFrames(device.results)[..n];
      var events := EventLog(frames, predict, clock, sid);
      var total := DetectionTotal(frames, predict);
      var initial := InitialSession(sid, clock, cfg);
      var final := Finalized(initial, n, total, clock.endIso);
      && r.value == RunSummary(sid, n, total, final, events)
      && writes == FileWrites([initial, final], Snapshots(sid, events), [Archive(final, events)])
    ensures r.Success? ==> readLog == LoopReads(device.results, cfg, quitAfter)
    ensures r.Success? ==> finalCap == Some(LoopCapture(device.results, cfg, quitAfter).(open := false))
    ensures r.Success? ==> Successes(readLog) == FramesProcessed(device.results, cfg, quitAfter)
  {
    var sessionId := SessionId(clock.unixTime);
    var created := VideoProcessor.Open(cfg.input, device);
    if created.Failure? {
      return Failure(created.error), FileWrites([], [], []), [], None;
    }
    var video := created.value;
    var sessionData := InitialSession(sessionId, clock, cfg);
    var initialWrite := sessionData;

    var frameCount, allDetections, totalDetections, detectionWrites :=
      ProcessFrames(video, cfg, predict, clock, quitAfter, sessionId, device.results);
    readLog := video.ReadLog;

    video.Release();
    finalCap := video.cap;

    sessionData := Finalized(sessionData, frameCount, totalDetections, clock.endIso);
    var archives := [Archive(sessionData, allDetections)];

    r := Success(RunSummary(sessionId, frameCount, totalDetections, sessionData, allDetections));
    writes := FileWrites([initialWrite, sessionData], detectionWrites, archives);
  }
}
