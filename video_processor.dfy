/**
 * The video input of the drone edge node: a video file or a webcam opened
 * through a capture device, read one frame at a time, with a frame counter
 * and a progress figure.
 *
 * The capture backend is not modelled as code: what it reports when opened
 * (whether the file exists, whether it opened, its FPS, frame count and
 * resolution properties) and what successive reads deliver are inputs.
 */
module VideoSource {
  import opened Wrappers

  /** A decoded frame; `height`, `width` and `channels` are its array shape. */
  datatype Frame = Frame(height: nat, width: nat, channels: nat, pixels: seq<int>)

  /** A path to a video file, or the index of a webcam. */
  datatype Source = VideoFile(path: string) | Webcam(index: int)

  /** What the capture backend reports for a source. */
  datatype Device = Device(
    fileExists: bool,            // consulted for a video file only
    isOpened: bool,
    fpsProperty: real,           // the FPS property, as the backend's float
    frameCountProperty: real,    // the frame count property
    widthProperty: real,
    heightProperty: real,
    results: seq<Option<Frame>>) // what successive reads deliver, None for a failed read

  /**
   * An opened capture: the reads it will deliver, the index of the next one,
   * and whether it is open. A capture that is closed or used up fails every read.
   */
  datatype Capture = Capture(results: seq<Option<Frame>>, next: nat, open: bool)

  /** One read on a capture: the frame, if any, and the capture afterwards. */
  function CaptureRead(c: Capture): (r: (Option<Frame>, Capture))
    ensures r.1.results == c.results && r.1.open == c.open
    ensures c.open && c.next < |c.results| ==> r.0 == c.results[c.next] && r.1.next == c.next + 1
    ensures !(c.open && c.next < |c.results|) ==> r.0 == None && r.1 == c
  {
    if c.open && c.next < |c.results| then (c.results[c.next], c.(next := c.next + 1))
    else (None, c)
  }

  datatype OpenError =
    | WebcamOpenFailed            // RuntimeError("Failed to open webcam")
    | VideoNotFound(path: string) // FileNotFoundError
    | VideoOpenFailed(path: string) // RuntimeError("Failed to open video: ...")

  datatype Metadata = Metadata(fps: int, totalFrames: int, frameWidth: int, frameHeight: int)

  /** Python's `int(x)` on a float: truncation toward zero. */
  function Truncate(x: real): (n: int)
    ensures 0.0 <= x ==> n as real <= x < n as real + 1.0
    ensures x < 0.0 ==> n as real - 1.0 < x <= n as real
  {
    if x >= 0.0 then x.Floor else -((-x).Floor)
  }

  /**
   * The metadata `_open_source` extracts, or the error it raises. A webcam has
   * no known length (total frames -1) and falls back to 30 FPS when its FPS
   * property truncates to 0; a video file must exist and open.
   */
  function OpenMetadata(source: Source, d: Device): (r: Result<Metadata, OpenError>)
    ensures r.Success? <==> d.isOpened && (source.VideoFile? ==> d.fileExists)
    ensures source.VideoFile? && !d.fileExists ==> r == Failure(VideoNotFound(source.path))
    ensures source.VideoFile? && d.fileExists && !d.isOpened ==> r == Failure(VideoOpenFailed(source.path))
    ensures source.Webcam? && !d.isOpened ==> r == Failure(WebcamOpenFailed)
    ensures r.Success? && source.Webcam? ==>
      r.value.totalFrames == -1 && r.value.fps != 0 &&
      (Truncate(d.fpsProperty) != 0 ==> r.value.fps == Truncate(d.fpsProperty)) &&
      (Truncate(d.fpsProperty) == 0 ==> r.value.fps == 30)
    ensures r.Success? && source.VideoFile? ==>
      r.value.totalFrames == Truncate(d.frameCountProperty) && r.value.fps == Truncate(d.fpsProperty)
    ensures r.Success? ==>
      r.value.frameWidth == Truncate(d.widthProperty) && r.value.frameHeight == Truncate(d.heightProperty)
  {
    match source
    case Webcam(_) =>
      if !d.isOpened then Failure(WebcamOpenFailed)
      else
        var fps := Truncate(d.fpsProperty);
        Success(Metadata(if fps == 0 then 30 else fps, -1,
                         Truncate(d.widthProperty), Truncate(d.heightProperty)))
    case VideoFile(path) =>
      if !d.fileExists then Failure(VideoNotFound(path))
      else if !d.isOpened then Failure(VideoOpenFailed(path))
      else Success(Metadata(Truncate(d.fpsProperty), Truncate(d.frameCountProperty),
                            Truncate(d.widthProperty), Truncate(d.heightProperty)))
  }

  /** The number of successful reads in a log of read outcomes. */
  function Successes(log: seq<bool>): (n: nat)
    ensures n <= |log|
  {
    if log == [] then 0
    else Successes(log[..|log| - 1]) + (if log[|log| - 1] then 1 else 0)
  }

  /** The read log of n successful reads. */
  function Trues(n: nat): (log: seq<bool>)
    ensures |log| == n && Successes(log) == n
  {
    if n == 0 then [] else Trues(n - 1) + [true]
  }

  class VideoProcessor {
    const source: Source
    var cap: Option<Capture>
    var fps: int
    var totalFrames: int
    var currentFrame: int
    var frameWidth: int
    var frameHeight: int
    /** The outcome of every `ReadFrame` call so far, oldest first. */
    ghost var ReadLog: seq<bool>

    /** `currentFrame` counts the successful reads. */
    ghost predicate Valid()
      reads this
    {
      currentFrame == Successes(ReadLog)
    }

    function CurrentMetadata(): Metadata
      reads this
    {
      Metadata(fps, totalFrames, frameWidth, frameHeight)
    }

    /** The attribute defaults `__init__` sets before opening the source. */
    constructor Init(source: Source)
      ensures Valid() && this.source == source && ReadLog == []
      ensures cap == None && currentFrame == 0
      ensures CurrentMetadata() == Metadata(0, 0, 0, 0)
    {
      this.source := source;
      cap := None;
      fps, totalFrames, currentFrame := 0, 0, 0;
      frameWidth, frameHeight := 0, 0;
      ReadLog := [];
    }

    /**
     * `_open_source`: creates the capture and reads its metadata, or reports
     * the error it would raise. A missing file creates no capture.
     */
    method OpenSource(d: Device) returns (err: Option<OpenError>)
      requires Valid()
      modifies this`cap, this`fps, this`totalFrames, this`frameWidth, this`frameHeight
      ensures Valid()
      ensures err.None? <==> OpenMetadata(source, d).Success?
      ensures err.Some? ==> err.value == OpenMetadata(source, d).error
      ensures err.None? ==>
        cap == Some(Capture(d.results, 0, true)) && CurrentMetadata() == OpenMetadata(source, d).value
      ensures source.VideoFile? && !d.fileExists ==> cap == old(cap)
      ensures err.Some? && !(source.VideoFile? && !d.fileExists) ==> cap == Some(Capture(d.results, 0, false))
      ensures err.Some? ==> CurrentMetadata() == old(CurrentMetadata())
    {
      if source.Webcam? {
        cap := Some(Capture(d.results, 0, d.isOpened));
        if !d.isOpened {
          return Some(WebcamOpenFailed);
        }
        var reported := Truncate(d.fpsProperty);
        fps := if reported == 0 then 30 else reported;
        totalFrames := -1;
        frameWidth := Truncate(d.widthProperty);
        frameHeight := Truncate(d.heightProperty);
        return None;
      }
      var path := source.path;
      if !d.fileExists {
        return Some(VideoNotFound(path));
      }
      cap := Some(Capture(d.results, 0, d.isOpened));
      if !d.isOpened {
        return Some(VideoOpenFailed(path));
      }
      fps := Truncate(d.fpsProperty);
      totalFrames := Truncate(d.frameCountProperty);
      frameWidth := Truncate(d.widthProperty);
      frameHeight := Truncate(d.heightProperty);
      err := None;
    }

    /**
     * `VideoProcessor(source)`: the defaults, then `_open_source`. When opening
     * fails no processor is produced, only the error.
     */
    static method Open(source: Source, d: Device) returns (r: Result<VideoProcessor, OpenError>)
      ensures r.Failure? <==> OpenMetadata(source, d).Failure?
      ensures r.Failure? ==> r.error == OpenMetadata(source, d).error
      ensures r.Success? ==>
        && fresh(r.value) && r.value.Valid()
        && r.value.source == source
        && r.value.cap == Some(Capture(d.results, 0, true))
        && r.value.currentFrame == 0 && r.value.ReadLog == []
        && r.value.CurrentMetadata() == OpenMetadata(source, d).value
    {
      var vp := new VideoProcessor.Init(source);
      var err := vp.OpenSource(d);
      if err.Some? {
        return Failure(err.value);
      }
      r := Success(vp);
    }

    /**
     * `read_frame`: without a capture, a failed read; otherwise one read on the
     * capture. Only a successful read moves the frame counter, by one.
     */
    method ReadFrame() returns (ok: bool, frame: Option<Frame>)
      requires Valid()
      modifies this`cap, this`currentFrame, this`ReadLog
      ensures Valid()
      ensures ok <==> frame.Some?
      ensures old(cap).None? ==> !ok && cap == None
      ensures old(cap).Some? ==> (frame, cap) == (CaptureRead(old(cap).value).0, Some(CaptureRead(old(cap).value).1))
      ensures currentFrame == old(currentFrame) + (if ok then 1 else 0)
      ensures ReadLog == old(ReadLog) + [ok]
    {
      if cap.None? {
        ok, frame := false, None;
      } else {
        var (f, c) := CaptureRead(cap.value);
        cap := Some(c);
        frame := f;
        ok := f.Some?;
        if ok {
          currentFrame := currentFrame + 1;
        }
      }
      ReadLog := ReadLog + [ok];
      assert ReadLog[..|ReadLog| - 1] == old(ReadLog);
    }

    /**
     * `get_progress`: -1 when the length is unknown or not positive (a webcam
     * reports -1), otherwise the percentage of the reported frames read so far.
     */
    function GetProgress(): (p: real)
      reads this
      ensures totalFrames <= 0 ==> p == -1.0
      ensures totalFrames > 0 ==> p * totalFrames as real == 100.0 * currentFrame as real
      ensures totalFrames > 0 && 0 <= currentFrame <= totalFrames ==> 0.0 <= p <= 100.0
    {
      if totalFrames <= 0 then -1.0
      else
        PercentageOf(currentFrame, totalFrames);
        (currentFrame as real / totalFrames as real) * 100.0
    }

    /** `release`: closes the capture, if there is one; nothing else changes. */
    method Release()
      modifies this`cap
      ensures old(cap).None? ==> cap == None
      ensures old(cap).Some? ==> cap == Some(old(cap).value.(open := false))
    {
      if cap.Some? {
        cap := Some(cap.value.(open := false));
      }
    }

    /** `__exit__` of the context manager: releases the source. */
    method Exit()
      modifies this`cap
      ensures old(cap).None? ==> cap == None
      ensures old(cap).Some? ==> cap == Some(old(cap).value.(open := false))
    {
      Release();
    }
  }

  lemma PercentageOf(c: int, t: int)
    requires t > 0
    ensures (c as real / t as real) * 100.0 * t as real == 100.0 * c as real
    ensures 0 <= c <= t ==> 0.0 <= (c as real / t as real) * 100.0 <= 100.0
  {
    var q := c as real / t as real;
    assert q * t as real == c as real;
    if 0 <= c <= t {
      assert 0.0 <= q;
      assert q <= 1.0;
    }
  }
}
