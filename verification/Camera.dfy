/**
  The capture state machine of the camera (libcamera/CameraHardware.cpp over libcamera/V4L2Camera.cpp):
  the size that the driver captures, the sizes that the heaps were made for, and the preview thread.
 */
module Cameras {
  import opened Bytes
  import opened Options
  import opened V4l2

  /** What the system calls of one attempt to start a capture answer: whether the device opens, takes
      the format, keeps mode and format and with which line length, gives buffers, and streams. */
  datatype Driver = Driver(opens: bool, accepts: bool, keeps: bool, bytesPerLine: nat, maps: bool, streams: bool)

  /** width * height << 1: a frame in YUYV. */
  function YuyvBytes(width: int, height: int): int { 2 * (width * height) }

  lemma FrameLines(width: nat, height: nat)
    ensures Lines(height, 2 * width) == YuyvBytes(width, height)
  {
    LinesProduct(height, 2 * width);
    assert height * (2 * width) == 2 * (width * height);
  }

  /** The device has a mode for the size. */
  predicate Offers(modes: seq<Mode>, width: int, height: int) {
    exists m :: m in modes && m.Covers(width, height)
  }

  class V4l2Camera {
    /** The modes that the device offers. */
    const modes: seq<Mode>
    var outWidth: int
    var outHeight: int
    var outFrameSize: int
    /** How frames are cut out, if the driver kept mode and format. */
    var geometry: Option<Geometry>
    var streaming: bool

    ghost predicate Valid()
      reads this
    {
      geometry.Some? ==>
        geometry.value.Valid() && geometry.value.outWidth == outWidth && geometry.value.outHeight == outHeight &&
        outFrameSize == YuyvBytes(outWidth, outHeight)
    }

    constructor (modes: seq<Mode>)
      ensures this.modes == modes && Valid()
    {
      this.modes := modes;
      outWidth, outHeight, outFrameSize, geometry, streaming := 0, 0, 0, None, false;
    }

    /** Open: everything about the previous capture is forgotten. */
    method Open(d: Driver) returns (ok: bool)
      modifies this
      ensures Valid() && ok == d.opens
      ensures outWidth == 0 && outHeight == 0 && outFrameSize == 0 && geometry == None && !streaming
    {
      outWidth, outHeight, outFrameSize, geometry, streaming := 0, 0, 0, None, false;
      ok := d.opens;
    }

    /** Init: choose a mode and crop out of it; a mode that covers the request never makes the output
        smaller than that.  The sizes stay when the buffers cannot be had afterwards. */
    method Init(width: int, height: int, fps: int, d: Driver) returns (ok: bool)
      requires Valid()
      modifies this
      ensures Valid() && streaming == old(streaming)
      ensures ok ==> d.accepts && d.maps && Offers(modes, width, height)
      ensures !d.accepts || !Offers(modes, width, height) ==> unchanged(this)
      ensures d.accepts && Offers(modes, width, height) && 0 <= width && 0 <= height ==>
        ok == d.maps && geometry.Some? == d.keeps
      ensures ok || (d.accepts && Offers(modes, width, height) && 0 <= width && 0 <= height) ==>
        outWidth == width && outHeight == height && outFrameSize == YuyvBytes(width, height)
    {
      if |modes| == 0 { return false; }
      var closest := ChooseMode(modes, width, height, fps);
      if closest.None? || !d.accepts { return false; }
      var mode := closest.value;
      var startX, startY := Margin(mode.width - width), Margin(mode.height - height);
      outWidth := if startX < 0 then width + startX else width;
      outHeight := if startY < 0 then height + startY else height;
      outFrameSize := YuyvBytes(width, height);
      var line := if d.bytesPerLine < 2 * mode.width then 2 * mode.width else d.bytesPerLine;
      geometry := if d.keeps && 0 <= width && 0 <= height then Some(Cropped(width, height, mode, line)) else None;
      return d.maps;
    }

    method StartStreaming(d: Driver) returns (ok: bool)
      modifies this`streaming
      ensures ok == (old(streaming) || d.streams)
    {
      if !streaming {
        if !d.streams { return false; }
        streaming := true;
      }
      return true;
    }

    /** StopStreaming, where the driver may refuse. */
    method StopStreaming(stops: bool)
      modifies this`streaming
    {
      if streaming && stops { streaming := false; }
    }

    /** GrabRawFrame in YUYV: a frame that the buffer has no room for is dropped, any other is copied
        row by row and leaves what is behind it alone. */
    method GrabRawFrame(frame: array<byte>, maxSize: int, src: seq<byte>) returns (dropped: bool)
      requires Valid() && geometry.Some? && maxSize <= frame.Length
      requires |src| >= Lines(geometry.value.capHeight, geometry.value.bytesPerLine)
      modifies frame
      ensures dropped <==> maxSize < outFrameSize
      ensures dropped ==> unchanged(frame)
      ensures !dropped ==> outFrameSize == Lines(outHeight, 2 * outWidth) <= frame.Length
      ensures !dropped ==> forall y :: 0 <= y < outHeight ==> RowCopied(frame[..], src, geometry.value, y)
      ensures !dropped ==> frame[outFrameSize..] == old(frame[outFrameSize..])
    {
      hide Lines, YuyvBytes, RowCopied;
      if maxSize < outFrameSize { return true; }
      FrameLines(outWidth, outHeight);
      CopyYuyv(frame, src, geometry.value);
      return false;
    }
  }

  // ---------------------------------------------------------------- parameters

  datatype Format = Yuyv | Sp422 | Sp420 | Planar420

  datatype Size = Size(width: int, height: int)

  datatype Parameters = Parameters(
    preview: Size, picture: Size, video: Size,
    previewFormat: Option<Format>, pictureJpeg: bool, videoFormat: Option<Format>, fps: int)

  /** (x + 15) & -16 */
  function Round16(x: int): int { (x + 15) / 16 * 16 }

  /** Bytes of a frame in a format. */
  function FrameBytes(format: Option<Format>, s: Size): int {
    match format
    case None => 0
    case Some(Yuyv) => YuyvBytes(s.width, s.height)
    case Some(Sp422) => s.width * s.height * 3 / 2
    case Some(Sp420) => s.width * s.height * 3 / 2
    case Some(Planar420) =>
      var stride := Round16(s.width);
      stride * s.height + Round16(stride / 2) * s.height / 2 * 2
  }

  lemma Quarter(a: int, b: int)
    ensures (2 * a) * (2 * b) == 4 * (a * b)
    ensures a * (2 * b) == 2 * (a * b)
  {
  }

  /** Lines are rounded up to 16 bytes. */
  lemma RoundsUp(x: nat)
    ensures Round16(x) % 16 == 0 && x <= Round16(x) < x + 16
    ensures x % 16 == 0 ==> Round16(x) == x
  {
  }

  /** A frame of 2a times 2b pixels in YUV 4:2:0 holds a byte of brightness for each pixel and two bytes of
      colour for each four; YUYV holds two bytes for each pixel. */
  lemma FramesHold(a: nat, b: nat)
    ensures FrameBytes(Some(Yuyv), Size(2 * a, 2 * b)) == 8 * (a * b)
    ensures FrameBytes(Some(Sp420), Size(2 * a, 2 * b)) == 4 * (a * b) + 2 * (a * b)
    ensures FrameBytes(Some(Sp422), Size(2 * a, 2 * b)) == 4 * (a * b) + 2 * (a * b)
  {
    Quarter(a, b);
  }

  /** In the planar format the lines of the three planes are rounded up first. */
  lemma PlanesHold(w: nat, b: nat)
    ensures FrameBytes(Some(Planar420), Size(w, 2 * b)) == 2 * (Round16(w) * b) + 2 * (Round16(Round16(w) / 2) * b)
  {
    hide Round16;
    Quarter(Round16(w), b);
    Quarter(Round16(Round16(w) / 2), b);
  }

  /** So nothing is added to lines of a multiple of 32 pixels. */
  lemma PlanesFit(w: nat, b: nat)
    ensures FrameBytes(Some(Planar420), Size(32 * w, 2 * b)) == 64 * (w * b) + 2 * (16 * (w * b))
  {
    hide Round16, FrameBytes;
    PlanesHold(32 * w, b);
    RoundsUp(32 * w);
    RoundsUp(16 * w);
    TimesOut(32, w, b);
    TimesOut(16, w, b);
  }

  lemma TimesOut(k: int, w: int, b: int)
    ensures (k * w) * b == k * (w * b)
  {
  }

  const BUFFER_COUNT: int := 4

  /** What the heaps are made for: the size of the raw frames, the formats, and the bytes of a frame. */
  datatype Layout = Layout(
    raw: Size, rawBytes: int, previewFormat: Option<Format>, previewBytes: int,
    recFormat: Option<Format>, recBytes: int, pictureBytes: int)

  /** The layout that some parameters ask for, when the raw frames have the size of the video or not. */
  function Needed(p: Parameters, video: bool): Layout {
    var raw := if video then p.video else p.preview;
    Layout(raw, YuyvBytes(raw.width, raw.height), p.previewFormat, FrameBytes(p.previewFormat, p.preview),
           p.videoFormat, FrameBytes(p.videoFormat, p.video), YuyvBytes(p.picture.width, p.picture.height))
  }

  /** A change between the layouts stops a running preview: everything but the formats and the picture. */
  predicate Restarts(before: Layout, after: Layout) {
    before.raw != after.raw || before.rawBytes != after.rawBytes ||
    before.previewBytes != after.previewBytes || before.recBytes != after.recBytes
  }

  /** Whether a preview that runs after a change is in step.  With an allocator it is, if it was started
      again or captured the right size before; without one only if nothing had to change. */
  predicate Agrees(memory: bool, captured: bool, before: Layout, after: Layout) {
    if memory then captured || Restarts(before, after) else captured && before == after
  }

  // ---------------------------------------------------------------- the hardware object

  class CameraHardware {
    const camera: V4l2Camera
    var parameters: Parameters
    /** Whether there is a preview thread, a memory allocator, a recording, and whether the video frame
        message is enabled. */
    var previewThread: bool
    var requestMemory: bool
    var recording: bool
    var videoMsg: bool

    var rawWidth: int
    var rawHeight: int
    var rawFrameSize: int
    /** The bytes of a heap, if it could be allocated. */
    var rawHeap: Option<int>
    var previewFormat: Option<Format>
    var previewFrameSize: int
    var previewHeap: Option<int>
    var recFormat: Option<Format>
    var recFrameSize: int
    var recHeap: Option<int>
    var pictureBytes: int

    /** The raw frames are those of the video. */
    predicate Video()
      reads this
    {
      recording && videoMsg
    }

    /** The size to capture: that of the video while recording, else that of the preview. */
    function ActiveSize(): Size
      reads this
    {
      if Video() then parameters.video else parameters.preview
    }

    /** What the heaps are made for now. */
    function Laid(): Layout
      reads this
    {
      Layout(Size(rawWidth, rawHeight), rawFrameSize, previewFormat, previewFrameSize, recFormat, recFrameSize,
        pictureBytes)
    }

    /** Heaps, where they could be allocated, have the size of their frames. */
    ghost predicate Sized()
      reads this
    {
      (rawHeap.Some? ==> rawHeap.value == rawFrameSize) &&
      (previewHeap.Some? ==> previewHeap.value == previewFrameSize * BUFFER_COUNT) &&
      (recHeap.Some? ==> recHeap.value == recFrameSize * BUFFER_COUNT)
    }

    /** Heaps and formats are those of the parameters. */
    ghost predicate Fitted()
      reads this
    {
      Laid() == Needed(parameters, Video())
    }

    /** The driver captures what the raw preview heap was made for. */
    ghost predicate Captures()
      reads this, camera
    {
      Size(camera.outWidth, camera.outHeight) == Size(rawWidth, rawHeight) &&
      camera.outFrameSize == rawFrameSize == YuyvBytes(rawWidth, rawHeight)
    }

    /** Parameters, heaps and driver agree. */
    ghost predicate InStep()
      reads this, camera
    {
      Fitted() && Captures()
    }

    ghost predicate Valid()
      reads this, camera
    {
      Sized() && camera.Valid()
    }

    constructor (modes: seq<Mode>, p: Parameters)
      ensures Valid() && !previewThread && !requestMemory && !recording && !videoMsg
      ensures parameters == p && camera.modes == modes && fresh(camera)
    {
      camera := new V4l2Camera(modes);
      parameters := p;
      previewThread, requestMemory, recording, videoMsg := false, false, false, false;
      rawWidth, rawHeight, rawFrameSize, rawHeap := 0, 0, 0, None;
      previewFormat, previewFrameSize, previewHeap := None, 0, None;
      recFormat, recFrameSize, recHeap, pictureBytes := None, 0, None, 0;
    }

    /** stopPreviewLocked */
    method StopPreviewLocked()
      modifies this`previewThread, camera`streaming
      ensures !previewThread && (!old(previewThread) ==> camera.streaming == old(camera.streaming))
    {
      if previewThread {
        previewThread := false;
        var stops: bool := *;
        camera.StopStreaming(stops);
      }
    }

    /** Stop the preview because of a change, to be started again. */
    method StopForChange(restart0: bool) returns (restart: bool)
      modifies this`previewThread, camera`streaming
      ensures !previewThread && restart == (restart0 || old(previewThread))
      ensures !old(previewThread) ==> camera.streaming == old(camera.streaming)
    {
      restart := restart0 || previewThread;
      StopPreviewLocked();
    }

    /** mRequestMemory for one heap. */
    method Allocate(bytes: int) returns (heap: Option<int>)
      ensures heap == None || heap == Some(bytes)
    {
      var ok: bool := *;
      heap := if ok then Some(bytes) else None;
    }

    /** The part of initHeapLocked about the raw preview; no heap is replaced under a running thread. */
    method InitRaw() returns (restart: bool)
      requires Sized()
      modifies this`previewThread, this`rawWidth, this`rawHeight, this`rawFrameSize, this`rawHeap, camera`streaming
      ensures Sized() && Size(rawWidth, rawHeight) == ActiveSize() && rawFrameSize == YuyvBytes(rawWidth, rawHeight)
      ensures restart == (old(previewThread) && !previewThread) && (previewThread ==> old(previewThread))
      ensures old(previewThread) ==>
        (previewThread <==> old(Size(rawWidth, rawHeight)) == ActiveSize() && old(rawFrameSize) == rawFrameSize)
      ensures previewThread ==> rawHeap == old(rawHeap)
      ensures previewThread == old(previewThread) ==> camera.streaming == old(camera.streaming)
    {
      restart := false;
      var active := ActiveSize();
      var big := YuyvBytes(active.width, active.height);
      if rawWidth != active.width || rawHeight != active.height {
        restart := StopForChange(restart);
        rawWidth, rawHeight := active.width, active.height;
      }
      if big != rawFrameSize {
        restart := StopForChange(restart);
        rawFrameSize := big;
        rawHeap := Allocate(rawFrameSize);
      }
    }

    /** The part about the preview format. */
    method InitPreview(restart0: bool) returns (restart: bool)
      requires Sized()
      modifies this`previewThread, this`previewFormat, this`previewFrameSize, this`previewHeap, camera`streaming
      ensures Sized()
      ensures previewFormat == (if parameters.previewFormat.Some? then parameters.previewFormat else old(previewFormat))
      ensures previewFrameSize == FrameBytes(parameters.previewFormat, parameters.preview)
      ensures previewThread ==> previewHeap == old(previewHeap)
      ensures old(previewThread) ==> (previewThread <==> previewFrameSize == old(previewFrameSize))
      ensures restart == (restart0 || (old(previewThread) && !previewThread)) && (previewThread ==> old(previewThread))
      ensures previewThread == old(previewThread) ==> camera.streaming == old(camera.streaming)
    {
      hide FrameBytes, YuyvBytes;
      restart := restart0;
      if parameters.previewFormat.Some? { previewFormat := parameters.previewFormat; }
      var big := FrameBytes(parameters.previewFormat, parameters.preview);
      if big != previewFrameSize {
        restart := StopForChange(restart);
        previewFrameSize := big;
        previewHeap := Allocate(previewFrameSize * BUFFER_COUNT);
      }
    }

    /** The parts about the recording and the pictures. */
    method InitRecording(restart0: bool) returns (restart: bool)
      requires Sized()
      modifies this`previewThread, this`recFormat, this`recFrameSize, this`recHeap, this`pictureBytes, camera`streaming
      ensures Sized()
      ensures recFormat == (if parameters.videoFormat.Some? then parameters.videoFormat else old(recFormat))
      ensures recFrameSize == FrameBytes(parameters.videoFormat, parameters.video)
      ensures previewThread ==> recHeap == old(recHeap)
      ensures old(previewThread) ==> (previewThread <==> recFrameSize == old(recFrameSize))
      ensures pictureBytes == YuyvBytes(parameters.picture.width, parameters.picture.height)
      ensures restart == (restart0 || (old(previewThread) && !previewThread)) && (previewThread ==> old(previewThread))
      ensures previewThread == old(previewThread) ==> camera.streaming == old(camera.streaming)
    {
      hide FrameBytes, YuyvBytes;
      restart := restart0;
      if parameters.videoFormat.Some? { recFormat := parameters.videoFormat; }
      var big := FrameBytes(parameters.videoFormat, parameters.video);
      if big != recFrameSize {
        restart := StopForChange(restart);
        recFrameSize := big;
        recHeap := Allocate(recFrameSize * BUFFER_COUNT);
      }
      pictureBytes := YuyvBytes(parameters.picture.width, parameters.picture.height);
    }

    /** The formats that setParameters lets through. */
    ghost predicate Formats()
      reads this
    {
      parameters.previewFormat.Some? && parameters.videoFormat.Some?
    }

    /** The system calls answer, and the device has a mode for the size. */
    ghost predicate CanStart(d: Driver)
      reads this
    {
      d.opens && d.accepts && d.maps && d.streams && 0 <= ActiveSize().width && 0 <= ActiveSize().height &&
      Offers(camera.modes, ActiveSize().width, ActiveSize().height)
    }

    /** initHeapLocked: fit the heaps to the parameters; if that takes a new capture size or new heaps,
        stop the preview and start it again.  Without an allocator it does nothing.  The last clause is
        the exact condition for a preview that runs afterwards to be in step. */
    method InitHeapLocked(d: Driver)
      requires Valid() && Formats()
      modifies this, camera
      ensures Valid() && Formats() && unchanged(this`parameters, this`requestMemory, this`recording, this`videoMsg)
      ensures !requestMemory ==> unchanged(this, camera)
      ensures requestMemory ==> Fitted()
      ensures !old(previewThread) ==> !previewThread && unchanged(camera)
      ensures requestMemory && old(previewThread) && !Restarts(old(Laid()), Needed(parameters, Video())) ==>
        previewThread
      ensures requestMemory && CanStart(d) ==> previewThread == old(previewThread)
      ensures previewThread ==>
        (InStep() <==> Agrees(requestMemory, old(Captures()), old(Laid()), Needed(parameters, Video())))
      decreases if previewThread then 2 else 0, 1
    {
      if requestMemory {
        RefitLocked(d);
      }
    }

    /** All parts of initHeapLocked but the last. */
    method Refit() returns (restart: bool)
      requires Sized() && Formats()
      modifies this, camera`streaming
      ensures Sized() && Fitted()
      ensures unchanged(this`parameters, this`requestMemory, this`recording, this`videoMsg)
      ensures restart <==> old(previewThread) && Restarts(old(Laid()), Laid())
      ensures previewThread <==> old(previewThread) && !restart
      ensures previewThread == old(previewThread) ==> unchanged(camera)
    {
      hide FrameBytes, YuyvBytes;
      restart := InitRaw();
      restart := InitPreview(restart);
      restart := InitRecording(restart);
    }

    /** initHeapLocked with an allocator. */
    method RefitLocked(d: Driver)
      requires Valid() && Formats() && requestMemory
      modifies this, camera
      ensures Valid() && Formats() && Fitted()
      ensures unchanged(this`parameters, this`requestMemory, this`recording, this`videoMsg)
      ensures !old(previewThread) ==> !previewThread && unchanged(camera)
      ensures CanStart(d) ==> previewThread == old(previewThread)
      ensures old(previewThread) && !Restarts(old(Laid()), Laid()) ==>
        previewThread && (Captures() <==> old(Captures()))
      ensures previewThread && Restarts(old(Laid()), Laid()) ==> Captures()
      decreases if previewThread then 2 else 0, 0
    {
      hide FrameBytes, YuyvBytes;
      var restart := Refit();
      if restart {
        var ok := StartPreviewLocked(d);
      }
    }

    /** Open the device and ask for the active size; the size that comes out is stored. */
    method OpenCapture(d: Driver) returns (ok: bool)
      modifies this`parameters, camera
      ensures parameters == old(parameters) && camera.Valid()
      ensures ok ==> Size(camera.outWidth, camera.outHeight) == ActiveSize()
      ensures ok ==> camera.outFrameSize == YuyvBytes(camera.outWidth, camera.outHeight)
      ensures CanStart(d) ==> ok
    {
      var size := ActiveSize();
      ok := camera.Open(d);
      if !ok { return false; }
      ok := camera.Init(size.width, size.height, parameters.fps, d);
      if !ok { return false; }
      if Video() {
        parameters := parameters.(video := Size(camera.outWidth, camera.outHeight));
      } else {
        parameters := parameters.(preview := Size(camera.outWidth, camera.outHeight));
      }
    }

    /** startPreviewLocked: capture at the active size, fit the heaps to it, and start the thread.  A
        preview started without an allocator is in step exactly if the heaps happened to fit. */
    method StartPreviewLocked(d: Driver) returns (ok: bool)
      requires Valid() && Formats()
      modifies this, camera
      ensures Valid() && Formats() && unchanged(this`parameters, this`requestMemory, this`recording, this`videoMsg)
      ensures ok <==> previewThread
      ensures CanStart(d) ==> ok
      ensures old(previewThread) ==> unchanged(this, camera)
      ensures ok && !old(previewThread) ==>
        Size(camera.outWidth, camera.outHeight) == ActiveSize() &&
        camera.outFrameSize == YuyvBytes(camera.outWidth, camera.outHeight)
      ensures ok && !old(previewThread) ==> (InStep() <==> requestMemory || old(Fitted()))
      ensures Laid() == old(Laid()) || (requestMemory && Fitted())
      decreases 1, 0
    {
      hide FrameBytes, YuyvBytes;
      if previewThread { return true; }
      ok := OpenCapture(d);
      if !ok { return false; }
      InitHeapLocked(d);
      ok := camera.StartStreaming(d);
      if !ok { return false; }
      previewThread := true;
    }

    // ---------------------------------------------------------------- the calls

    /** setCallbacks, as far as the allocator is concerned. */
    method SetCallbacks(memory: bool)
      requires Valid()
      modifies this`requestMemory
      ensures Valid() && requestMemory == memory
    {
      requestMemory := memory;
    }

    /** startPreview */
    method StartPreview(d: Driver) returns (ok: bool)
      requires Valid() && Formats()
      modifies this, camera
      ensures Valid() && Formats() && unchanged(this`parameters, this`requestMemory, this`recording, this`videoMsg)
      ensures ok <==> previewThread
      ensures CanStart(d) || old(previewThread) ==> ok
      ensures old(previewThread) ==> unchanged(this, camera)
      ensures ok && !old(previewThread) ==>
        Size(camera.outWidth, camera.outHeight) == ActiveSize() &&
        camera.outFrameSize == YuyvBytes(camera.outWidth, camera.outHeight)
      ensures ok && !old(previewThread) ==> (InStep() <==> requestMemory || old(Fitted()))
      ensures Laid() == old(Laid()) || (requestMemory && Fitted())
    {
      ok := StartPreviewLocked(d);
    }

    /** stopPreview */
    method StopPreview()
      requires Valid()
      modifies this`previewThread, camera`streaming
      ensures Valid() && !previewThread
    {
      StopPreviewLocked();
    }

    /** setParameters: unsupported formats are refused without a change. */
    method SetParameters(p: Parameters, d: Driver) returns (ok: bool)
      requires Valid() && Formats()
      modifies this, camera
      ensures Valid() && Formats() && unchanged(this`requestMemory, this`recording, this`videoMsg)
      ensures ok == (p == old(parameters) || (p.previewFormat.Some? && p.pictureJpeg && p.videoFormat.Some?))
      ensures parameters == if ok then p else old(parameters)
      ensures !ok || p == old(parameters) ==> unchanged(this, camera)
      ensures !requestMemory ==> unchanged(camera, this`previewThread) && Laid() == old(Laid())
      ensures requestMemory && ok && p != old(parameters) ==>
        Fitted() && (CanStart(d) ==> previewThread == old(previewThread))
      ensures previewThread ==>
        old(previewThread) &&
        (InStep() <==>
          if ok && p != old(parameters)
          then Agrees(requestMemory, old(Captures()), old(Laid()), Needed(p, Video()))
          else old(InStep()))
    {
      if p == parameters { return true; }
      if p.previewFormat.None? || !p.pictureJpeg || p.videoFormat.None? { return false; }
      parameters := p;
      InitHeapLocked(d);
      ok := true;
    }

    /** startRecording: captures at the video size from now on, if the video message is enabled. */
    method StartRecording(d: Driver)
      requires Valid() && Formats()
      modifies this, camera
      ensures Valid() && Formats() && recording && unchanged(this`parameters, this`requestMemory, this`videoMsg)
      ensures requestMemory && CanStart(d) ==> previewThread == old(previewThread)
      ensures !requestMemory ==> unchanged(camera, this`previewThread) && Laid() == old(Laid())
      ensures previewThread ==>
        old(previewThread) &&
        (InStep() <==>
          if Video() && !old(recording)
          then Agrees(requestMemory, old(Captures()), old(Laid()), Needed(parameters, true))
          else old(InStep()))
    {
      if !recording {
        recording := true;
        if videoMsg { InitHeapLocked(d); }
      }
    }

    /** stopRecording: captures at the preview size again. */
    method StopRecording(d: Driver)
      requires Valid() && Formats()
      modifies this, camera
      ensures Valid() && Formats() && !recording && unchanged(this`parameters, this`requestMemory, this`videoMsg)
      ensures requestMemory && CanStart(d) ==> previewThread == old(previewThread)
      ensures !requestMemory ==> unchanged(camera, this`previewThread) && Laid() == old(Laid())
      ensures previewThread ==>
        old(previewThread) &&
        (InStep() <==>
          if old(Video()) then Agrees(requestMemory, old(Captures()), old(Laid()), Needed(parameters, false))
          else old(InStep()))
    {
      if recording {
        recording := false;
        if videoMsg { InitHeapLocked(d); }
      }
    }

    /** enableMsgType and disableMsgType; `video` if CAMERA_MSG_VIDEO_FRAME is among the messages. */
    method SetMsgType(video: bool, enable: bool, d: Driver)
      requires Valid() && Formats()
      modifies this, camera
      ensures Valid() && Formats() && unchanged(this`parameters, this`requestMemory, this`recording)
      ensures videoMsg == if video then enable else old(videoMsg)
      ensures requestMemory && CanStart(d) ==> previewThread == old(previewThread)
      ensures !requestMemory ==> unchanged(camera, this`previewThread) && Laid() == old(Laid())
      ensures previewThread ==>
        old(previewThread) &&
        (InStep() <==>
          if Video() != old(Video())
          then Agrees(requestMemory, old(Captures()), old(Laid()), Needed(parameters, enable))
          else old(InStep()))
    {
      if video {
        var toggled := videoMsg != enable;
        videoMsg := enable;
        if toggled && recording { InitHeapLocked(d); }
      }
    }

    /** The start of pictureThread: the preview is stopped, and the capture goes to the picture size;
        whether Init succeeds is not looked at. */
    method BeginPicture(d: Driver)
      requires Valid() && Formats()
      modifies this, camera
      ensures Valid() && Formats() && !previewThread && unchanged(this`requestMemory, this`recording, this`videoMsg)
      ensures requestMemory && d.opens ==> Fitted() && parameters.picture == Size(camera.outWidth, camera.outHeight)
      ensures !requestMemory || !d.opens ==> Laid() == old(Laid())
      ensures var size := old(parameters.picture);
        d.opens && d.accepts && 0 <= size.width && 0 <= size.height && Offers(camera.modes, size.width, size.height) ==>
        parameters == old(parameters)
    {
      StopPreviewLocked();
      var ok := camera.Open(d);
      if ok {
        ok := camera.Init(parameters.picture.width, parameters.picture.height, 1, d);
        parameters := parameters.(picture := Size(camera.outWidth, camera.outHeight));
        InitHeapLocked(d);
        ok := camera.StartStreaming(d);
      }
    }

    /** previewThread up to the frame: the bytes of the buffer that is captured into, or None when there
        is no buffer yet.  In step, the frame is never dropped for lack of space and the buffer is large
        enough; a recording copies exactly a captured frame. */
    method GrabFrame() returns (room: Option<int>, dropped: bool)
      requires Valid() && previewThread
      ensures room.None? <==> rawHeap.None? || previewHeap.None?
      ensures dropped <==> room.Some? && rawFrameSize < camera.outFrameSize
      ensures InStep() && room.Some? ==> room.value >= camera.outFrameSize && !dropped
      ensures InStep() ==>
        Size(camera.outWidth, camera.outHeight) ==
          (if recording && videoMsg then parameters.video else parameters.preview) &&
        rawFrameSize == camera.outFrameSize == 2 * (camera.outWidth * camera.outHeight)
      ensures InStep() && Video() && recFormat == Some(Yuyv) ==> recFrameSize == camera.outFrameSize
    {
      dropped := false;
      if rawHeap.None? || previewHeap.None? { return None, dropped; }
      var direct := previewFormat == Some(Yuyv) && (!recording || rawFrameSize == previewFrameSize);
      room := Some(if direct then previewFrameSize else rawHeap.value);
      dropped := rawFrameSize < camera.outFrameSize;
    }
  }

  // ---------------------------------------------------------------- every run

  /** What a client may ask for. */
  datatype Request = Preview | NoPreview | Configure(p: Parameters) | Record | NoRecord |
    Message(video: bool, enable: bool) | Picture

  method Serve(c: CameraHardware, r: Request, d: Driver)
    requires c.Valid() && c.Formats() && c.requestMemory && (c.previewThread ==> c.InStep())
    modifies c, c.camera
    ensures c.Valid() && c.Formats() && c.requestMemory && (c.previewThread ==> c.InStep())
  {
    hide FrameBytes, YuyvBytes;
    match r
    case Preview => var ok := c.StartPreview(d);
    case NoPreview => c.StopPreview();
    case Configure(p) => var ok := c.SetParameters(p, d);
    case Record => c.StartRecording(d);
    case NoRecord => c.StopRecording(d);
    case Message(video, enable) => c.SetMsgType(video, enable, d);
    case Picture => c.BeginPicture(d);
  }

  /** With an allocator, a running preview is in step after any requests, whatever the driver answers. */
  method ServeAll(c: CameraHardware, requests: seq<(Request, Driver)>)
    requires c.Valid() && c.Formats() && c.requestMemory && !c.previewThread
    modifies c, c.camera
    ensures c.Valid() && c.requestMemory && (c.previewThread ==> c.InStep())
    ensures c.previewThread ==>
      Size(c.camera.outWidth, c.camera.outHeight) ==
        if c.recording && c.videoMsg then c.parameters.video else c.parameters.preview
  {
    for i := 0 to |requests|
      invariant c.Valid() && c.Formats() && c.requestMemory && (c.previewThread ==> c.InStep())
    {
      Serve(c, requests[i].0, requests[i].1);
    }
  }

  /** The agreement can be lost: when the preview is started without an allocator, and one is installed
      later, the heaps still have the size of the capture before, and every frame is dropped. */
  method StaleSize() returns (c: CameraHardware)
    ensures c.Valid() && c.previewThread && c.requestMemory && !c.InStep()
    ensures c.rawFrameSize < c.camera.outFrameSize
  {
    hide FrameBytes;
    var small, large := Size(320, 240), Size(640, 480);
    var p := Parameters(small, large, large, Some(Yuyv), true, Some(Yuyv), 30);
    var d := Driver(true, true, true, 1280, true, true);
    var mode := Mode(640, 480, 30);
    c := new CameraHardware([mode], p);
    c.SetCallbacks(true);
    assert Offers(c.camera.modes, 320, 240) && Offers(c.camera.modes, 640, 480) by {
      assert mode in c.camera.modes && mode.Covers(320, 240) && mode.Covers(640, 480);
    }
    hide Offers;
    var ok := c.StartPreview(d);
    assert ok && c.InStep();
    ghost var laid := c.Laid();
    assert laid.raw == small && laid.rawBytes == 153600;
    c.StopPreview();
    c.SetCallbacks(false);
    ok := c.SetParameters(p.(preview := large), d);
    assert c.Laid() == laid && c.ActiveSize() == large && !c.Fitted();
    ok := c.StartPreview(d);
    assert c.Laid() == laid;
    c.SetCallbacks(true);
  }
}
