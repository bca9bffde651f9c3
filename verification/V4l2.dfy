/**
  Choosing a capture mode and cropping frames out of it (libcamera/V4L2Camera.cpp).  A surface is
  taken as a width, a height and a frame rate, with width times height as its area.
 */
module V4l2 {
  import opened Options
  import opened Bytes

  // ---------------------------------------------------------------- choosing a mode

  datatype Mode = Mode(width: int, height: int, fps: int) {
    function Area(): int { width * height }

    predicate Covers(width: int, height: int) { this.width >= width && this.height >= height }
  }

  function Abs(x: int): nat { if x < 0 then -x else x }

  /** `a` is no further from the request than `b`: first by area, then by frame rate. */
  predicate AtMost(a: Mode, b: Mode, fps: int) {
    a.Area() < b.Area() || (a.Area() == b.Area() && Abs(a.fps - fps) <= Abs(b.fps - fps))
  }

  /** So `a` has fewer pixels, or as many and a frame rate that is not further away on either side. */
  lemma AtMostIff(a: Mode, b: Mode, fps: int)
    ensures AtMost(a, b, fps) <==>
      a.width * a.height < b.width * b.height ||
      (a.width * a.height == b.width * b.height &&
       if b.fps < fps then b.fps <= a.fps <= 2 * fps - b.fps else 2 * fps - b.fps <= a.fps <= b.fps)
  {
  }

  lemma CoverArea(m: Mode, width: int, height: int)
    requires 0 <= width && 0 <= height && m.Covers(width, height)
    ensures m.Area() >= width * height
  {
    assert m.width * m.height >= width * m.height >= width * height;
  }

  /** No covering mode before it in the list is as close. */
  ghost predicate IsFirst(modes: seq<Mode>, best: Mode, width: int, height: int, fps: int) {
    exists k :: 0 <= k < |modes| && modes[k] == best &&
      forall j :: 0 <= j < k && modes[j].Covers(width, height) ==> !AtMost(modes[j], best, fps)
  }

  /** The loop of Init: the mode with the smallest excess of area, and among those the one with the
      closest frame rate; the first of equals. */
  method ChooseMode(modes: seq<Mode>, width: int, height: int, fps: int) returns (best: Option<Mode>)
    ensures best.Some? ==> best.value in modes && best.value.Covers(width, height)
    ensures 0 <= width && 0 <= height ==>
      (best.None? <==> forall m :: m in modes ==> !m.Covers(width, height)) &&
      (best.Some? ==> forall m :: m in modes && m.Covers(width, height) ==> AtMost(best.value, m, fps))
    ensures 0 <= width && 0 <= height && best.Some? ==> IsFirst(modes, best.value, width, height, fps)
  {
    var closestDArea: int, closestDFps: int := -1, -1;
    var closest := Mode(0, 0, 0);
    var area := width * height;
    ghost var sane, at := 0 <= width && 0 <= height, 0;
    var i := 0;
    while i < |modes|
      invariant 0 <= i <= |modes|
      invariant closestDArea != -1 ==>
        closest in modes && closest.Covers(width, height) &&
        closestDArea == closest.Area() - area && closestDFps == Abs(closest.fps - fps)
      invariant sane ==> closestDArea >= -1
      invariant sane && closestDArea != -1 ==> 0 <= at < i && modes[at] == closest
      invariant sane && closestDArea != -1 ==>
        forall j :: 0 <= j < at && modes[j].Covers(width, height) ==> !AtMost(modes[j], closest, fps)
      invariant sane ==> forall k :: 0 <= k < i && modes[k].Covers(width, height) ==>
        closestDArea != -1 && AtMost(closest, modes[k], fps)
    {
      var sd := modes[i];
      if sd.Covers(width, height) {
        var difArea, difFps := sd.Area() - area, Abs(sd.fps - fps);
        if sane { CoverArea(sd, width, height); }
        if closestDArea < 0 || difArea < closestDArea || (difArea == closestDArea && difFps < closestDFps) {
          closestDArea, closestDFps, closest := difArea, difFps, sd;
          at := i;
        }
      }
      i := i + 1;
    }
    if closestDArea == -1 { return None; }
    return Some(closest);
  }

  // ---------------------------------------------------------------- cropping

  /** ((d) >> 1) & -2 */
  function Margin(d: int): int { 2 * (d / 4) }

  /** The margin is even and leaves room for the output, with less than four columns more on the other side. */
  lemma MarginFits(wanted: int, captured: int)
    requires wanted <= captured
    ensures Margin(captured - wanted) % 2 == 0 && 0 <= Margin(captured - wanted)
    ensures Margin(captured - wanted) + wanted <= captured
    ensures 0 <= captured - wanted - 2 * Margin(captured - wanted) < 4
  {
  }

  /** n * stride, as the loops add it up. */
  function Lines(n: nat, stride: nat): (r: nat) {
    if n == 0 then 0 else Lines(n - 1, stride) + stride
  }

  lemma {:induction false} LinesSum(a: nat, b: nat, stride: nat)
    ensures Lines(a + b, stride) == Lines(a, stride) + Lines(b, stride)
  {
    if b > 0 { LinesSum(a, b - 1, stride); }
  }

  lemma {:induction false} LinesProduct(n: nat, stride: nat)
    ensures Lines(n, stride) == n * stride
  {
    if n > 0 {
      LinesProduct(n - 1, stride);
      assert n * stride == (n - 1) * stride + stride;
    }
  }

  /** What Init stores about the frames: the size that comes out, the size that is captured, the bytes
      of a captured line, and where the output starts in a captured frame. */
  datatype Geometry = Geometry(outWidth: nat, outHeight: nat, startX: nat, startY: nat, capWidth: nat, capHeight: nat,
                               bytesPerLine: nat, cropOffset: nat)
  {
    /** The driver kept the mode, in YUYV; a line is at least as long as its pixels. */
    ghost predicate Valid() {
      startX + outWidth <= capWidth && startY + outHeight <= capHeight && 2 * capWidth <= bytesPerLine &&
      cropOffset == 2 * startX + Lines(startY, bytesPerLine)
    }
  }

  /** The geometry that Init calculates when the driver keeps mode and format. */
  function Cropped(width: nat, height: nat, mode: Mode, bytesPerLine: nat): (g: Geometry)
    requires mode.Covers(width, height)
    ensures 2 * mode.width <= bytesPerLine ==> g.Valid()
    ensures g.outWidth == width && g.outHeight == height && g.startX % 2 == 0 && g.startY % 2 == 0
  {
    var startX, startY := Margin(mode.width - width), Margin(mode.height - height);
    Geometry(width, height, startX, startY, mode.width, mode.height, bytesPerLine,
             startX * 2 + Lines(startY, bytesPerLine))
  }

  /** The last row that is copied ends inside the captured frame. */
  lemma RowInside(g: Geometry, y: nat)
    requires g.Valid() && y < g.outHeight
    ensures g.cropOffset + Lines(y, g.bytesPerLine) + 2 * g.outWidth <= Lines(g.capHeight, g.bytesPerLine)
  {
    LinesSum(g.startY, y, g.bytesPerLine);
    LinesSum(g.startY + y, 1, g.bytesPerLine);
    LinesSum(g.startY + y + 1, g.capHeight - g.startY - y - 1, g.bytesPerLine);
    assert Lines(1, g.bytesPerLine) == Lines(0, g.bytesPerLine) + g.bytesPerLine;
  }

  lemma OutInside(g: Geometry, y: nat)
    requires y < g.outHeight
    ensures Lines(y, 2 * g.outWidth) + 2 * g.outWidth <= Lines(g.outHeight, 2 * g.outWidth)
  {
    LinesSum(y, 1, 2 * g.outWidth);
    LinesSum(y + 1, g.outHeight - y - 1, 2 * g.outWidth);
    assert Lines(1, 2 * g.outWidth) == Lines(0, 2 * g.outWidth) + 2 * g.outWidth;
  }

  /** Row `y` of the output is there. */
  ghost predicate RowCopied(frame: seq<byte>, src: seq<byte>, g: Geometry, y: nat)
    requires g.Valid() && y < g.outHeight && |frame| >= Lines(g.outHeight, 2 * g.outWidth) &&
      |src| >= Lines(g.capHeight, g.bytesPerLine)
  {
    OutInside(g, y);
    RowInside(g, y);
    var to, from := Lines(y, 2 * g.outWidth), g.cropOffset + Lines(y, g.bytesPerLine);
    frame[to..to + 2 * g.outWidth] == src[from..from + 2 * g.outWidth]
  }

  /** The YUYV branch of GrabRawFrame: row by row, inside both buffers, and nothing behind the frame. */
  method CopyYuyv(frame: array<byte>, src: seq<byte>, g: Geometry)
    requires g.Valid() && frame.Length >= Lines(g.outHeight, 2 * g.outWidth) &&
      |src| >= Lines(g.capHeight, g.bytesPerLine)
    modifies frame
    ensures forall y :: 0 <= y < g.outHeight ==> RowCopied(frame[..], src, g, y)
    ensures frame[Lines(g.outHeight, 2 * g.outWidth)..] == old(frame[Lines(g.outHeight, 2 * g.outWidth)..])
  {
    hide Lines;
    LinesNone(2 * g.outWidth);
    LinesNone(g.bytesPerLine);
    var strideOut := 2 * g.outWidth;
    var dst, from, h := 0, g.cropOffset, 0;
    ghost var was := frame[..];
    while h < g.outHeight
      invariant 0 <= h <= g.outHeight
      invariant dst == Lines(h, strideOut) && from == g.cropOffset + Lines(h, g.bytesPerLine)
      invariant forall y :: 0 <= y < h ==> RowCopied(frame[..], src, g, y)
      invariant dst <= Lines(g.outHeight, strideOut)
      invariant forall k :: dst <= k < frame.Length ==> frame[k] == was[k]
    {
      OutInside(g, h);
      RowInside(g, h);
      ghost var before := frame[..];
      Store(frame, dst, src[from..from + strideOut]);
      forall y | 0 <= y < h + 1
        ensures RowCopied(frame[..], src, g, y)
      {
        if y < h {
          assert RowCopied(before, src, g, y);
          EarlierRow(before, frame[..], src, g, y, h);
        }
      }
      LinesOne(h, strideOut);
      LinesOne(h, g.bytesPerLine);
      dst := dst + strideOut;
      from := from + g.bytesPerLine;
      h := h + 1;
    }
  }

  lemma LinesNone(stride: nat)
    ensures Lines(0, stride) == 0
  {
  }

  lemma LinesOne(n: nat, stride: nat)
    ensures Lines(n + 1, stride) == Lines(n, stride) + stride
  {
  }

  /** A row stays when a later one is stored. */
  lemma EarlierRow(before: seq<byte>, after: seq<byte>, src: seq<byte>, g: Geometry, y: nat, h: nat)
    requires g.Valid() && y < h < g.outHeight && |src| >= Lines(g.capHeight, g.bytesPerLine)
    requires |before| == |after| >= Lines(g.outHeight, 2 * g.outWidth) && RowCopied(before, src, g, y)
    requires Lines(h, 2 * g.outWidth) <= |before| &&
      after[..Lines(h, 2 * g.outWidth)] == before[..Lines(h, 2 * g.outWidth)]
    ensures RowCopied(after, src, g, y)
  {
    hide Lines;
    var w := 2 * g.outWidth;
    LinesOne(y, w);
    LinesSum(y + 1, h - y - 1, w);
    var to, end := Lines(y, w), Lines(h, w);
    assert after[to..to + w] == after[..end][to..to + w];
    assert before[to..to + w] == before[..end][to..to + w];
  }

  /** Output pixel (x, y) is captured pixel (x + startX, y + startY), and both margins are even, so
      that the two pixels that share their colour stay together. */
  lemma PixelMapped(frame: seq<byte>, src: seq<byte>, g: Geometry, x: nat, y: nat, c: nat)
    requires g.Valid() && x < g.outWidth && y < g.outHeight && c < 2
    requires |frame| >= Lines(g.outHeight, 2 * g.outWidth) && |src| >= Lines(g.capHeight, g.bytesPerLine)
    requires RowCopied(frame, src, g, y)
    ensures var to := y * (2 * g.outWidth) + 2 * x + c;
      var from := (y + g.startY) * g.bytesPerLine + 2 * (x + g.startX) + c;
      0 <= to < |frame| && 0 <= from < |src| && frame[to] == src[from]
  {
    OutInside(g, y);
    RowInside(g, y);
    LinesProduct(y, 2 * g.outWidth);
    LinesProduct(y + g.startY, g.bytesPerLine);
    LinesSum(g.startY, y, g.bytesPerLine);
    hide Lines;
    var to, from := Lines(y, 2 * g.outWidth), g.cropOffset + Lines(y, g.bytesPerLine);
    assert frame[to..to + 2 * g.outWidth][2 * x + c] == src[from..from + 2 * g.outWidth][2 * x + c];
  }
}
