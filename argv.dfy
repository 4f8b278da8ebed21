/** The command lines picam_bench hands to its child processes: the ffmpeg
    preview, the CSI camera tool and the USB capture ffmpeg, with the overlay
    placement the preview's drawtext filter uses. Each argv is the sequence of
    its arguments without the terminating NULL, except where the array itself
    is built. */
module Argv {
  import opened CLib
  import opened V4l2
  import opened Cli

  // ---------- overlay_coords ----------

  const DefaultCorner: seq<char> := "top-left"
  const Margin: seq<char> := "10"
  const RightEdge: seq<char> := "w-tw-10"
  const BottomEdge: seq<char> := "h-th-10"

  /** The x and y expressions of the drawtext filter. */
  datatype Placement = Placement(x: seq<char>, y: seq<char>)

  /** overlay_coords: the three named corners, anything else is top-left. */
  function OverlayCoords(corner: seq<char>): (p: Placement)
    ensures p.x == RightEdge <==> corner == "top-right" || corner == "bottom-right"
    ensures p.y == BottomEdge <==> corner == "bottom-left" || corner == "bottom-right"
    ensures p.x == RightEdge || p.x == Margin
    ensures p.y == BottomEdge || p.y == Margin
  {
    if corner == "top-right" then Placement(RightEdge, Margin)
    else if corner == "bottom-left" then Placement(Margin, BottomEdge)
    else if corner == "bottom-right" then Placement(RightEdge, BottomEdge)
    else Placement(Margin, Margin)
  }

  /** An unknown corner name places the overlay exactly like "top-left". */
  lemma {:induction false} UnknownCornerIsTopLeft(corner: seq<char>)
    requires corner != "top-right" && corner != "bottom-left" && corner != "bottom-right"
    ensures OverlayCoords(corner) == OverlayCoords(DefaultCorner) == Placement(Margin, Margin)
  {
  }

  // ---------- start_preview ----------

  const FilterHead: seq<char> := "drawtext=fontfile=/usr/share/fonts/truetype/dejavu/DejaVuSans.ttf:textfile="
  const FilterStyle: seq<char> := ":fontcolor=white:fontsize=28:box=1:boxcolor=0x000000AA:boxborderw=8:line_spacing=6"

  /** The drawtext filter reading the stats file, reloaded on every frame. */
  function DrawText(statsPath: seq<char>, p: Placement): seq<char>
  {
    FilterHead + statsPath
    + ":reload=1:x=" + p.x + ":y=" + p.y
    + FilterStyle
  }

  /** The argv of start_preview. The corner passed to overlay_coords is the
      compile-time default, so the configured corner never reaches it; the fps
      string the source formats is not used either. */
  function PreviewArgv(fifo: seq<char>, statsPath: seq<char>, title: seq<char>): (argv: seq<seq<char>>)
    ensures |argv| == 23 && argv[16] == fifo && argv[22] == title
  {
    var p := OverlayCoords(DefaultCorner);
    ["ffmpeg",
     "-hide_banner", "-loglevel", "info", "-stats",
     "-fflags", "+nobuffer", "-flags", "+low_delay", "-reorder_queue_size", "0", "-thread_queue_size", "512",
     "-f", "h264", "-i", fifo,
     "-vf", DrawText(statsPath, p),
     "-an", "-f", "sdl", title]
  }

  /** The preview is ffmpeg reading H.264 from the FIFO, drawing the stats
      file at the top-left corner and showing the result in an SDL window
      with the given title, without audio. */
  lemma {:induction false} PreviewArgvLayout(fifo: seq<char>, statsPath: seq<char>, title: seq<char>)
    ensures var argv := PreviewArgv(fifo, statsPath, title);
      && argv[0] == "ffmpeg"
      && argv[13..17] == ["-f", "h264", "-i", fifo]
      && argv[17] == "-vf" && argv[18] == DrawText(statsPath, Placement(Margin, Margin))
      && argv[19..] == ["-an", "-f", "sdl", title]
  {
  }

  /** The preview overlay sits at the top-left corner whatever corner the
      configuration names. */
  lemma {:induction false} PreviewIgnoresCorner(fifo: seq<char>, statsPath: seq<char>, title: seq<char>, corner: seq<char>)
    requires corner == "top-right" || corner == "bottom-left" || corner == "bottom-right"
    ensures PreviewArgv(fifo, statsPath, title)[18] != DrawText(statsPath, OverlayCoords(corner))
  {
    PreviewArgvLayout(fifo, statsPath, title);
    var a := DrawText(statsPath, Placement(Margin, Margin));
    var b := DrawText(statsPath, OverlayCoords(corner));
    var k := |FilterHead + statsPath + ":reload=1:x="|;
    if OverlayCoords(corner).x == RightEdge {
      assert a[k] == '1' && b[k] == 'w';
    } else {
      var j := k + |Margin| + |":y="|;
      assert a[j] == '1' && b[j] == 'h';
    }
  }

  // ---------- start_csi_camera ----------

  /** The argv of start_csi_camera for the camera tool cmd. */
  function CsiCameraArgs(cmd: seq<char>, width: int, height: int, fps: int, bitrate: int): (argv: seq<seq<char>>)
    ensures |argv| == 16 && argv[0] == cmd
  {
    [cmd,
     "--inline", "--codec", "h264", "--timeout", "0",
     "--width", DecimalString(width), "--height", DecimalString(height),
     "--framerate", DecimalString(fps),
     "--bitrate", DecimalString(bitrate),
     "-o", "-"]
  }

  /** start_csi_camera: with no camera tool installed it dies, otherwise it
      spawns the tool with CsiCameraArgs. */
  function StartCsiCamera(cmd: Option<seq<char>>, width: int, height: int, fps: int, bitrate: int)
    : (argv: Option<seq<seq<char>>>)
    ensures argv.Some? <==> cmd.Some?
    ensures argv.Some? ==> |argv.value| == 16 && argv.value[0] == cmd.value
  {
    match cmd
    case None => None
    case Some(c) => Some(CsiCameraArgs(c, width, height, fps, bitrate))
  }

  /** The numbers in the CSI argv read back, with atoi, as the numbers given. */
  lemma {:induction false} CsiCameraArgsValues(cmd: seq<char>, width: int, height: int, fps: int, bitrate: int)
    requires IsInt32(width) && IsInt32(height) && IsInt32(fps) && IsInt32(bitrate)
    ensures var argv := CsiCameraArgs(cmd, width, height, fps, bitrate);
      Atoi(argv[7]) == width && Atoi(argv[9]) == height && Atoi(argv[11]) == fps && Atoi(argv[13]) == bitrate
  {
    var argv := CsiCameraArgs(cmd, width, height, fps, bitrate);
    assert argv[7] == DecimalString(width) && argv[9] == DecimalString(height);
    assert argv[11] == DecimalString(fps) && argv[13] == DecimalString(bitrate);
    AtoiOfDecimal(width);
    AtoiOfDecimal(height);
    AtoiOfDecimal(fps);
    AtoiOfDecimal(bitrate);
  }

  /** The camera tool writes inline H.264 to standard output without a
      timeout, and each number follows the option that names it and reads
      back, with atoi, as the number given. */
  lemma {:induction false} CsiCameraArgsRoundTrip(cmd: seq<char>, width: int, height: int, fps: int, bitrate: int)
    requires IsInt32(width) && IsInt32(height) && IsInt32(fps) && IsInt32(bitrate)
    ensures var argv := CsiCameraArgs(cmd, width, height, fps, bitrate);
      && argv[1] == "--inline" && argv[2] == "--codec" && argv[3] == "h264"
      && argv[4] == "--timeout" && argv[5] == "0" && argv[14] == "-o" && argv[15] == "-"
      && argv[6] == "--width" && Atoi(argv[7]) == width
      && argv[8] == "--height" && Atoi(argv[9]) == height
      && argv[10] == "--framerate" && Atoi(argv[11]) == fps
      && argv[12] == "--bitrate" && Atoi(argv[13]) == bitrate
  {
    var argv := CsiCameraArgs(cmd, width, height, fps, bitrate);
    assert argv[1] == "--inline" && argv[2] == "--codec" && argv[3] == "h264";
    assert argv[4] == "--timeout" && argv[5] == "0" && argv[14] == "-o" && argv[15] == "-";
    assert argv[6] == "--width" && argv[8] == "--height" && argv[10] == "--framerate" && argv[12] == "--bitrate";
    CsiCameraArgsValues(cmd, width, height, fps, bitrate);
  }

  // ---------- start_usb_ffmpeg ----------

  const MaxArgs: nat := 64

  /** The -input_format of the USB capture. */
  function InputFormat(fs: FormatSupport): (f: seq<char>)
    ensures f == "h264" <==> fs.h264
    ensures f == "mjpeg" <==> !fs.h264 && (fs.mjpg || !fs.yuyv)
    ensures f == "yuyv422" <==> !fs.h264 && !fs.mjpg && fs.yuyv
  {
    if fs.h264 then "h264"
    else if fs.mjpg then "mjpeg"
    else if fs.yuyv then "yuyv422"
    else "mjpeg"
  }

  /** The common head: v4l2 input of the chosen format, size and rate. */
  function UsbInputArgs(dev: seq<char>, fs: FormatSupport, width: int, height: int, fps: int): seq<seq<char>>
  {
    ["ffmpeg", "-hide_banner", "-loglevel", "error", "-f", "v4l2",
     "-input_format", InputFormat(fs),
     "-video_size", SizeString(width, height),
     "-framerate", DecimalString(fps),
     "-i", dev]
  }

  /** The encoder part: stream copy of native H.264, else a transcoder. */
  function EncoderArgs(fs: FormatSupport, enc: EncodeMode, bitrate: int): (args: seq<seq<char>>)
    ensures |args| >= 2 && args[0] in {"-c:v", "-pix_fmt"}
    ensures "copy" in args <==> fs.h264
    ensures "h264_v4l2m2m" in args <==> !fs.h264 && enc == EncHardware
    ensures "libx264" in args <==> !fs.h264 && enc != EncHardware
    // a transcoder is held to the configured bitrate as target, ceiling and buffer
    ensures !fs.h264 ==> && |args| >= 6
                         && args[|args| - 6..] == ["-b:v", DecimalString(bitrate), "-maxrate", DecimalString(bitrate), "-bufsize", DecimalString(bitrate)]
  {
    var br := DecimalString(bitrate);
    if fs.h264 then ["-c:v", "copy"]
    else if enc == EncHardware then
      ["-pix_fmt", "nv12", "-c:v", "h264_v4l2m2m", "-b:v", br, "-maxrate", br, "-bufsize", br]
    else
      ["-c:v", "libx264", "-preset", "ultrafast", "-tune", "zerolatency", "-b:v", br, "-maxrate", br, "-bufsize", br]
  }

  /** The output part: raw H.264 into the FIFO. */
  function OutputArgs(fifo: seq<char>): seq<seq<char>>
  {
    ["-f", "h264", fifo]
  }

  /** The argv start_usb_ffmpeg builds, without its terminating NULL. */
  function UsbFfmpegArgv(dev: seq<char>, fs: FormatSupport, enc: EncodeMode,
                         width: int, height: int, fps: int, bitrate: int, fifo: seq<char>): (argv: seq<seq<char>>)
    ensures 17 <= |argv| < MaxArgs
    ensures argv[7] == InputFormat(fs) && argv[13] == dev
    ensures argv[|argv| - 3] == "-f" && argv[|argv| - 2] == "h264" && argv[|argv| - 1] == fifo
  {
    var head := UsbInputArgs(dev, fs, width, height, fps);
    assert |head| == 14;
    head + EncoderArgs(fs, enc, bitrate) + OutputArgs(fifo)
  }

  /** Native H.264 is copied, whatever encoding was asked for: the encoder
      arguments are exactly -c:v copy. */
  lemma {:induction false} CopyWhenNativeH264(dev: seq<char>, fs: FormatSupport, enc: EncodeMode,
                           width: int, height: int, fps: int, bitrate: int, fifo: seq<char>)
    requires fs.h264
    ensures var argv := UsbFfmpegArgv(dev, fs, enc, width, height, fps, bitrate, fifo);
      |argv| == 19 && argv[7] == "h264" && argv[14..16] == ["-c:v", "copy"]
  {
  }

  /** The transcoding encoder arguments end with the bitrate three times. */
  lemma {:induction false} TranscoderArgs(fs: FormatSupport, enc: EncodeMode, bitrate: int)
    requires !fs.h264
    ensures var c := EncoderArgs(fs, enc, bitrate);
      var m := |c|;
      && (enc == EncHardware ==> m == 10 && c[..4] == ["-pix_fmt", "nv12", "-c:v", "h264_v4l2m2m"])
      && (enc != EncHardware ==> m == 12 && c[..6] == ["-c:v", "libx264", "-preset", "ultrafast", "-tune", "zerolatency"])
      && c[m - 6] == "-b:v" && c[m - 4] == "-maxrate" && c[m - 2] == "-bufsize"
      && c[m - 5] == c[m - 3] == c[m - 1] == DecimalString(bitrate)
  {
    var c := EncoderArgs(fs, enc, bitrate);
    var br := DecimalString(bitrate);
    if enc == EncHardware {
      assert c == ["-pix_fmt", "nv12", "-c:v", "h264_v4l2m2m", "-b:v", br, "-maxrate", br, "-bufsize", br];
    } else {
      assert c == ["-c:v", "libx264", "-preset", "ultrafast", "-tune", "zerolatency", "-b:v", br, "-maxrate", br, "-bufsize", br];
    }
  }

  /** Without native H.264 the stream is transcoded: h264_v4l2m2m from nv12
      for hardware, libx264 ultrafast/zerolatency otherwise, and in both the
      bitrate follows -b:v, -maxrate and -bufsize and reads back with atoi. */
  lemma {:induction false} TranscodeWithoutNativeH264(dev: seq<char>, fs: FormatSupport, enc: EncodeMode,
                                                      width: int, height: int, fps: int, bitrate: int, fifo: seq<char>)
    requires !fs.h264 && IsInt32(bitrate)
    ensures var argv := UsbFfmpegArgv(dev, fs, enc, width, height, fps, bitrate, fifo);
      var n := |argv|;
      && (enc == EncHardware ==> n == 27 && argv[14..18] == ["-pix_fmt", "nv12", "-c:v", "h264_v4l2m2m"])
      && (enc != EncHardware ==> n == 29 && argv[14..20] == ["-c:v", "libx264", "-preset", "ultrafast", "-tune", "zerolatency"])
      && argv[n - 9] == "-b:v" && argv[n - 7] == "-maxrate" && argv[n - 5] == "-bufsize"
      && argv[n - 8] == argv[n - 6] == argv[n - 4] == DecimalString(bitrate)
      && Atoi(argv[n - 8]) == bitrate
  {
    var argv := UsbFfmpegArgv(dev, fs, enc, width, height, fps, bitrate, fifo);
    var head := UsbInputArgs(dev, fs, width, height, fps);
    var c := EncoderArgs(fs, enc, bitrate);
    assert argv == head + c + OutputArgs(fifo);
    assert |head| == 14;
    TranscoderArgs(fs, enc, bitrate);
    var m := |c|;
    var n := |argv|;
    assert n == 17 + m;
    assert forall k :: 0 <= k < m ==> argv[14 + k] == c[k];
    assert argv[n - 9] == c[m - 6] && argv[n - 7] == c[m - 4] && argv[n - 5] == c[m - 2];
    assert argv[n - 8] == c[m - 5] && argv[n - 6] == c[m - 3] && argv[n - 4] == c[m - 1];
    if enc == EncHardware {
      assert argv[14..18] == c[..4];
    } else {
      assert argv[14..20] == c[..6];
    }
    assert Atoi(argv[n - 8]) == bitrate by { AtoiOfDecimal(bitrate); }
  }

  /** The capture size and rate read back exactly: parse_res recovers the
      size from -video_size and atoi the rate from -framerate. */
  lemma {:induction false} UsbSizeAndRateRoundTrip(dev: seq<char>, fs: FormatSupport, enc: EncodeMode,
                                                   width: int, height: int, fps: int, bitrate: int, fifo: seq<char>)
    requires 0 < width <= IntMax && 0 < height <= IntMax && IsInt32(fps)
    ensures var argv := UsbFfmpegArgv(dev, fs, enc, width, height, fps, bitrate, fifo);
      && argv[8] == "-video_size" && ParseRes(argv[9]) == Some((width, height))
      && argv[10] == "-framerate" && Atoi(argv[11]) == fps
      && argv[12] == "-i" && argv[13] == dev
  {
    var argv := UsbFfmpegArgv(dev, fs, enc, width, height, fps, bitrate, fifo);
    var head := UsbInputArgs(dev, fs, width, height, fps);
    assert argv[..14] == head;
    assert argv[8] == "-video_size" && argv[10] == "-framerate" && argv[12] == "-i";
    assert argv[9] == SizeString(width, height) && argv[11] == DecimalString(fps);
    ParseResRoundTrip(width, height);
    AtoiOfDecimal(fps);
  }

  /** The array cells a sequence of arguments occupies. */
  function Cells(part: seq<seq<char>>): (cells: seq<Option<seq<char>>>)
    ensures |cells| == |part|
    ensures forall i :: 0 <= i < |part| ==> cells[i] == Some(part[i])
  {
    seq(|part|, i requires 0 <= i < |part| => Some(part[i]))
  }

  /** argv[ac++] = s, once for each s of part. */
  method PushAll(argv: array<Option<seq<char>>>, ac: nat, part: seq<seq<char>>) returns (next: nat)
    requires ac + |part| <= argv.Length
    modifies argv
    ensures next == ac + |part|
    ensures argv[..next] == old(argv[..ac]) + Cells(part)
    ensures argv[next..] == old(argv[next..])
  {
    next := ac;
    var j := 0;
    while j < |part|
      invariant 0 <= j <= |part| && next == ac + j
      invariant argv[..next] == old(argv[..ac]) + Cells(part[..j])
      invariant argv[ac + |part|..] == old(argv[ac + |part|..])
    {
      argv[next] := Some(part[j]);
      assert Cells(part[..j + 1]) == Cells(part[..j]) + [Some(part[j])];
      next := next + 1;
      j := j + 1;
    }
    assert part[..j] == part;
  }

  /** argv[ac++] = NULL */
  method PushNull(argv: array<Option<seq<char>>>, ac: nat) returns (next: nat)
    requires ac < argv.Length
    modifies argv
    ensures next == ac + 1
    ensures argv[..next] == old(argv[..ac]) + [None]
    ensures argv[next..] == old(argv[next..])
  {
    argv[ac] := None;
    next := ac + 1;
  }

  lemma {:induction false} CellsAppend(a: seq<seq<char>>, b: seq<seq<char>>)
    ensures Cells(a + b) == Cells(a) + Cells(b)
  {
    assert forall i :: 0 <= i < |a + b| ==> Cells(a + b)[i] == (Cells(a) + Cells(b))[i];
  }

  /** start_usb_ffmpeg's fill of its MAXARGS array: the arguments, then NULL. */
  method FillUsbArgv(dev: seq<char>, fs: FormatSupport, enc: EncodeMode,
                     width: int, height: int, fps: int, bitrate: int, fifo: seq<char>)
    returns (argv: array<Option<seq<char>>>, ac: nat)
    ensures fresh(argv) && argv.Length == MaxArgs && ac <= MaxArgs
    ensures argv[..ac] == Cells(UsbFfmpegArgv(dev, fs, enc, width, height, fps, bitrate, fifo)) + [None]
  {
    var infmt: seq<char>;
    if fs.h264 {
      infmt := "h264";
    } else if fs.mjpg {
      infmt := "mjpeg";
    } else if fs.yuyv {
      infmt := "yuyv422";
    } else {
      infmt := "mjpeg";
    }
    var sz := SizeString(width, height);
    var fr := DecimalString(fps);
    var br := DecimalString(bitrate);
    argv := new Option<seq<char>>[MaxArgs](_ => None);
    var head := ["ffmpeg", "-hide_banner", "-loglevel", "error", "-f", "v4l2",
                 "-input_format", infmt, "-video_size", sz, "-framerate", fr, "-i", dev];
    assert head == UsbInputArgs(dev, fs, width, height, fps);
    ac := PushAll(argv, 0, head);
    assert argv[..ac] == Cells(head);
    var coder: seq<seq<char>>;
    ghost var spec := EncoderArgs(fs, enc, bitrate);
    if fs.h264 {
      coder := ["-c:v", "copy"];
      assert coder == spec;
    } else if enc == EncHardware {
      coder := ["-pix_fmt", "nv12", "-c:v", "h264_v4l2m2m", "-b:v", br, "-maxrate", br, "-bufsize", br];
      assert coder == spec;
    } else {
      coder := ["-c:v", "libx264", "-preset", "ultrafast", "-tune", "zerolatency",
                "-b:v", br, "-maxrate", br, "-bufsize", br];
      assert coder == spec;
    }
    ac := PushAll(argv, ac, coder);
    assert argv[..ac] == Cells(head) + Cells(coder);
    var tail := ["-f", "h264", fifo];
    ac := PushAll(argv, ac, tail);
    assert argv[..ac] == Cells(head) + Cells(coder) + Cells(tail);
    CellsAppend(head, coder);
    CellsAppend(head + coder, tail);
    ghost var filled := argv[..ac];
    assert filled == Cells(head + coder + tail);
    assert head + coder + tail == UsbFfmpegArgv(dev, fs, enc, width, height, fps, bitrate, fifo) by {
      assert tail == OutputArgs(fifo);
    }
    ac := PushNull(argv, ac);
  }
}
