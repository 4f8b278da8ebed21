/** The decisions main makes once the command line is parsed: which camera
    to use, which encoder, and which child processes to start with which
    arguments. Everything main learns from the system is an input: whether
    ffmpeg and a camera tool are installed, the camera tool's listing, the
    device table, the glob result and the directory mkdtemp created. */
module Selection {
  import opened CLib
  import opened V4l2
  import opened CameraList
  import opened Cli
  import opened Argv

  /** What main can observe about the machine. */
  datatype Environment = Environment(
    hasFfmpeg: bool,
    hasRpicam: bool,
    hasLibcamera: bool,
    listPipeOk: bool,                   // pipe() for the camera tool's --list-cameras succeeded
    listOutput: seq<char>,              // what the one read() of at most 8191 bytes returned
    devs: DeviceTable,
    globbed: Option<seq<seq<char>>>,    // glob("/dev/video*")
    tempDir: Option<seq<char>>)         // mkdtemp("/tmp/picamc.XXXXXX")

  /** detect_csi_available() on this machine. */
  predicate CsiDetected(env: Environment)
  {
    DetectCsiAvailable(env.hasRpicam, env.hasLibcamera, env.listPipeOk, env.listOutput)
  }

  /** The camera the run uses. */
  datatype Source = Csi | Usb(node: seq<char>, formats: FormatSupport)

  /** The reasons main dies with after parsing. */
  datatype Failure =
    | FfmpegNotFound
    | CsiCameraNotFound
    | InvalidUsbNode(node: seq<char>)
    | NoSupportedCamera
    | TempDirFailed
    | CameraToolRequired

  datatype Decision = Chosen(source: Source) | Refused(failure: Failure)

  /** The source decision of main. */
  function DecideSource(cfg: Config, env: Environment): (d: Decision)
    ensures d.Refused? ==> d.failure in {CsiCameraNotFound, InvalidUsbNode(cfg.sourceNode), NoSupportedCamera}
    ensures d == Chosen(Csi) <==> CsiDetected(env) && cfg.sourceMode != SrcUsbNode
  {
    match cfg.sourceMode
    case SrcCsi =>
      if CsiDetected(env) then Chosen(Csi) else Refused(CsiCameraNotFound)
    case SrcUsbNode =>
      if !SupportsCapture(env.devs, cfg.sourceNode) then Refused(InvalidUsbNode(cfg.sourceNode))
      else
        var node := Truncate(cfg.sourceNode, 127);
        Chosen(Usb(node, Formats(env.devs, node)))
    case SrcAuto =>
      if CsiDetected(env) then Chosen(Csi)
      else
        match DetectUsb(env.devs, env.globbed)
        case Some(cam) => Chosen(Usb(cam.node, cam.formats))
        case None => Refused(NoSupportedCamera)
  }

  /** The encoder decision: auto means hardware, whatever the camera offers. */
  function ResolveEncode(enc: EncodeMode): (r: EncodeMode)
    ensures r != EncAuto
    ensures enc != EncAuto ==> r == enc
  {
    if enc == EncAuto then EncHardware else enc
  }

  /** What one run of main does after parsing: print the camera report
      (--list-cameras), start the preview and camera processes, or die. */
  datatype CameraReport = CameraReport(csiAvailable: bool, usb: Option<UsbCamera>)
  datatype Run =
    | Listed(report: CameraReport)
    | Launched(preview: seq<seq<char>>, camera: seq<seq<char>>)
    | Died(failure: Failure)

  /** The FIFO and the stats file in the temporary directory. */
  function FifoPath(dir: seq<char>): seq<char> { dir + "/video.h264" }
  function StatsPath(dir: seq<char>): seq<char> { dir + "/stats.txt" }

  function PreviewTitle(source: Source): seq<char>
  {
    if source.Csi? then "PiCam Preview (CSI)" else "USB Camera Preview"
  }

  /** The node start_usb_ffmpeg receives: the chosen node, or the configured
      node when the chosen one is empty. */
  function LaunchNode(chosen: seq<char>, cfg: Config): (node: seq<char>)
    ensures chosen != [] ==> node == chosen
    ensures chosen == [] ==> node <= cfg.sourceNode && |node| <= 127
    ensures chosen == [] && |cfg.sourceNode| <= 127 ==> node == cfg.sourceNode
  {
    if chosen == [] then Truncate(cfg.sourceNode, 127) else chosen
  }

  /** Starting the preview and the camera once the source is chosen and
      the temporary directory exists. */
  function LaunchCamera(source: Source, cfg: Config, env: Environment, dir: seq<char>): (r: Run)
    ensures r.Launched? || r == Died(CameraToolRequired)
    ensures r == Died(CameraToolRequired) <==> source.Csi? && !env.hasRpicam && !env.hasLibcamera
  {
    var preview := PreviewArgv(FifoPath(dir), StatsPath(dir), PreviewTitle(source));
    match source
    case Csi =>
      (match StartCsiCamera(CameraCmd(env.hasRpicam, env.hasLibcamera), cfg.width, cfg.height, cfg.fps, cfg.bitrate)
       case None => Died(CameraToolRequired)
       case Some(camera) => Launched(preview, camera))
    case Usb(node, formats) =>
      Launched(preview, UsbFfmpegArgv(LaunchNode(node, cfg), formats, ResolveEncode(cfg.encodeMode),
                                      cfg.width, cfg.height, cfg.fps, cfg.bitrate, FifoPath(dir)))
  }

  /** The preview reads the FIFO of the temporary directory and is titled
      after the source. */
  lemma {:induction false} LaunchedPreview(source: Source, cfg: Config, env: Environment, dir: seq<char>)
    ensures var r := LaunchCamera(source, cfg, env, dir);
      r.Launched? ==> |r.preview| == 23 && r.preview[16] == FifoPath(dir) && r.preview[22] == PreviewTitle(source)
  {
    var r := LaunchCamera(source, cfg, env, dir);
    if r.Launched? {
      assert r.preview == PreviewArgv(FifoPath(dir), StatsPath(dir), PreviewTitle(source));
    }
  }

  /** The CSI camera runs the first camera tool found; the USB camera's
      ffmpeg opens the chosen node and writes into the FIFO. */
  lemma {:induction false} LaunchedCamera(source: Source, cfg: Config, env: Environment, dir: seq<char>)
    ensures var r := LaunchCamera(source, cfg, env, dir);
      r.Launched? && source.Csi? ==>
        |r.camera| == 16 && r.camera[0] == CameraCmd(env.hasRpicam, env.hasLibcamera).value
    ensures var r := LaunchCamera(source, cfg, env, dir);
      r.Launched? && source.Usb? ==>
        |r.camera| >= 17 && r.camera[13] == LaunchNode(source.node, cfg) && r.camera[|r.camera| - 1] == FifoPath(dir)
  {
    var r := LaunchCamera(source, cfg, env, dir);
    if source.Usb? {
      assert r.camera == UsbFfmpegArgv(LaunchNode(source.node, cfg), source.formats, ResolveEncode(cfg.encodeMode),
                                       cfg.width, cfg.height, cfg.fps, cfg.bitrate, FifoPath(dir));
    }
  }

  /** main after parse_cfg, up to the start of the child processes. */
  function RunMain(opts: Options, env: Environment): (r: Run)
    ensures !env.hasFfmpeg ==> r == Died(FfmpegNotFound)
    ensures r.Listed? <==> env.hasFfmpeg && opts.listOnly
  {
    if !env.hasFfmpeg then Died(FfmpegNotFound)
    else if opts.listOnly then Listed(CameraReport(CsiDetected(env), DetectUsb(env.devs, env.globbed)))
    else
      match DecideSource(opts.cfg, env)
      case Refused(f) => Died(f)
      case Chosen(source) =>
        match env.tempDir
        case None => Died(TempDirFailed)
        case Some(dir) => LaunchCamera(source, opts.cfg, env, dir)
  }

  // ---------- properties of the decision ----------

  /** The children are started only once ffmpeg exists, a source is chosen
      and the temporary directory is made; a failed mkdtemp is its own death. */
  lemma {:induction false} LaunchNeedsSourceAndTempDir(opts: Options, env: Environment)
    ensures RunMain(opts, env) == Died(TempDirFailed) <==>
      env.hasFfmpeg && !opts.listOnly && DecideSource(opts.cfg, env).Chosen? && env.tempDir.None?
    ensures RunMain(opts, env).Launched? ==>
      env.hasFfmpeg && env.tempDir.Some? && DecideSource(opts.cfg, env).Chosen?
  {
    if env.hasFfmpeg && !opts.listOnly && DecideSource(opts.cfg, env).Chosen? && env.tempDir.Some? {
      var dir := env.tempDir.value;
      assert RunMain(opts, env) == LaunchCamera(DecideSource(opts.cfg, env).source, opts.cfg, env, dir);
    }
  }

  /** --source csi runs the CSI camera exactly when it is detected. */
  lemma {:induction false} CsiModeNeedsDetection(cfg: Config, env: Environment)
    requires cfg.sourceMode == SrcCsi
    ensures DecideSource(cfg, env) == (if CsiDetected(env) then Chosen(Csi) else Refused(CsiCameraNotFound))
  {
  }

  /** An explicit node is used exactly when it passes the classification, and
      then with the formats it offers; otherwise main dies naming it. */
  lemma {:induction false} NodeModeNeedsCapture(cfg: Config, env: Environment)
    requires cfg.sourceMode == SrcUsbNode && WellFormed(cfg)
    ensures DecideSource(cfg, env).Chosen? <==> SupportsCapture(env.devs, cfg.sourceNode)
    ensures DecideSource(cfg, env).Chosen? ==>
      DecideSource(cfg, env).source == Usb(cfg.sourceNode, Formats(env.devs, cfg.sourceNode))
    ensures DecideSource(cfg, env).Refused? ==> DecideSource(cfg, env).failure == InvalidUsbNode(cfg.sourceNode)
  {
  }

  /** auto prefers a detected CSI camera; without one it takes the first
      globbed node that passes the classification, and dies when there is none. */
  lemma {:induction false} AutoPrefersCsiThenFirstNode(cfg: Config, env: Environment)
    requires cfg.sourceMode == SrcAuto
    ensures CsiDetected(env) ==> DecideSource(cfg, env) == Chosen(Csi)
    ensures !CsiDetected(env) && DecideSource(cfg, env).Chosen? ==>
      exists k: nat :: IsFirstCapture(env.devs, env.globbed.value, k)
                    && DecideSource(cfg, env).source.node == Truncate(env.globbed.value[k], 127)
    ensures DecideSource(cfg, env).Refused? <==>
      !CsiDetected(env) && (env.globbed.None? || forall j :: 0 <= j < |env.globbed.value| ==> !SupportsCapture(env.devs, env.globbed.value[j]))
  {
  }

  /** A SoC codec node named on the command line is refused even when it
      reports capture capabilities. */
  lemma {:induction false} CodecNodeRefused(cfg: Config, env: Environment)
    requires cfg.sourceMode == SrcUsbNode && cfg.sourceNode in env.devs
    requires env.devs[cfg.sourceNode].query.Some?
    requires Contains(Terminated(env.devs[cfg.sourceNode].query.value.driver), "bcm2835-codec")
    ensures DecideSource(cfg, env) == Refused(InvalidUsbNode(cfg.sourceNode))
  {
    Bcm2835Refused(env.devs, cfg.sourceNode);
  }

  /** auto encoding is hardware: a camera without native H.264 chosen with
      the default encode mode is transcoded with h264_v4l2m2m, never libx264. */
  lemma {:induction false} AutoEncodeTranscodesInHardware(source: Source, cfg: Config, env: Environment, dir: seq<char>)
    requires cfg.encodeMode == EncAuto && source.Usb? && !source.formats.h264 && IsInt32(cfg.bitrate)
    ensures var r := LaunchCamera(source, cfg, env, dir);
      r.Launched? && |r.camera| == 27 && r.camera[14..18] == ["-pix_fmt", "nv12", "-c:v", "h264_v4l2m2m"]
  {
    assert LaunchCamera(source, cfg, env, dir).camera ==
      UsbFfmpegArgv(LaunchNode(source.node, cfg), source.formats, EncHardware,
                    cfg.width, cfg.height, cfg.fps, cfg.bitrate, FifoPath(dir));
    TranscodeWithoutNativeH264(LaunchNode(source.node, cfg), source.formats, EncHardware,
                               cfg.width, cfg.height, cfg.fps, cfg.bitrate, FifoPath(dir));
  }

  /** The CSI camera is only chosen when a camera tool exists, so main never
      dies for want of one after choosing CSI. */
  lemma {:induction false} CsiLaunchHasCameraTool(opts: Options, env: Environment)
    ensures RunMain(opts, env) != Died(CameraToolRequired)
  {
    if env.hasFfmpeg && !opts.listOnly && DecideSource(opts.cfg, env) == Chosen(Csi) {
      assert CsiDetected(env);
      assert CameraCmd(env.hasRpicam, env.hasLibcamera).Some?;
    }
  }

  /** The empty-node fallback before start_usb_ffmpeg never fires for a node
      given on the command line: the parser only accepts /dev/video paths. */
  lemma {:induction false} ExplicitNodeNeedsNoFallback(cfg: Config, env: Environment)
    requires cfg.sourceMode == SrcUsbNode && WellFormed(cfg)
    requires DecideSource(cfg, env).Chosen?
    ensures LaunchNode(DecideSource(cfg, env).source.node, cfg) == cfg.sourceNode
  {
  }

  /** Preview and camera meet at the FIFO: the preview reads the file the
      USB camera's ffmpeg writes. */
  lemma {:induction false} PreviewReadsCameraFifo(source: Source, cfg: Config, env: Environment, dir: seq<char>)
    requires source.Usb?
    ensures var r := LaunchCamera(source, cfg, env, dir);
      r.Launched? && |r.preview| == 23 && |r.camera| >= 17 && r.preview[16] == r.camera[|r.camera| - 1] == FifoPath(dir)
  {
    LaunchedPreview(source, cfg, env, dir);
    LaunchedCamera(source, cfg, env, dir);
  }
}
