/** The command line of picam_bench: parse_res and parse_cfg. Arguments are
    read left to right into a configuration record that starts at the
    defaults; "die" and "exit(0) after usage" become outcomes. */
module Cli {
  import opened CLib

  datatype SourceMode = SrcAuto | SrcCsi | SrcUsbNode
  datatype EncodeMode = EncAuto | EncSoftware | EncHardware

  /** cfg_t; the string fields hold what snprintf left in their fixed buffers. */
  datatype Config = Config(
    methodName: seq<char>,   // char[64]
    width: int,
    height: int,
    fps: int,
    bitrate: int,
    corner: seq<char>,       // char[32]
    sourceMode: SourceMode,
    sourceNode: seq<char>,   // char[128]
    encodeMode: EncodeMode,
    skipMenu: bool)

  /** The configuration and the two flags parse_cfg reports beside it. */
  datatype Options = Options(cfg: Config, listOnly: bool, noOverlay: bool)

  /** The reasons parse_cfg dies with. */
  datatype CliError =
    | MissingValue
    | InvalidResolution(arg: seq<char>)
    | InvalidSource(arg: seq<char>)
    | InvalidEncode(arg: seq<char>)
    | UnknownArg(arg: seq<char>)

  /** Parsed: parsing finished; Help: usage printed and exit(0); Fatal: die(...). */
  datatype ParseOutcome = Parsed(opts: Options) | Help | Fatal(error: CliError)

  const DefaultConfig: Config :=
    Config("h264_sdl_preview", 1280, 720, 30, 4000000, "top-left", SrcAuto, "", EncAuto, true)
  const DefaultOptions: Options := Options(DefaultConfig, false, false)

  /** parse_res: sscanf(s, "%dx%d") must convert both numbers, both positive. */
  function ParseRes(s: seq<char>): (r: Option<(int, int)>)
    ensures r.Some? ==> r.value.0 > 0 && r.value.1 > 0 && IsInt32(r.value.0) && IsInt32(r.value.1)
  {
    match ScanInt(s)
    case None => None
    case Some((w, rest)) =>
      if rest == [] || rest[0] != 'x' then None
      else
        match ScanInt(rest[1..])
        case None => None
        case Some((h, _)) => if w <= 0 || h <= 0 then None else Some((w, h))
  }

  /** The "%dx%d" rendering of a size, as the USB capture command line passes it. */
  function SizeString(w: int, h: int): seq<char>
  {
    DecimalString(w) + "x" + DecimalString(h)
  }

  /** parse_res accepts exactly what "%dx%d" renders for a positive size, and
      gives the size back. */
  lemma ParseResRoundTrip(w: int, h: int)
    requires 0 < w <= IntMax && 0 < h <= IntMax
    ensures ParseRes(SizeString(w, h)) == Some((w, h))
  {
    SizeStringScans(w, h);
    ParseResOfScans(SizeString(w, h), w, h, "x" + DecimalString(h));
  }

  /** A resolution whose width or height is not positive is refused. */
  lemma ParseResRefusesNonPositive(w: int, h: int)
    requires IsInt32(w) && IsInt32(h) && (w <= 0 || h <= 0)
    ensures ParseRes(SizeString(w, h)).None?
  {
    SizeStringScans(w, h);
    ParseResOfScans(SizeString(w, h), w, h, "x" + DecimalString(h));
  }

  /** The two %d conversions of parse_res read the two numbers of a "%dx%d" rendering. */
  lemma SizeStringScans(w: int, h: int)
    requires IsInt32(w) && IsInt32(h)
    ensures ScanInt(SizeString(w, h)) == Some((w, "x" + DecimalString(h)))
    ensures ScanInt(("x" + DecimalString(h))[1..]) == Some((h, []))
  {
    var rest := "x" + DecimalString(h);
    assert SizeString(w, h) == DecimalString(w) + rest;
    WidthScans(w, rest);
    HeightScans(h, rest);
  }

  lemma WidthScans(w: int, rest: seq<char>)
    requires IsInt32(w) && rest != [] && rest[0] == 'x'
    ensures ScanInt(DecimalString(w) + rest) == Some((w, rest))
  {
    ScanIntOfDecimal(w, rest);
  }

  lemma HeightScans(h: int, rest: seq<char>)
    requires IsInt32(h) && rest == "x" + DecimalString(h)
    ensures ScanInt(rest[1..]) == Some((h, []))
  {
    ScanIntOfDecimal(h, []);
    assert rest[1..] == DecimalString(h) + [];
  }

  /** parse_res from the results of its two conversions. */
  lemma ParseResOfScans(s: seq<char>, w: int, h: int, rest: seq<char>)
    requires ScanInt(s) == Some((w, rest)) && rest != [] && rest[0] == 'x'
    requires ScanInt(rest[1..]) == Some((h, []))
    ensures w > 0 && h > 0 ==> ParseRes(s) == Some((w, h))
    ensures w <= 0 || h <= 0 ==> ParseRes(s).None?
  {
  }

  /** The value-taking options of parse_cfg. */
  datatype OptionName = OptMethod | OptResolution | OptFps | OptBitrate | OptCorner | OptSource | OptEncode

  /** What one argument is, by the chain of strcmp tests in parse_cfg. */
  datatype ArgKind = HelpArg | ValueArg(name: OptionName) | ListCamerasArg | NoMenuArg | NoOverlayArg | OtherArg

  function ArgKindOf(a: seq<char>): ArgKind
  {
    if a == "-h" || a == "--help" then HelpArg
    else if a == "-m" || a == "--method" then ValueArg(OptMethod)
    else if a == "-r" || a == "--resolution" then ValueArg(OptResolution)
    else if a == "-f" || a == "--fps" then ValueArg(OptFps)
    else if a == "-b" || a == "--bitrate" then ValueArg(OptBitrate)
    else if a == "-c" || a == "--corner" then ValueArg(OptCorner)
    else if a == "-s" || a == "--source" then ValueArg(OptSource)
    else if a == "-e" || a == "--encode" then ValueArg(OptEncode)
    else if a == "--list-cameras" then ListCamerasArg
    else if a == "--no-menu" then NoMenuArg
    else if a == "--no-overlay" then NoOverlayArg
    else OtherArg
  }

  /** strncmp(v, "/dev/video", 10) == 0 */
  predicate IsVideoNodePath(v: seq<char>) { |v| >= 10 && v[..10] == "/dev/video" }

  datatype SetResult = Set(cfg: Config) | Rejected(error: CliError)

  /** What one value-taking option does to the configuration parsed so far. */
  function SetOption(c: Config, name: OptionName, v: seq<char>): SetResult
  {
    match name
    case OptMethod => Set(c.(methodName := Truncate(v, 63)))
    case OptResolution =>
      (match ParseRes(v)
       case None => Rejected(InvalidResolution(v))
       case Some((w, h)) => Set(c.(width := w, height := h)))
    case OptFps => Set(c.(fps := Atoi(v)))
    case OptBitrate => Set(c.(bitrate := Atoi(v)))
    case OptCorner => Set(c.(corner := Truncate(v, 31)))
    case OptSource =>
      if v == "auto" then Set(c.(sourceMode := SrcAuto))
      else if v == "csi" then Set(c.(sourceMode := SrcCsi))
      else if IsVideoNodePath(v) then Set(c.(sourceMode := SrcUsbNode, sourceNode := Truncate(v, 127)))
      else Rejected(InvalidSource(v))
    case OptEncode =>
      if v == "auto" then Set(c.(encodeMode := EncAuto))
      else if v == "software" then Set(c.(encodeMode := EncSoftware))
      else if v == "hardware" then Set(c.(encodeMode := EncHardware))
      else Rejected(InvalidEncode(v))
  }

  /** The free-text options are never refused; the others are refused
      exactly for the values parse_res or their name lists refuse, and the
      error names the value. */
  lemma SetOptionAccepts(c: Config, name: OptionName, v: seq<char>)
    ensures var r := SetOption(c, name, v);
      && (name in {OptMethod, OptFps, OptBitrate, OptCorner} ==> r.Set?)
      && (r.Rejected? ==> r.error in {InvalidResolution(v), InvalidSource(v), InvalidEncode(v)})
      && (name == OptResolution ==> (r.Set? <==> ParseRes(v).Some?))
      && (name == OptSource ==> (r.Set? <==> v == "auto" || v == "csi" || IsVideoNodePath(v)))
      && (name == OptEncode ==> (r.Set? <==> v == "auto" || v == "software" || v == "hardware"))
  {
  }

  /** An option changes only its own fields of the configuration. */
  lemma SetOptionFrame(c: Config, name: OptionName, v: seq<char>)
    requires SetOption(c, name, v).Set?
    ensures var c' := SetOption(c, name, v).cfg;
      && (name != OptResolution ==> c'.width == c.width && c'.height == c.height)
      && (name != OptSource ==> c'.sourceMode == c.sourceMode && c'.sourceNode == c.sourceNode)
      && (name != OptEncode ==> c'.encodeMode == c.encodeMode)
      && (name != OptMethod ==> c'.methodName == c.methodName)
      && (name != OptCorner ==> c'.corner == c.corner)
      && (name != OptFps ==> c'.fps == c.fps)
      && (name != OptBitrate ==> c'.bitrate == c.bitrate)
  {
  }

  /** What a configuration built by the parser always satisfies: a positive size,
      strings within their buffers, and a node path whenever the source is a node. */
  predicate WellFormed(c: Config)
  {
    && c.width > 0 && c.height > 0
    && |c.methodName| <= 63 && |c.corner| <= 31 && |c.sourceNode| <= 127
    && (c.sourceMode == SrcUsbNode ==> IsVideoNodePath(c.sourceNode))
  }

  /** Every option keeps the configuration well formed. */
  lemma SetOptionKeepsWellFormed(c: Config, name: OptionName, v: seq<char>)
    requires WellFormed(c) && SetOption(c, name, v).Set?
    ensures WellFormed(SetOption(c, name, v).cfg)
  {
    if name == OptSource && IsVideoNodePath(v) && v != "auto" && v != "csi" {
      assert Truncate(v, 127)[..10] == v[..10];
    }
  }

  /** The argument loop of parse_cfg from position i with options o. */
  function ParseFrom(args: seq<seq<char>>, i: nat, o: Options): ParseOutcome
    decreases |args| - i
  {
    if i >= |args| then Parsed(o)
    else
      match ArgKindOf(args[i])
      case HelpArg => Help
      case ValueArg(name) =>
        if i + 1 >= |args| then Fatal(MissingValue)
        else
          (match SetOption(o.cfg, name, args[i + 1])
           case Rejected(e) => Fatal(e)
           case Set(c) => ParseFrom(args, i + 2, o.(cfg := c)))
      case ListCamerasArg => ParseFrom(args, i + 1, o.(listOnly := true))
      case NoMenuArg => ParseFrom(args, i + 1, o)
      case NoOverlayArg => ParseFrom(args, i + 1, o.(noOverlay := true))
      case OtherArg => Fatal(UnknownArg(args[i]))
  }

  /** The parse from position i ends in help only at a -h or --help argument
      at or after i, and dies only when an argument is left to read. */
  lemma {:induction false} ParseOutcomeCauses(args: seq<seq<char>>, i: nat, o: Options)
    ensures ParseFrom(args, i, o).Help? ==> exists j :: i <= j < |args| && ArgKindOf(args[j]) == HelpArg
    ensures ParseFrom(args, i, o).Fatal? ==> i < |args|
    decreases |args| - i
  {
    if i < |args| {
      match ArgKindOf(args[i])
      case ValueArg(name) =>
        if i + 1 < |args| && SetOption(o.cfg, name, args[i + 1]).Set? {
          ParseOutcomeCauses(args, i + 2, o.(cfg := SetOption(o.cfg, name, args[i + 1]).cfg));
        }
      case ListCamerasArg => ParseOutcomeCauses(args, i + 1, o.(listOnly := true));
      case NoMenuArg => ParseOutcomeCauses(args, i + 1, o);
      case NoOverlayArg => ParseOutcomeCauses(args, i + 1, o.(noOverlay := true));
      case HelpArg =>
      case OtherArg =>
    }
  }

  /** parse_cfg(argc, argv, ...): argv[0] is the program name. */
  function ParseArgs(argv: seq<seq<char>>): (r: ParseOutcome)
    ensures |argv| <= 1 ==> r == Parsed(DefaultOptions)
  {
    ParseFrom(argv, 1, DefaultOptions)
  }

  /** parse_cfg as the source runs it: a loop that advances i and updates the
      record, dying on a missing or invalid value. */
  method ParseCfg(argv: seq<seq<char>>) returns (r: ParseOutcome)
    ensures r == ParseArgs(argv)
    ensures r.Parsed? ==> WellFormed(r.opts.cfg)
  {
    var cfg := DefaultConfig;
    var listOnly, noOverlay := false, false;
    var i := 1;
    while i < |argv|
      invariant 1 <= i
      invariant ParseFrom(argv, i, Options(cfg, listOnly, noOverlay)) == ParseArgs(argv)
      invariant WellFormed(cfg)
      decreases |argv| - i
    {
      ghost var o := Options(cfg, listOnly, noOverlay);
      var kind := ArgKindOf(argv[i]);
      if kind == HelpArg {
        return Help;
      } else if kind.ValueArg? {
        if i + 1 >= |argv| {
          return Fatal(MissingValue);
        }
        var res := SetOption(cfg, kind.name, argv[i + 1]);
        if res.Rejected? {
          return Fatal(res.error);
        }
        SetOptionKeepsWellFormed(cfg, kind.name, argv[i + 1]);
        assert ParseFrom(argv, i, o) == ParseFrom(argv, i + 2, o.(cfg := res.cfg));
        cfg := res.cfg;
        i := i + 2;
      } else if kind == ListCamerasArg {
        listOnly := true;
        i := i + 1;
      } else if kind == NoMenuArg {
        i := i + 1;
      } else if kind == NoOverlayArg {
        noOverlay := true;
        i := i + 1;
      } else {
        return Fatal(UnknownArg(argv[i]));
      }
    }
    return Parsed(Options(cfg, listOnly, noOverlay));
  }

  // ---------- properties of the parser ----------

  /** Parsing a suffix of the arguments does not depend on what precedes it. */
  lemma {:induction false} ParseShift(p: seq<seq<char>>, q: seq<seq<char>>, i: nat, o: Options)
    ensures ParseFrom(p + q, |p| + i, o) == ParseFrom(q, i, o)
    decreases |q| - i, 1
  {
    if i < |q| {
      assert (p + q)[|p| + i] == q[i];
      match ArgKindOf(q[i])
      case ValueArg(name) => ParseShiftValue(p, q, i, o, name);
      case ListCamerasArg => ParseShift(p, q, i + 1, o.(listOnly := true));
      case NoMenuArg => ParseShift(p, q, i + 1, o);
      case NoOverlayArg => ParseShift(p, q, i + 1, o.(noOverlay := true));
      case HelpArg =>
      case OtherArg =>
    }
  }

  /** The value-taking step of ParseShift. */
  lemma {:induction false} ParseShiftValue(p: seq<seq<char>>, q: seq<seq<char>>, i: nat, o: Options, name: OptionName)
    requires i < |q| && ArgKindOf(q[i]) == ValueArg(name)
    ensures ParseFrom(p + q, |p| + i, o) == ParseFrom(q, i, o)
    decreases |q| - i, 0
  {
    assert (p + q)[|p| + i] == q[i];
    if i + 1 < |q| {
      assert (p + q)[|p| + i + 1] == q[i + 1];
      var r := SetOption(o.cfg, name, q[i + 1]);
      if r.Set? {
        ParseShift(p, q, i + 2, o.(cfg := r.cfg));
      }
    }
  }

  /** Arguments are consumed left to right: once a prefix has parsed to o1, the
      rest is parsed starting from o1. */
  lemma {:induction false} ParseAppend(p: seq<seq<char>>, q: seq<seq<char>>, i: nat, o: Options, o1: Options)
    requires i <= |p| && ParseFrom(p, i, o) == Parsed(o1)
    ensures ParseFrom(p + q, i, o) == ParseFrom(q, 0, o1)
    decreases |p| - i, 1
  {
    if i == |p| {
      ParseShift(p, q, 0, o);
    } else {
      assert (p + q)[i] == p[i];
      match ArgKindOf(p[i])
      case ValueArg(name) => ParseAppendValue(p, q, i, o, o1, name);
      case ListCamerasArg => ParseAppend(p, q, i + 1, o.(listOnly := true), o1);
      case NoMenuArg => ParseAppend(p, q, i + 1, o, o1);
      case NoOverlayArg => ParseAppend(p, q, i + 1, o.(noOverlay := true), o1);
    }
  }

  /** The value-taking step of ParseAppend. */
  lemma {:induction false} ParseAppendValue(p: seq<seq<char>>, q: seq<seq<char>>, i: nat, o: Options, o1: Options,
                                            name: OptionName)
    requires i < |p| && ParseFrom(p, i, o) == Parsed(o1) && ArgKindOf(p[i]) == ValueArg(name)
    ensures ParseFrom(p + q, i, o) == ParseFrom(q, 0, o1)
    decreases |p| - i, 0
  {
    assert (p + q)[i] == p[i];
    assert (p + q)[i + 1] == p[i + 1];
    ParseAppend(p, q, i + 2, o.(cfg := SetOption(o.cfg, name, p[i + 1]).cfg), o1);
  }

  /** With no options every field keeps its default. */
  lemma NoOptionsGiveDefaults(prog: seq<char>)
    ensures ParseArgs([prog]) == Parsed(DefaultOptions)
    ensures DefaultConfig.width == 1280 && DefaultConfig.height == 720 && DefaultConfig.fps == 30
    ensures DefaultConfig.bitrate == 4000000 && DefaultConfig.corner == "top-left"
    ensures DefaultConfig.sourceMode == SrcAuto && DefaultConfig.encodeMode == EncAuto
  {
  }

  /** A later option overrides an earlier one: appending a value-taking option
      to arguments that parse leaves exactly that option's effect on top. */
  lemma LaterOptionOverrides(argv: seq<seq<char>>, flag: seq<char>, v: seq<char>)
    requires |argv| >= 1 && ParseArgs(argv).Parsed? && ArgKindOf(flag).ValueArg?
    ensures ParseArgs(argv + [flag, v])
         == match SetOption(ParseArgs(argv).opts.cfg, ArgKindOf(flag).name, v)
            case Set(c) => Parsed(ParseArgs(argv).opts.(cfg := c))
            case Rejected(e) => Fatal(e)
  {
    ParseAppend(argv, [flag, v], 1, DefaultOptions, ParseArgs(argv).opts);
  }

  /** In particular the last --fps wins, and any text is accepted as its value. */
  lemma LastFpsWins(argv: seq<seq<char>>, v: seq<char>)
    requires |argv| >= 1 && ParseArgs(argv).Parsed?
    ensures ParseArgs(argv + ["--fps", v]).Parsed?
    ensures ParseArgs(argv + ["--fps", v]).opts.cfg.fps == Atoi(v)
  {
    LaterOptionOverrides(argv, "--fps", v);
  }

  /** A value-taking option in last position dies with "missing value". */
  lemma MissingValueDies(argv: seq<seq<char>>, flag: seq<char>)
    requires |argv| >= 1 && ParseArgs(argv).Parsed? && ArgKindOf(flag).ValueArg?
    ensures ParseArgs(argv + [flag]) == Fatal(MissingValue)
  {
    ParseAppend(argv, [flag], 1, DefaultOptions, ParseArgs(argv).opts);
  }

  /** --source accepts exactly auto, csi and paths starting with /dev/video. */
  lemma SourceValues(prog: seq<char>, v: seq<char>)
    ensures ParseArgs([prog, "--source", v]).Parsed?
        <==> v == "auto" || v == "csi" || IsVideoNodePath(v)
    ensures !ParseArgs([prog, "--source", v]).Parsed? ==> ParseArgs([prog, "--source", v]) == Fatal(InvalidSource(v))
    ensures IsVideoNodePath(v) ==> ParseArgs([prog, "--source", v]).opts.cfg.sourceMode == SrcUsbNode
  {
    var args := [prog, "--source", v];
    assert ArgKindOf(args[1]) == ValueArg(OptSource);
    assert ParseArgs(args) == match SetOption(DefaultConfig, OptSource, v)
      case Rejected(e) => Fatal(e)
      case Set(c) => ParseFrom(args, 3, DefaultOptions.(cfg := c));
    assert IsVideoNodePath(v) ==> v != "auto" && v != "csi";
  }

  /** --encode accepts exactly auto, software and hardware. */
  lemma EncodeValues(prog: seq<char>, v: seq<char>)
    ensures ParseArgs([prog, "-e", v]).Parsed? <==> v == "auto" || v == "software" || v == "hardware"
    ensures !ParseArgs([prog, "-e", v]).Parsed? ==> ParseArgs([prog, "-e", v]) == Fatal(InvalidEncode(v))
  {
    var args := [prog, "-e", v];
    assert ArgKindOf(args[1]) == ValueArg(OptEncode);
    assert ParseArgs(args) == match SetOption(DefaultConfig, OptEncode, v)
      case Rejected(e) => Fatal(e)
      case Set(c) => ParseFrom(args, 3, DefaultOptions.(cfg := c));
  }

  /** An argument that is no known option dies, naming the argument. */
  lemma UnknownArgumentDies(argv: seq<seq<char>>, a: seq<char>)
    requires |argv| >= 1 && ParseArgs(argv).Parsed?
    requires ArgKindOf(a) == OtherArg
    ensures ParseArgs(argv + [a]) == Fatal(UnknownArg(a))
  {
    ParseAppend(argv, [a], 1, DefaultOptions, ParseArgs(argv).opts);
  }
}
