# picam: a Dafny model of the benchmark orchestrator and its menu

This project models the decision logic of `picam_bench` and `picam_menu`.
`picam_bench` previews a camera on a Raspberry Pi. It starts an ffmpeg SDL
preview that reads H.264 from a FIFO. It also starts a camera process (the
`rpicam-vid`/`libcamera-vid` tool for a CSI sensor, or an ffmpeg V4L2
capture for a USB camera) that writes into the FIFO. While both run, it
writes frame rate, bitrate, CPU and memory figures to a stats file that
the preview draws on top of the picture. `picam_menu` is a text menu that
runs a fixed table of benchmark commands.

Everything the programs learn from the operating system is an input value:

- the V4L2 answers of each `/dev/video*` node (a device table);
- the `glob` result;
- the bytes the camera tool printed for `--list-cameras`;
- whether `ffmpeg`, `rpicam-vid` and `libcamera-vid` exist;
- the directory `mkdtemp` made;
- the contents of `/proc/stat`, `/proc/<pid>/stat` and `/proc/<pid>/status`;
- the bytes `read()` returned from the preview's stderr;
- the text the menu itself reads from standard input;
- the status `system()` returned.

Modules (one file each):

- `CLib` (`clib.dfy`): the C library behaviour the code relies on.
  - NUL-terminated strings, `strstr`, `strrchr`, `snprintf`/`strncpy`
    truncation, `isspace`, `strcasecmp`.
  - glibc's `strtol`/`strtoull`: `atoi` saturates to a 64-bit long, then
    the `(int)` cast wraps to 32 bits; `%llu` negates modulo 2^64 and
    overflows to `ULLONG_MAX`.
  - `"%d"` rendering, with read-back lemmas.
- `V4l2` (`v4l2.dfy`): `v4l2_supports_capture`, `v4l2_enum_formats`,
  `pick_usb_node`, `detect_usb`.
- `CameraList` (`camera_list.dfy`): `camera_cmd` and the text rule of
  `detect_csi_available`.
- `Cli` (`cli.dfy`): `parse_res` and `parse_cfg`.
- `Argv` (`argv.dfy`): `overlay_coords` and the argv arrays of
  `start_preview`, `start_csi_camera` and `start_usb_ffmpeg`. The last is
  also modelled as the `argv[ac++]` fill of its 64-slot array.
- `Selection` (`selection.dfy`): what `main` decides after parsing.
  - The source: CSI, an explicit node, or auto.
  - The encoder: `auto` always becomes hardware.
  - The list-only report, and which two child command lines it launches.
- `LogReader` (`log_reader.dfy`): the line accumulator of
  `ffmpeg_log_reader`, as a class over an 8192-byte array. It is proved
  equal to a value model that does not depend on how the stream is cut
  into chunks. Also the `"N/A"` bitrate fallback of `stats_writer`.
- `ProcStats` (`proc_stats.dfy`): the `/proc` parsing of
  `read_proc_stat_total` and `read_proc_pid_stat`. Also the array-filling
  loops of `cpu_percent_for_pids` and `rss_mb_for_pids`, with unsigned
  64-bit tick arithmetic.
- `Menu` (`menu.dfy`): the menu table (`add_entry`, `init_menu_entries`)
  as a class over a 50-slot array, and `get_user_input` in place on its
  buffer. Also the classification of a typed choice, the read-dispatch
  loop of `main` (proved to run exactly the commands of a `Session`
  function of the input), and the exit code of `run_command`.

Behaviour modelled as written, where the code departs from, or goes
further than, its own comments:

- `CameraList.CsiListed`: the comments at picam_bench.c:874 and :877 say
  CSI is present when some line lacks `"usb@"`. After each `"Index"`,
  however, the `"usb@"` search runs to the end of the captured text, not
  to the end of the line. So a listing whose last camera is a USB camera
  reports no CSI camera, however many sensors come before it
  (`CameraList.UsbListedLastHidesEarlierCameras`).
- `Selection.ResolveEncode`: `auto` becomes hardware unconditionally, as
  the comment at picam_bench.c:966 says ("prefer hardware when
  transcoding"). The code does not probe for a hardware encoder and does
  not fall back to software.
- `V4l2.SupportsCapture`: the comment at picam_bench.c:308 says "Prefer
  uvcvideo", but the test is a requirement: a node whose driver is not
  `uvcvideo` is refused.
- `start_preview`: the comment at picam_bench.c:578 says the corner will
  be overridden from the configuration later. It never is: the overlay
  always sits at the compile-time default corner
  (`Argv.PreviewIgnoresCorner`).

## Model

| member | source | states |
|---|---|---|
| `CLib.Terminated` | picam_bench.c:483-486 | the string a buffer holds is a prefix of it that stops at a NUL or at the end of the buffer |
| `CLib.Truncate` | picam_menu.c:41-45 | a bounded copy keeps a prefix of at most n characters, and keeps the whole string when it fits |
| `CLib.FindFrom` | picam_bench.c:880 | strstr finds an occurrence at or after the start, and no earlier one exists |
| `CLib.ContainsPrefixOfPattern` | picam_bench.c:306 | text containing "bcm2835-codec" contains "bcm2835", so the codec tests add nothing to the filter |
| `CLib.LastIndexOf` | picam_bench.c:196 | strrchr gives the last position holding the character, or None when it does not occur |
| `CLib.Atoi` | picam_bench.c:783 | atoi always gives a 32-bit int, and 0 when no numeral begins the text |
| `CLib.ScanIntOfDecimal` | picam_bench.c:739 | %d and atoi read back the "%d" rendering of every int |
| `CLib.AtoiOfDecimal` | picam_menu.c:295 | atoi of a rendered int is that int |
| `CLib.ScanULongLongOfDecimal` | picam_bench.c:173 | %llu reads back a rendered unsigned 64-bit value |
| `CLib.ScanLongOfDecimal` | picam_bench.c:227 | %ld reads back a rendered long |
| `CLib.StrToLong` | picam_bench.c:227 | strtol gives the numeral's value when it fits a long, LONG_MAX above and LONG_MIN below |
| `CLib.StrToULongLong` | picam_bench.c:173 | strtoull gives ULLONG_MAX on overflow and negates a "-" numeral modulo 2^64 |
| `CLib.ULongLongOf` | picam_bench.c:207-212 | what %llu stores for a rendered value: the value itself when not negative, otherwise the value plus 2^64 |
| `CLib.ScanNumeralAfterSpaces` | picam_bench.c:227 | a numeric conversion skips any run of blanks or tabs before the numeral |
| `CLib.ScanInt` | picam_bench.c:739 | a successful %d stores a 32-bit int and consumes part of the text |
| `CLib.EqualsIgnoreCase` | picam_menu.c:266-275 | strcasecmp equality holds for equal strings and only for strings of the same length |
| `CLib.DecimalString` | picam_bench.c:617-621 | the "%d" rendering is non-empty, starts with a sign or a digit, and is all digits for a non-negative value |
| `CLib.ScanNumeralNeedsDigit` | picam_bench.c:207-212 | a numeric conversion fails at a character that is not space, sign or digit |
| `V4l2.H264Code` | picam_bench.c:336 | the H.264 code compared is v4l2_fourcc('H','2','6','4') |
| `V4l2.MjpegCode` | picam_bench.c:338 | the MJPEG code compared is v4l2_fourcc('M','J','P','G') |
| `V4l2.YuyvCode` | picam_bench.c:340 | the YUYV code compared is v4l2_fourcc('Y','U','Y','V') |
| `V4l2.SupportsCapture` | picam_bench.c:300-316 | accepted iff the query succeeds, no bcm2835 in driver or card, uvcvideo driver, and a capture bit in capabilities or (DEVICE_CAPS set) in device_caps |
| `V4l2.CaptureBitAccepted` | picam_bench.c:311-314 | a uvcvideo node with VIDEO_CAPTURE in capabilities is accepted whatever device_caps holds |
| `V4l2.Bcm2835Refused` | picam_bench.c:305-307 | a bcm2835 codec or ISP node is refused whatever bits it reports |
| `V4l2.EnumFormats` | picam_bench.c:323-360 | returns -1 with every flag clear when open fails; otherwise each flag is set iff its FourCC occurs in the single-plane or multi-plane enumeration; the flags are those of Formats |
| `V4l2.Formats` | picam_bench.c:323-360 | a node that does not open offers no format, and neither does one with empty enumerations |
| `V4l2.FirstCapture` | picam_bench.c:370-379 | the index found passes the classification and every earlier path fails it; None when none passes |
| `V4l2.PickUsbNodeScan` | picam_bench.c:362-382 | returns 0 iff glob succeeded and some path passes; the node is the first passing path cut to 127 characters |
| `V4l2.PickUsbNode` | picam_bench.c:362-382 | a node iff glob succeeded and some path passes; it has at most 127 characters and is a prefix of a passing path |
| `V4l2.DetectUsb` | picam_bench.c:897-903 | reports a camera iff some globbed node passes; the node is the first one in glob order and the formats are those v4l2_enum_formats finds on it |
| `CameraList.CameraCmd` | picam_bench.c:386-393 | rpicam-vid when installed, else libcamera-vid, else none |
| `CameraList.LineEnd` | picam_bench.c:882-884 | the scan resumes after the "Index", at the first newline after it, or at the end of the text when none follows |
| `CameraList.DetectCsiAvailable` | picam_bench.c:844-895 | yes only with a camera tool, a pipe and the marker, and then some "Index" follows every "usb@"; with tool, pipe and marker and no "usb@", always yes |
| `CameraList.ScanCameraList` | picam_bench.c:872-894 | 0 without the marker; 1 with the marker and no "usb@"; otherwise the verdict of the Index-visiting loop |
| `CameraList.NoUsbAfter` | picam_bench.c:885 | once "usb@" is absent from a position on, it is absent from every later position |
| `CameraList.VisitWitness` | picam_bench.c:880-891 | a yes from the visiting loop is witnessed by an "Index" with no "usb@" anywhere after it |
| `CameraList.VisitFrom` | picam_bench.c:880-891 | a yes from the visit starting at a position is backed by an "Index" at or after it |
| `CameraList.CsiListed` | picam_bench.c:872-894 | listed only with the marker; the marker and no "usb@" are enough |
| `CameraList.ListedImpliesIndexAfterAllUsb` | picam_bench.c:875-892 | when "usb@" occurs, CSI is reported only if some "Index" follows every "usb@" in the text |
| `CameraList.UsbListedLastHidesEarlierCameras` | picam_bench.c:885 | a "usb@" after every "Index" makes the answer no, whatever the earlier camera lines say |
| `Cli.ParseRes` | picam_bench.c:737-741 | an accepted resolution is two positive 32-bit ints |
| `Cli.ParseResOfScans` | picam_bench.c:739-740 | both conversions and an 'x' are required, and the size is refused unless both numbers are positive |
| `Cli.ParseResRoundTrip` | picam_bench.c:737-741 | the "%dx%d" rendering of any positive size parses back to that size |
| `Cli.ParseResRefusesNonPositive` | picam_bench.c:739-740 | a rendered size with a non-positive side is refused |
| `Cli.SizeStringScans` | picam_bench.c:739 | the two %d conversions read the two numbers of a rendered size |
| `Cli.SetOptionKeepsWellFormed` | picam_bench.c:767-825 | every accepted option leaves a positive size, strings within their buffers, and a /dev/video path for node mode |
| `Cli.SetOptionAccepts` | picam_bench.c:767-825 | --method, --fps, --bitrate and --corner are never refused; --resolution, --source and --encode are refused exactly for the values parse_res or their name lists refuse, and the error names the value |
| `Cli.SetOptionFrame` | picam_bench.c:767-825 | an accepted option leaves every other field of the configuration as it was |
| `Cli.ParseCfg` | picam_bench.c:743-840 | the argument loop gives the outcome of the left-to-right parse, and a parsed configuration is well formed |
| `Cli.ParseOutcomeCauses` | picam_bench.c:759-839 | the parse ends in help only at a -h/--help argument at or after the position, and dies only when an argument is left |
| `Cli.ParseArgs` | picam_bench.c:743-840 | with no argument after the program name, the defaults are parsed |
| `Cli.ParseShift` | picam_bench.c:759-839 | parsing a tail of the arguments does not depend on what precedes it |
| `Cli.ParseAppend` | picam_bench.c:759-839 | arguments are consumed left to right: after a prefix parses, the rest starts from its result |
| `Cli.NoOptionsGiveDefaults` | picam_bench.c:745-757 | without options the configuration is 1280x720, 30 fps, 4000000, top-left, auto source, auto encode |
| `Cli.LaterOptionOverrides` | picam_bench.c:759-839 | an option appended after arguments that parse has the last word on its field |
| `Cli.LastFpsWins` | picam_bench.c:779-784 | the last --fps wins and any text is accepted, read with atoi |
| `Cli.MissingValueDies` | picam_bench.c:769-770 | an option missing its value dies with "missing value" |
| `Cli.SourceValues` | picam_bench.c:797-812 | --source accepts exactly auto, csi and values starting with /dev/video; anything else dies naming it |
| `Cli.EncodeValues` | picam_bench.c:813-825 | --encode accepts exactly auto, software and hardware; anything else dies naming it |
| `Cli.UnknownArgumentDies` | picam_bench.c:837-838 | an unknown argument dies naming it |
| `Argv.OverlayCoords` | picam_bench.c:514-536 | x is the right edge iff the corner is top-right or bottom-right, y the bottom edge iff bottom-left or bottom-right, else the 10-pixel margin |
| `Argv.UnknownCornerIsTopLeft` | picam_bench.c:531-535 | an unknown corner name is placed like top-left |
| `Argv.PreviewArgv` | picam_bench.c:590-599 | the preview has 23 arguments, reads the FIFO as its input and is titled as given |
| `Argv.PreviewArgvLayout` | picam_bench.c:592-599 | ffmpeg reads H.264 from the FIFO, draws the stats file at top-left and shows SDL without audio |
| `Argv.PreviewIgnoresCorner` | picam_bench.c:578-579 | for any non-default corner the preview's filter differs from the one that corner would give |
| `Argv.CsiCameraArgs` | picam_bench.c:623-629 | the camera tool command line has 16 arguments and starts with the tool |
| `Argv.StartCsiCamera` | picam_bench.c:606-632 | without a camera tool it dies; otherwise it runs that tool |
| `Argv.CsiCameraArgsValues` | picam_bench.c:617-621 | the width, height, rate and bitrate arguments read back with atoi as the values given |
| `Argv.CsiCameraArgsRoundTrip` | picam_bench.c:617-629 | inline H.264 to stdout without a timeout, each number after its option and reading back |
| `Argv.InputFormat` | picam_bench.c:636-645 | h264 iff native H.264; mjpeg when MJPEG or nothing known; yuyv422 only for YUYV alone |
| `Argv.UsbFfmpegArgv` | picam_bench.c:655-711 | 17 to 63 arguments, the input format and device in place, ending -f h264 with the FIFO |
| `Argv.CopyWhenNativeH264` | picam_bench.c:673-678 | native H.264 is copied whatever encoding was asked for |
| `Argv.TranscoderArgs` | picam_bench.c:679-706 | hardware gives nv12 and h264_v4l2m2m, otherwise libx264 ultrafast zerolatency, each with the bitrate after -b:v, -maxrate and -bufsize |
| `Argv.EncoderArgs` | picam_bench.c:673-706 | copy iff native H.264; h264_v4l2m2m iff transcoding in hardware; libx264 iff transcoding otherwise; a transcoder ends with the bitrate as -b:v, -maxrate and -bufsize |
| `Argv.TranscodeWithoutNativeH264` | picam_bench.c:679-706 | without native H.264 the full command line transcodes with the bitrate three times, and it reads back with atoi |
| `Argv.UsbSizeAndRateRoundTrip` | picam_bench.c:647-671 | parse_res recovers the size from -video_size, atoi the rate from -framerate, and -i names the device |
| `Argv.PushAll` | picam_bench.c:658-671 | argv[ac++] for each argument appends exactly those cells and leaves the rest of the array alone |
| `Argv.PushNull` | picam_bench.c:711 | the terminating NULL is appended |
| `Argv.FillUsbArgv` | picam_bench.c:634-715 | the 64-slot array holds the USB command line followed by NULL |
| `Selection.DecideSource` | picam_bench.c:935-960 | CSI is chosen iff it is detected and the source is not an explicit node; refusals are the three fatal messages |
| `Selection.ResolveEncode` | picam_bench.c:962-967 | auto becomes hardware; explicit modes are kept |
| `Selection.CsiModeNeedsDetection` | picam_bench.c:939-944 | --source csi runs CSI iff it is detected, else dies "CSI camera not found" |
| `Selection.NodeModeNeedsCapture` | picam_bench.c:945-951 | an explicit node is used iff it passes the classification, with its formats; otherwise it dies naming the node |
| `Selection.AutoPrefersCsiThenFirstNode` | picam_bench.c:952-960 | auto takes CSI if detected, else the first passing node in glob order, and dies iff there is neither |
| `Selection.CodecNodeRefused` | picam_bench.c:947-948 | an explicit bcm2835-codec node is refused as an invalid USB node |
| `Selection.LaunchCamera` | picam_bench.c:998-1014 | the camera process is launched, except that CSI without a camera tool dies |
| `Selection.LaunchedPreview` | picam_bench.c:999 | the preview reads the FIFO of the temporary directory and is titled after the source |
| `Selection.LaunchedCamera` | picam_bench.c:1001-1014 | CSI runs the first camera tool found; USB runs ffmpeg on the launch node, writing into the FIFO |
| `Selection.RunMain` | picam_bench.c:907-1014 | without ffmpeg main dies; it only lists cameras iff ffmpeg exists and --list-cameras was given |
| `Selection.LaunchNeedsSourceAndTempDir` | picam_bench.c:981-985 | the children start only with ffmpeg, a chosen source and a temporary directory; a failed mkdtemp dies |
| `Selection.AutoEncodeTranscodesInHardware` | picam_bench.c:963-967 | with the default encode mode, a camera without H.264 is transcoded by h264_v4l2m2m, never libx264 |
| `Selection.CsiLaunchHasCameraTool` | picam_bench.c:1002-1005 | the "required for CSI" death never happens, because CSI is only chosen when a camera tool exists |
| `Selection.ExplicitNodeNeedsNoFallback` | picam_bench.c:1010-1012 | the empty-node fallback never changes an explicit node |
| `Selection.LaunchNode` | picam_bench.c:1008-1012 | a chosen node is used as it is; without one, the configured node cut to 127 characters, which is that node whenever it fits |
| `Selection.PreviewReadsCameraFifo` | picam_bench.c:987 | the preview's input is the file the USB capture writes |
| `LogReader.NonSpaceRun` | picam_bench.c:498 | the longest run of non-space characters, ended by a space or the end of the text |
| `LogReader.ScanWord` | picam_bench.c:498 | %63s yields at most 63 non-space characters taken from the text |
| `LogReader.ScanWordReadsWord` | picam_bench.c:498 | %63s after any white space reads back a word of at most 63 characters whole, and a longer one cut to its first 63 |
| `LogReader.WithFps` | picam_bench.c:485-494 | a line with "fps=" replaces the frame-rate reading with the text after its first "fps="; otherwise that reading is unchanged; the bitrate is untouched |
| `LogReader.WithBitrate` | picam_bench.c:486-501 | a line with "bitrate=" replaces the bitrate with at most 63 non-space characters of the line; otherwise it is unchanged |
| `LogReader.EndOfLine` | picam_bench.c:481-502 | a line without either key changes nothing; a bitrate read from a line fits its buffer |
| `LogReader.Step` | picam_bench.c:478-508 | a line end empties the buffer; another character is appended while fewer than 8191 are held, otherwise dropped, and publishes nothing |
| `LogReader.FeedSplit` | picam_bench.c:470-509 | feeding two read chunks one after the other is feeding their concatenation |
| `LogReader.Feed` | picam_bench.c:470-509 | the readings change only when a line end is fed, and a run ending in a line end leaves the buffer empty |
| `LogReader.LineStaysInBuffer` | picam_bench.c:505-507 | the line buffer never holds more than 8191 characters |
| `LogReader.LongLineIsCut` | picam_bench.c:505-508 | of a run without line ends only the first 8191 characters are kept, and nothing is published |
| `LogReader.LinePublishes` | picam_bench.c:481-503 | a whole line publishes the readings of its first 8191 characters and empties the buffer |
| `LogReader.BitrateReadsWord` | picam_bench.c:495-501 | the bitrate published is the word after the first "bitrate=", cut to its first 63 characters when longer |
| `LogReader.BitrateWithoutValueClears` | picam_bench.c:497-500 | "bitrate=" followed only by white space publishes an empty bitrate |
| `LogReader.BitrateLabel` | picam_bench.c:554 | the stats file shows the bitrate when it is non-empty, and "N/A" otherwise |
| `LogReader.LabelWithoutReading` | picam_bench.c:554 | with no bitrate reading the stats file says "N/A" |
| `LogReader.LineAccumulator.constructor` | picam_bench.c:466-469 | the reader starts with an empty line and no readings |
| `LogReader.LineAccumulator.HandleChar` | picam_bench.c:480-508 | one character updates the buffer, its length and the readings as one step of the value model |
| `LogReader.LineAccumulator.HandleRead` | picam_bench.c:472-509 | a read of n > 0 bytes feeds them in order; n <= 0 changes nothing |
| `ProcStats.FgetsChunk` | picam_bench.c:165 | fgets reads a prefix of at most limit characters, stopping after the first newline |
| `ProcStats.FgetsReadsLine` | picam_bench.c:165 | a line that fits is read whole |
| `ProcStats.ScanULongLongs` | picam_bench.c:173 | a chain of %llu conversions stores at most n unsigned 64-bit values |
| `ProcStats.ScanFieldsRoundTrip` | picam_bench.c:207-212 | the first n values of a rendered field list read back |
| `ProcStats.Converted` | picam_bench.c:207-212 | the values %llu stores for rendered fields: one per field, each the field modulo 2^64 |
| `ProcStats.ConvertedUnsigned` | picam_bench.c:207-212 | unsigned 64-bit fields are stored as written |
| `ProcStats.SubU64` | picam_bench.c:268 | unsigned subtraction stays in 64 bits and is exact when no wrap occurs |
| `ProcStats.AddU64` | picam_bench.c:264-265 | unsigned addition stays in 64 bits and is exact when no overflow occurs |
| `ProcStats.ReadProcStatTotal` | picam_bench.c:159-175 | -1 iff the file cannot be opened or is empty, with the counters untouched; otherwise 0 with seven 64-bit counters |
| `ProcStats.CpuCounters` | picam_bench.c:173 | at most seven 64-bit counters, none unless the line starts with "cpu" |
| `ProcStats.StatLineRead` | picam_bench.c:159-175 | the kernel's aggregate line ("cpu", two spaces, seven or more counters, a newline) gives its first seven counters, whatever the storage held and whatever lines follow |
| `ProcStats.Total` | picam_bench.c:264-265 | the sum of the seven counters stays in unsigned 64 bits |
| `ProcStats.VmRssFrom` | picam_bench.c:219-231 | the VmRSS figure is a long |
| `ProcStats.VmRssOfLine` | picam_bench.c:224-229 | a status line yields a figure iff it starts with "VmRSS:" |
| `ProcStats.VmRssKb` | picam_bench.c:215-233 | no status file gives 0 kB |
| `ProcStats.VmRssSkipsOtherLine` | picam_bench.c:222-231 | status lines other than VmRSS are passed over |
| `ProcStats.VmRssLineRead` | picam_bench.c:222-231 | a VmRSS line padded by any run of tabs and spaces, as the kernel pads its width-8 figure, yields the figure written on it |
| `ProcStats.ReadProcPidStatAsWritten` | picam_bench.c:177-240 | the code as written: on success the sample carries the VmRSS figure; no stat file is a failure |
| `ProcStats.ReadProcPidStat` | picam_bench.c:177-240 | corrected parse: on success, 64-bit utime and stime and the VmRSS figure |
| `ProcStats.StatValues` | picam_bench.c:186-213 | twelve 64-bit values or failure; no ')' before the first NUL is a failure |
| `ProcStats.ScanReadsPastNul` | picam_bench.c:192-213 | a NUL right after the last ')' does not stop the parse: sscanf reads the bytes after it, and twelve fields there convert |
| `ProcStats.StatLineLayout` | picam_bench.c:186-199 | in a kernel stat line (signed fields, trailing newline) the last ')' closes the command name, is followed by a space and the state letter, and then by the fields and the newline; the 4095-byte read holds the whole line |
| `ProcStats.AsWrittenRejectsEveryStatLine` | picam_bench.c:199-213 | starting at the last ')' + 2 (the state letter), every kernel-formatted stat line, with any signed fields and its newline, is rejected |
| `ProcStats.ReadsUtimeAndStime` | picam_bench.c:200-213 | with the scan starting after the state, the sample holds fields 14 and 15 (utime, stime) as %llu stores them, for any kernel line including negative fields such as tpgid -1 |
| `ProcStats.TicksOf` | picam_bench.c:244-253 | a non-positive pid or a failed read leaves its counters at zero |
| `ProcStats.ReadPid` | picam_bench.c:177-240 | no stat file means no sample; a sample carries the VmRSS figure of the status file |
| `ProcStats.BusyTicks` | picam_bench.c:259-269 | the unsigned busy-tick sum stays in 64 bits, and processes whose two samples agree add nothing |
| `ProcStats.CpuShare` | picam_bench.c:252-270 | 0 when either /proc/stat read fails or the total did not change; never negative |
| `ProcStats.CpuPercent` | picam_bench.c:242-271 | the CPU figure, for either parse, is never negative and is 0 when the processes counted no busy ticks |
| `ProcStats.Percentage` | picam_bench.c:270 | 100 × part / whole lies between 0 and 100 when the part does not exceed the whole |
| `ProcStats.OneProcessBusy` | picam_bench.c:264-268 | the busy ticks of one process are its own unsigned utime and stime deltas |
| `ProcStats.FifteenOfHundred` | picam_bench.c:262-270 | utime and stime going (20,5)→(30,10), i.e. 25→40 busy ticks, while the total goes 1000→1100, give exactly 15 per cent |
| `ProcStats.FailedSecondReadWraps` | picam_bench.c:268 | a process read the first time but not the second contributes 2^64 minus its ticks |
| `ProcStats.ElapsedSurvivesWrap` | picam_bench.c:262-263 | the unsigned difference of the totals is the elapsed ticks even across a counter wrap |
| `ProcStats.CpuPercentForPids` | picam_bench.c:242-271 | the method with its four 16-slot arrays computes CpuPercent for the given parse; the program's figure is the AsWritten one |
| `ProcStats.SumBusy` | picam_bench.c:265-269 | the summing loop gives the unsigned busy ticks of the processes |
| `ProcStats.Zeros` | picam_bench.c:243 | the counter arrays start at zero |
| `ProcStats.SampleAll` | picam_bench.c:246-249 | each slot holds the ticks of its pid, or zero when the pid is not positive or cannot be read |
| `ProcStats.RssOf` | picam_bench.c:277-285 | a non-positive pid or a failed read contributes nothing |
| `ProcStats.RssKb` | picam_bench.c:273-285 | processes that cannot be read add nothing, and non-negative figures give a non-negative sum |
| `ProcStats.RssMbForPids` | picam_bench.c:273-286 | the figure is the summed VmRSS of the pids the given parse reads, divided by 1024; the program's figure is the AsWritten one |
| `ProcStats.RssOfTwo` | picam_bench.c:542-548 | the memory figure of the camera and the preview is the sum of their two contributions, in either order |
| `ProcStats.AsWrittenReadsNoPid` | picam_bench.c:199-213 | as written, the reader returns nothing for every pid of a /proc whose stat files are in the kernel's format |
| `ProcStats.NothingReadNothingCounted` | picam_bench.c:262-287 | readers that fail for every pid count no busy ticks and no memory |
| `ProcStats.AsWrittenShowsNoLoad` | picam_bench.c:542-548 | as written, the stats file shows a CPU figure of exactly 0.0 and a summed VmRSS of 0 kB for the camera and preview processes, whatever they did |
| `ProcStats.CorrectedCountsLoad` | picam_bench.c:242-271 | corrected, the busy ticks of a process are the unsigned growth of its utime and stime fields between its two stat files |
| `Menu.Stored` | picam_menu.c:41-45 | the stored name keeps at most 127 characters and the command at most 511, as prefixes; strings that fit are kept whole |
| `Menu.AppendingBelowCapacity` | picam_menu.c:33-48 | below capacity each add_entry appends its truncated entry after the existing entries, which are unchanged |
| `Menu.AppendingToFullTable` | picam_menu.c:35-39 | a table at 50 entries ignores every further add_entry |
| `Menu.Appended` | picam_menu.c:33-48 | add_entry keeps the listed entries as a prefix, adds at most one, and never goes past 50 |
| `Menu.AppendedAll` | picam_menu.c:33-94 | a sequence of add_entry calls keeps the listed entries as a prefix, adds at most one per item, and never goes past 50 |
| `Menu.InitialMenuEntries` | picam_menu.c:51-94 | init_menu_entries leaves 34 entries (below 50), entry k being the k-th item as stored |
| `Menu.MenuItemCount` | picam_menu.c:54-93 | init_menu_entries makes 34 add_entry calls |
| `Menu.MenuTable.constructor` | picam_menu.c:29-30 | the static table starts empty |
| `Menu.MenuTable.AddEntry` | picam_menu.c:33-48 | the listed entries become those of Appended: unchanged when full, else one truncated entry more |
| `Menu.MenuTable.AddEntries` | picam_menu.c:51-94 | add_entry calls in sequence give AppendedAll of the items |
| `Menu.MenuTable.InitMenuEntries` | picam_menu.c:51-94 | the table after init_menu_entries is AppendedAll of the 34 items |
| `Menu.ReadLine` | picam_menu.c:213 | fgets reads at most n characters, and at least one when input remains |
| `Menu.ReadLineStops` | picam_menu.c:213 | fgets reads a prefix that stops at the first newline, a full buffer or the end of the input |
| `Menu.ReadLineOfLine` | picam_menu.c:213 | a typed line shorter than the buffer is read whole with its newline |
| `Menu.TrimNewlineRemovesOne` | picam_menu.c:218-223 | exactly one trailing newline is removed; text without one is unchanged |
| `Menu.TrimNewline` | picam_menu.c:218-223 | the result is the input or the input less its last character, and shorter exactly when the input ends in a newline |
| `Menu.Prompt` | picam_menu.c:211-226 | end of input iff nothing is left to read; otherwise the string fits the buffer and input is consumed |
| `Menu.PromptOfLine` | picam_menu.c:211-226 | a typed line leaves exactly that line in the buffer |
| `Menu.GetUserInput` | picam_menu.c:211-226 | -1 at end of input with the buffer untouched; otherwise 0 and the buffer holds the line without its newline |
| `Menu.Classify` | picam_menu.c:259-304 | blank iff the input is empty; a run selects entry atoi(input) - 1 within the table |
| `Menu.QuitInAnyCase` | picam_menu.c:266-275 | Q, QUIT and Exit quit, and C asks for a custom command |
| `Menu.NumberSelectsEntry` | picam_menu.c:295-299 | a number in 1..count followed by a non-digit selects that entry |
| `Menu.TrailingTextIgnored` | picam_menu.c:295-299 | "3abc" runs entry 3 |
| `Menu.NumberOutOfRange` | picam_menu.c:300-304 | a number outside 1..count is an invalid choice |
| `Menu.ExitStatus` | picam_menu.c:193 | WEXITSTATUS lies in 0..255 |
| `Menu.ExitStatusOfExit` | picam_menu.c:193 | a child exiting with code c gives back c |
| `Menu.RunCommandExit` | picam_menu.c:173-194 | 127 when system fails or a referenced ./picam or ./picam.sh is not executable; always in 0..255 |
| `Menu.RunCommandPassesExitCode` | picam_menu.c:184-194 | with the executables present, the shell's exit code is returned |
| `Menu.Pause` | picam_menu.c:307-309 | the Enter prompt consumes input and never adds any |
| `Menu.AwaitEnter` | picam_menu.c:307-309 | the read after "Press Enter" consumes what Pause says |
| `Menu.TurnOf` | picam_menu.c:248-311 | one pass either leaves or runs at most one command and consumes input |
| `Menu.ChosenEntryRuns` | picam_menu.c:295-299 | typing an entry's number runs its command, then waits for Enter |
| `Menu.QuitEndsSession` | picam_menu.c:265-272 | a quit word ends the session and nothing after it runs |
| `Menu.EmptyLineReprompts` | picam_menu.c:259-263 | an empty line runs nothing and prompts again |
| `Menu.CustomCommandRuns` | picam_menu.c:274-291 | a custom command runs as typed; an empty one is skipped |
| `Menu.MenuTurn` | picam_menu.c:248-311 | one pass of the loop over the two buffers does what TurnOf says |
| `Menu.MenuLoop` | picam_menu.c:248-311 | the loop runs exactly the commands of Session, in order |
| `Menu.Session` | picam_menu.c:248-311 | a session runs at most as many commands as there are characters of input |
| `Menu.RunMenu` | picam_menu.c:248-311 | the loop over the table's listed entries runs the commands of Session |
| `Menu.MenuMain` | picam_menu.c:229-313 | main builds the 34-entry table, runs the commands of Session on it and returns 0 |

## Left out

- Process plumbing is not modelled:
  - `spawn_child` (`fork`, `execvp`, `dup2`, `pipe`);
  - the fork and wait of `detect_csi_available`, whose captured bytes are an input;
  - `waitpid`, `pthread_cancel` and `ensure_dir_remove` in `main`;
  - `safe_mkfifo`, the pre-created stats file and opening the FIFO for writing.

  These are OS process lifecycle. The model stops at the two command lines `main` launches.
- The signal handlers and the pthread mutex are not modelled. The log reader and the sampler are sequential code over explicit state.
- `ProcStats.Percentage`: the double division of `cpu_percent_for_pids` and `rss_mb_for_pids` is exact `real` arithmetic, without rounding.
- `LogReader.WithFps`: the `%lf` conversion of the frame rate is not modelled. The reading is the text that follows `fps=`, from which `%lf` would take its number. A failed conversion, which the code stores as 0.0, is not distinguished.
- The `%.1f` formatting and the file writes of `stats_writer` are not modelled, apart from the `"N/A"` bitrate fallback.
- The `usleep`, `nanosleep` and `sleep` calls, and the `running` flag that ends the reader and writer loops, are not modelled. `LineAccumulator.HandleRead` is one pass of the reader's loop.
- `start_preview` formats the frame rate into `fps_arg`, but that string never reaches the command line, so it is not modelled.
- Printing, `getcwd`, timestamps, `LOG_FILE` logging and `print_menu` in `picam_menu.c` are not modelled.
- `picam_menu.c` is not modelled at the level of `access`; whether `./picam` and `./picam.sh` are executable is an input to `Menu.RunCommandExit`.
- `ProcStats.CpuPercentForPids` and `ProcStats.RssMbForPids` take the parse of `read_proc_pid_stat` as a parameter. The program's own figures are the `AsWritten` instances; `Corrected` is the parse that starts after the state field (see Findings).
- `main` returns 0 whatever happens to its children. No child exit code is propagated, so none is modelled.
- `Menu.Session`: the commands `run_command` hands to `system()` share the menu's standard input, and some of them (the `./picam.sh` wizard, for one) read from it. The model's input is the text the menu's own `fgets` calls read; it assumes the commands consume none of it.
- `ProcStats.StatValues`: when the last `')'` is the last byte `fread` returned (for the corrected parse, one of the last two), `sscanf` starts past the terminating NUL, in bytes `fread` did not write; the model scans nothing there. The kernel always writes the state and the numeric fields after the `')'`, so such a file does not arise.
- `CameraList.ScanCameraList`: the captured text is whatever the single `read()` returned. Limiting it to 8191 bytes is left to the caller.

## Findings

| source | as written | input that shows it | evidently intended | confidence | as-written member | corrected member |
|---|---|---|---|---|---|---|
| picam_bench.c:199 | `read_proc_pid_stat` starts its twelve `%llu` conversions at the last `')'` + 2. That position holds the one-letter state field, so the first conversion fails and the function returns -1. | any kernel stat line, e.g. `1234 (ffmpeg) S 1 1234 1234 0 -1 4194304 10 0 0 0 35 7 ...` | start after the state field (at ppid), so the 11th and 12th values are utime and stime. As written, the stats file always shows a CPU figure of 0.0 and a memory figure of 0 (`ProcStats.AsWrittenShowsNoLoad`). | not executed; high | `ProcStats.AsWrittenRejectsEveryStatLine` | `ProcStats.ReadsUtimeAndStime` |
