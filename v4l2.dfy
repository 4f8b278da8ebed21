/** Capture-node probing over the Linux V4L2 interface: the VIDIOC_QUERYCAP
    classification, the VIDIOC_ENUM_FMT format scan and the first-match choice
    among the globbed /dev/video* nodes. The kernel's answers are inputs: a
    device table gives, for each node that opens, its QUERYCAP answer (or
    failure) and the FourCCs its two format enumerations report before the
    first failing ioctl. */
module V4l2 {
  import opened CLib

  // Capability bits (linux/videodev2.h).
  const CapVideoCapture: bv32 := 0x0000_0001
  const CapVideoCaptureMplane: bv32 := 0x0000_1000
  const CapDeviceCaps: bv32 := 0x8000_0000
  const CaptureBits: bv32 := CapVideoCapture | CapVideoCaptureMplane

  /** v4l2_fourcc(a, b, c, d): a in the low byte, d in the high byte. */
  function FourCC(a: char, b: char, c: char, d: char): bv32
    requires a < 256 as char && b < 256 as char && c < 256 as char && d < 256 as char
  {
    (a as bv32) | ((b as bv32) << 8) | ((c as bv32) << 16) | ((d as bv32) << 24)
  }

  const PixFmtH264: bv32 := 0x3436_3248
  const PixFmtMjpeg: bv32 := 0x4750_4A4D
  const PixFmtYuyv: bv32 := 0x5659_5559

  /** V4L2_PIX_FMT_H264 is v4l2_fourcc('H', '2', '6', '4'). */
  lemma H264Code()
    ensures PixFmtH264 == FourCC('H', '2', '6', '4')
  {
    assert 'H' as bv32 == 0x48 && '2' as bv32 == 0x32 && '6' as bv32 == 0x36 && '4' as bv32 == 0x34;
  }

  /** V4L2_PIX_FMT_MJPEG is v4l2_fourcc('M', 'J', 'P', 'G'). */
  lemma MjpegCode()
    ensures PixFmtMjpeg == FourCC('M', 'J', 'P', 'G')
  {
    assert 'M' as bv32 == 0x4D && 'J' as bv32 == 0x4A && 'P' as bv32 == 0x50 && 'G' as bv32 == 0x47;
  }

  /** V4L2_PIX_FMT_YUYV is v4l2_fourcc('Y', 'U', 'Y', 'V'). */
  lemma YuyvCode()
    ensures PixFmtYuyv == FourCC('Y', 'U', 'Y', 'V')
  {
    assert 'Y' as bv32 == 0x59 && 'U' as bv32 == 0x55 && 'V' as bv32 == 0x56;
  }

  /** struct v4l2_capability, reduced to the fields the classification reads.
      driver and card are the raw NUL-terminated byte arrays. */
  datatype Capability = Capability(driver: seq<char>, card: seq<char>, capabilities: bv32, deviceCaps: bv32)

  /** A node that opens: its VIDIOC_QUERYCAP answer (None when the ioctl fails)
      and the pixel formats VIDIOC_ENUM_FMT reports for the single-plane and the
      multi-plane capture types, index 0 upwards, before the first failing call. */
  datatype Device = Device(query: Option<Capability>, singlePlane: seq<bv32>, multiPlane: seq<bv32>)

  /** The nodes that open; a path missing from the table fails open(). */
  type DeviceTable = map<seq<char>, Device>

  /** v4l2_querycap: failure when open or the ioctl fails. */
  function QueryCap(devs: DeviceTable, node: seq<char>): Option<Capability>
  {
    if node in devs then devs[node].query else None
  }

  /** The decision v4l2_supports_capture makes, stated as one predicate: a
      uvcvideo node that is not one of the SoC's bcm2835 codec/ISP nodes and
      that reports a capture capability in the top-level capabilities, or in
      device_caps when DEVICE_CAPS says that field is valid. A missing bit in
      device_caps falls through to the top-level capabilities. */
  predicate CaptureLike(c: Capability)
  {
    var driver, card := Terminated(c.driver), Terminated(c.card);
    && !Contains(driver, "bcm2835")
    && !Contains(card, "bcm2835")
    && Contains(driver, "uvcvideo")
    && (c.capabilities & CaptureBits != 0
        || (c.capabilities & CapDeviceCaps != 0 && c.deviceCaps & CaptureBits != 0))
  }

  /** v4l2_supports_capture: the node-level decision, in the order the checks are made. */
  function SupportsCapture(devs: DeviceTable, node: seq<char>): (ok: bool)
    ensures ok <==> QueryCap(devs, node).Some? && CaptureLike(QueryCap(devs, node).value)
  {
    match QueryCap(devs, node)
    case None => false
    case Some(c) =>
      var driver, card := Terminated(c.driver), Terminated(c.card);
      if Contains(driver, "bcm2835") || Contains(card, "bcm2835")
         || Contains(driver, "bcm2835-codec") || Contains(card, "bcm2835-codec") then
        assert Contains(driver, "bcm2835-codec") ==> Contains(driver, "bcm2835") by {
          if Contains(driver, "bcm2835-codec") { ContainsPrefixOfPattern(driver, "bcm2835-codec", "bcm2835"); }
        }
        assert Contains(card, "bcm2835-codec") ==> Contains(card, "bcm2835") by {
          if Contains(card, "bcm2835-codec") { ContainsPrefixOfPattern(card, "bcm2835-codec", "bcm2835"); }
        }
        false
      else if !Contains(driver, "uvcvideo") then false
      else if c.capabilities & CapDeviceCaps != 0 && c.deviceCaps & CaptureBits != 0 then true
      else c.capabilities & CaptureBits != 0
  }

  /** A uvcvideo node outside the bcm2835 family with VIDEO_CAPTURE (bit 0) in its
      top-level capabilities is accepted whatever its device_caps say. */
  lemma CaptureBitAccepted(devs: DeviceTable, node: seq<char>)
    requires node in devs && devs[node].query.Some?
    requires var c := devs[node].query.value;
      !Contains(Terminated(c.driver), "bcm2835") && !Contains(Terminated(c.card), "bcm2835")
      && Contains(Terminated(c.driver), "uvcvideo") && c.capabilities & CapVideoCapture != 0
    ensures SupportsCapture(devs, node)
  {
    var c := devs[node].query.value;
    assert c.capabilities & CaptureBits & CapVideoCapture == c.capabilities & CapVideoCapture;
  }

  /** A node whose driver or card names a bcm2835 block (for instance
      "bcm2835-codec") is refused whatever capability bits it reports. */
  lemma {:induction false} Bcm2835Refused(devs: DeviceTable, node: seq<char>)
    requires node in devs && devs[node].query.Some?
    requires var c := devs[node].query.value;
      Contains(Terminated(c.driver), "bcm2835-codec") || Contains(Terminated(c.card), "bcm2835")
    ensures !SupportsCapture(devs, node)
  {
    var c := devs[node].query.value;
    if Contains(Terminated(c.driver), "bcm2835-codec") {
      ContainsPrefixOfPattern(Terminated(c.driver), "bcm2835-codec", "bcm2835");
    }
  }

  /** fmt_support_t: which of the three formats the node offers. */
  datatype FormatSupport = FormatSupport(h264: bool, mjpg: bool, yuyv: bool)

  const NoFormats := FormatSupport(false, false, false)

  /** The formats a node offers, in either enumeration; nothing when open fails. */
  function Formats(devs: DeviceTable, node: seq<char>): (fs: FormatSupport)
    ensures fs.h264 || fs.mjpg || fs.yuyv ==> node in devs
    ensures node in devs && devs[node].singlePlane == [] && devs[node].multiPlane == [] ==> fs == NoFormats
  {
    if node !in devs then NoFormats
    else
      var d := devs[node];
      FormatSupport(PixFmtH264 in d.singlePlane || PixFmtH264 in d.multiPlane,
                    PixFmtMjpeg in d.singlePlane || PixFmtMjpeg in d.multiPlane,
                    PixFmtYuyv in d.singlePlane || PixFmtYuyv in d.multiPlane)
  }

  /** v4l2_enum_formats: clears all three flags, then walks the single-plane and
      the multi-plane enumerations until the ioctl fails, setting a flag for each
      FourCC it meets. Returns -1 (flags cleared) when the node does not open. */
  method EnumFormats(devs: DeviceTable, node: seq<char>) returns (rc: int, fs: FormatSupport)
    ensures rc == (if node in devs then 0 else -1)
    ensures fs.h264 <==> node in devs && (PixFmtH264 in devs[node].singlePlane || PixFmtH264 in devs[node].multiPlane)
    ensures fs.mjpg <==> node in devs && (PixFmtMjpeg in devs[node].singlePlane || PixFmtMjpeg in devs[node].multiPlane)
    ensures fs.yuyv <==> node in devs && (PixFmtYuyv in devs[node].singlePlane || PixFmtYuyv in devs[node].multiPlane)
    ensures fs == Formats(devs, node)
  {
    fs := NoFormats;
    if node !in devs {
      return -1, fs;
    }
    var single := devs[node].singlePlane;
    var index := 0;
    while index < |single|
      invariant 0 <= index <= |single|
      invariant fs.h264 <==> PixFmtH264 in single[..index]
      invariant fs.mjpg <==> PixFmtMjpeg in single[..index]
      invariant fs.yuyv <==> PixFmtYuyv in single[..index]
    {
      var pix := single[index];
      if pix == PixFmtH264 { fs := fs.(h264 := true); }
      if pix == PixFmtMjpeg { fs := fs.(mjpg := true); }
      if pix == PixFmtYuyv { fs := fs.(yuyv := true); }
      assert single[..index + 1] == single[..index] + [pix];
      index := index + 1;
    }
    assert single[..index] == single;
    var multi := devs[node].multiPlane;
    index := 0;
    while index < |multi|
      invariant 0 <= index <= |multi|
      invariant fs.h264 <==> PixFmtH264 in single || PixFmtH264 in multi[..index]
      invariant fs.mjpg <==> PixFmtMjpeg in single || PixFmtMjpeg in multi[..index]
      invariant fs.yuyv <==> PixFmtYuyv in single || PixFmtYuyv in multi[..index]
    {
      var pix := multi[index];
      if pix == PixFmtH264 { fs := fs.(h264 := true); }
      if pix == PixFmtMjpeg { fs := fs.(mjpg := true); }
      if pix == PixFmtYuyv { fs := fs.(yuyv := true); }
      assert multi[..index + 1] == multi[..index] + [pix];
      index := index + 1;
    }
    assert multi[..index] == multi;
    rc := 0;
  }

  /** k is the first path in the list that passes the classification. */
  predicate IsFirstCapture(devs: DeviceTable, paths: seq<seq<char>>, k: nat)
  {
    k < |paths| && SupportsCapture(devs, paths[k]) && forall j :: 0 <= j < k ==> !SupportsCapture(devs, paths[j])
  }

  /** The index of the first globbed path that passes the classification. */
  function FirstCapture(devs: DeviceTable, paths: seq<seq<char>>): (k: Option<nat>)
    ensures k.Some? ==> k.value < |paths| && SupportsCapture(devs, paths[k.value])
    ensures k.Some? ==> forall j :: 0 <= j < k.value ==> !SupportsCapture(devs, paths[j])
    ensures k.None? ==> forall j :: 0 <= j < |paths| ==> !SupportsCapture(devs, paths[j])
  {
    if paths == [] then None
    else if SupportsCapture(devs, paths[0]) then Some(0)
    else
      match FirstCapture(devs, paths[1..])
      case None => None
      case Some(k) => Some(k + 1)
  }

  /** pick_usb_node: glob("/dev/video*") (None when glob fails or matches
      nothing), then the first path in glob order that passes, copied into a
      128-byte buffer. */
  function PickUsbNode(devs: DeviceTable, globbed: Option<seq<seq<char>>>): (node: Option<seq<char>>)
    ensures node.Some? <==> globbed.Some? && exists j :: 0 <= j < |globbed.value| && SupportsCapture(devs, globbed.value[j])
    ensures node.Some? ==> |node.value| <= 127
    ensures node.Some? ==> exists j :: 0 <= j < |globbed.value| && SupportsCapture(devs, globbed.value[j]) && node.value <= globbed.value[j]
  {
    if globbed.None? then None
    else
      match FirstCapture(devs, globbed.value)
      case None => None
      case Some(k) => Some(Truncate(globbed.value[k], 127))
  }

  /** The search loop of pick_usb_node, proved to find the first passing path. */
  method PickUsbNodeScan(devs: DeviceTable, globbed: Option<seq<seq<char>>>) returns (rc: int, node: seq<char>)
    ensures rc == 0 || rc == -1
    ensures rc == 0 <==> globbed.Some? && exists j :: 0 <= j < |globbed.value| && SupportsCapture(devs, globbed.value[j])
    ensures rc == 0 ==> exists k: nat :: IsFirstCapture(devs, globbed.value, k) && node == Truncate(globbed.value[k], 127)
    ensures rc == 0 ==> PickUsbNode(devs, globbed) == Some(node)
    ensures rc == -1 ==> PickUsbNode(devs, globbed).None?
  {
    node := [];
    if globbed.None? {
      return -1, node;
    }
    var paths := globbed.value;
    var i := 0;
    while i < |paths|
      invariant 0 <= i <= |paths|
      invariant forall j :: 0 <= j < i ==> !SupportsCapture(devs, paths[j])
    {
      if SupportsCapture(devs, paths[i]) {
        node := Truncate(paths[i], 127);
        assert FirstCapture(devs, paths) == Some(i) by {
          var f := FirstCapture(devs, paths);
          if f.None? || f.value != i {
            assert false;
          }
        }
        return 0, node;
      }
      i := i + 1;
    }
    return -1, node;
  }

  /** detect_usb: a node from pick_usb_node and the formats it offers. */
  datatype UsbCamera = UsbCamera(node: seq<char>, formats: FormatSupport)

  function DetectUsb(devs: DeviceTable, globbed: Option<seq<seq<char>>>): (r: Option<UsbCamera>)
    ensures r.Some? ==> globbed.Some?
    ensures r.Some? ==> exists k: nat :: IsFirstCapture(devs, globbed.value, k) && r.value.node == Truncate(globbed.value[k], 127)
    ensures r.None? <==> globbed.None? || forall j :: 0 <= j < |globbed.value| ==> !SupportsCapture(devs, globbed.value[j])
    ensures r.Some? ==> r.value.formats == Formats(devs, r.value.node)
  {
    match PickUsbNode(devs, globbed)
    case None => None
    case Some(node) => Some(UsbCamera(node, Formats(devs, node)))
  }
}
