/** CSI camera detection from the text the camera tool prints for
    "--list-cameras". Running the tool is left to the caller: the captured
    bytes (what one read of at most 8191 bytes returned) are the input. */
module CameraList {
  import opened CLib

  const Marker: seq<char> := "Available cameras"
  const UsbTag: seq<char> := "usb@"
  const IndexTag: seq<char> := "Index"

  /** camera_cmd: rpicam-vid when it is installed, else libcamera-vid, else none. */
  function CameraCmd(hasRpicam: bool, hasLibcamera: bool): (cmd: Option<seq<char>>)
    ensures cmd.Some? <==> hasRpicam || hasLibcamera
    ensures cmd == Some("rpicam-vid") <==> hasRpicam
    ensures cmd == Some("libcamera-vid") <==> !hasRpicam && hasLibcamera
  {
    if hasRpicam then Some("rpicam-vid")
    else if hasLibcamera then Some("libcamera-vid")
    else None
  }

  /** strchr sees no '\n' where strstr found no "\n". */
  lemma NoNewlineBefore(text: seq<char>, k: nat, e: nat)
    requires e <= |text| && forall j :: k <= j < e ==> !OccursAt(text, "\n", j)
    ensures forall j :: k <= j < e ==> text[j] != '\n'
  {
    forall j | k <= j < e ensures text[j] != '\n' {
      assert !OccursAt(text, "\n", j);
      assert text[j..j + 1] == [text[j]];
    }
  }

  /** Where the scan resumes after the "Index" found at k: the '\n' ending that
      line, or the end of the text when the line is the last one. */
  function LineEnd(text: seq<char>, k: nat): (le: nat)
    requires OccursAt(text, IndexTag, k)
    ensures k < le <= |text|
    ensures le < |text| ==> text[le] == '\n'
    ensures forall j :: k <= j < le ==> text[j] != '\n'
  {
    assert text[k] == text[k..k + 5][0] == 'I';
    match FindFrom(text, "\n", k)
    case Some(e) =>
      assert text[e] == text[e..e + 1][0];
      NoNewlineBefore(text, k, e);
      e
    case None =>
      NoNewlineBefore(text, k, |text|);
      |text|
  }

  /** The visiting loop of detect_csi_available from position pn: find the next
      "Index"; answer yes when no "usb@" occurs anywhere from there to the end of
      the text; otherwise resume at the end of that line. */
  function VisitFrom(text: seq<char>, pn: nat): (found: bool)
    requires pn <= |text|
    ensures found ==> exists k: nat :: pn <= k && OccursAt(text, IndexTag, k)
    decreases |text| - pn
  {
    match FindFrom(text, IndexTag, pn)
    case None => false
    case Some(k) =>
      if !ContainsFrom(text, UsbTag, k) then true
      else VisitFrom(text, LineEnd(text, k))
  }

  /** The text rule of detect_csi_available over the captured bytes. */
  function CsiListed(captured: seq<char>): (listed: bool)
    ensures listed ==> Contains(Terminated(captured), Marker)
    ensures Contains(Terminated(captured), Marker) && !Contains(Terminated(captured), UsbTag) ==> listed
  {
    var text := Terminated(captured);
    if !Contains(text, Marker) then false
    else if !Contains(text, UsbTag) then true
    else VisitFrom(text, 0)
  }

  /** detect_csi_available: a CSI camera is reported only with a camera
      tool, a pipe, and the marker in what the tool printed; when a USB
      camera is listed, only if some "Index" follows every "usb@". Without
      a USB camera listed, the marker alone is enough. */
  function DetectCsiAvailable(hasRpicam: bool, hasLibcamera: bool, pipeOk: bool, captured: seq<char>): (ok: bool)
    ensures ok ==> (hasRpicam || hasLibcamera) && pipeOk
    ensures ok ==> Contains(Terminated(captured), Marker)
    ensures ok && Contains(Terminated(captured), UsbTag) ==> exists v: nat :: IndexAfterEveryUsb(Terminated(captured), v)
    ensures var text := Terminated(captured);
      (hasRpicam || hasLibcamera) && pipeOk && Contains(text, Marker) && !Contains(text, UsbTag) ==> ok
  {
    var listed := CameraCmd(hasRpicam, hasLibcamera).Some? && pipeOk && CsiListed(captured);
    if listed && Contains(Terminated(captured), UsbTag) then
      ListedImpliesIndexAfterAllUsb(captured);
      true
    else listed
  }

  /** The pointer loop of detect_csi_available (lines after the read), with the
      result it returns. */
  method ScanCameraList(captured: seq<char>) returns (available: int)
    ensures available == (if CsiListed(captured) then 1 else 0)
    ensures !Contains(Terminated(captured), Marker) ==> available == 0
    ensures Contains(Terminated(captured), Marker) && !Contains(Terminated(captured), UsbTag) ==> available == 1
  {
    var text := Terminated(captured);
    if !Contains(text, Marker) {
      return 0;
    }
    if Contains(text, UsbTag) {
      var pn := 0;
      var hasNonUsb := false;
      var found := FindFrom(text, IndexTag, pn);
      while found.Some?
        invariant pn <= |text| && !hasNonUsb
        invariant found == FindFrom(text, IndexTag, pn)
        invariant VisitFrom(text, pn) == VisitFrom(text, 0)
        decreases |text| - pn
      {
        var k := found.value;
        var lineEnd := LineEnd(text, k);
        if !ContainsFrom(text, UsbTag, k) {
          hasNonUsb := true;
          break;
        }
        pn := lineEnd;
        found := FindFrom(text, IndexTag, pn);
      }
      return if hasNonUsb then 1 else 0;
    }
    return 1;
  }

  /** Once "usb@" no longer occurs from some position on, it does not occur from
      any later position either. */
  lemma NoUsbAfter(text: seq<char>, v: nat, w: nat)
    requires v <= w && !ContainsFrom(text, UsbTag, v)
    ensures !ContainsFrom(text, UsbTag, w)
  {
    if ContainsFrom(text, UsbTag, w) {
      OccurrenceFound(text, UsbTag, v, FindFrom(text, UsbTag, w).value);
    }
  }

  /** A yes from the visiting loop is witnessed by an "Index" after which no
      "usb@" occurs anywhere in the rest of the text. */
  lemma {:induction false} VisitWitness(text: seq<char>, pn: nat)
    requires pn <= |text| && VisitFrom(text, pn)
    ensures exists v: nat :: pn <= v && OccursAt(text, IndexTag, v) && !ContainsFrom(text, UsbTag, v)
    decreases |text| - pn
  {
    var k := FindFrom(text, IndexTag, pn).value;
    if ContainsFrom(text, UsbTag, k) {
      VisitWitness(text, LineEnd(text, k));
    }
  }

  /** As written, the rule reads the whole remainder of the text, not the line
      of the camera: when every "Index" line comes before some "usb@" (for
      instance a sensor listed first and a USB camera listed last), the answer
      is no, whatever the earlier lines say. */
  lemma UsbListedLastHidesEarlierCameras(captured: seq<char>, u: nat)
    requires OccursAt(Terminated(captured), UsbTag, u)
    requires forall v: nat :: OccursAt(Terminated(captured), IndexTag, v) ==> v <= u
    ensures !CsiListed(captured)
  {
    var text := Terminated(captured);
    OccurrenceFound(text, UsbTag, 0, u);
    if CsiListed(captured) {
      ListedImpliesIndexAfterAllUsb(captured);
    }
  }

  /** An "Index" at v with every "usb@" of the text starting before it. */
  ghost predicate IndexAfterEveryUsb(text: seq<char>, v: nat)
  {
    OccursAt(text, IndexTag, v) && forall u: nat :: OccursAt(text, UsbTag, u) ==> u < v
  }

  /** With a USB camera listed, the answer is yes only if some "Index" comes after
      every "usb@" in the text. */
  lemma {:induction false} ListedImpliesIndexAfterAllUsb(captured: seq<char>)
    requires CsiListed(captured) && Contains(Terminated(captured), UsbTag)
    ensures exists v: nat :: IndexAfterEveryUsb(Terminated(captured), v)
  {
    var text := Terminated(captured);
    VisitWitness(text, 0);
    var v: nat :| OccursAt(text, IndexTag, v) && !ContainsFrom(text, UsbTag, v);
    forall u: nat | OccursAt(text, UsbTag, u) ensures u < v {
      if u >= v { OccurrenceFound(text, UsbTag, v, u); }
    }
    assert IndexAfterEveryUsb(text, v);
  }
}
