/**
 * The scan debounce and capture-correlation state machine of the scanner's
 * view model. Time is an integer number of milliseconds; a detection is
 * accepted only when no detection was accepted in the last 3000 ms, and an
 * accepted code waits in `pendingCode` until the still photo taken for it
 * arrives.
 */
module Scanner {
  import opened Wrappers

  /** The debounce window: 3.0 seconds, in milliseconds. */
  const CooldownMillis: int := 3000

  /** One element of the detection callback's `metadataObjects` array. */
  datatype MetadataObject =
    | MachineReadableCode(stringValue: Option<string>)
    | OtherMetadataObject

  /** A decoded still image. */
  datatype Image = Image(data: seq<bv8>)

  /** What the photo-capture callback delivers. */
  datatype PhotoOutcome =
    | CaptureError
    | NoUsableImage   // no file data, or data that does not decode as an image
    | Photo(image: Image)

  /** The five fields the callbacks read and write. */
  datatype ScannerState = ScannerState(
    lastScanTimestamp: Option<int>,
    pendingCode: Option<string>,
    scannedCode: Option<string>,
    capturedImage: Option<Image>,
    showAlert: bool)

  const InitialState := ScannerState(None, None, None, None, false)

  datatype DetectionResult = DetectionResult(state: ScannerState, captureRequested: bool)

  datatype CompletionResult = CompletionResult(state: ScannerState, hideScheduled: bool)

  /** The string of the first metadata object, when it is a readable code. */
  function FirstStringValue(objects: seq<MetadataObject>): (r: Option<string>)
    ensures r.Some? ==> objects != [] && objects[0] == MachineReadableCode(r)
    ensures objects != [] && objects[0].MachineReadableCode? ==> r == objects[0].stringValue
  {
    if objects == [] then None
    else match objects[0]
      case MachineReadableCode(value) => value
      case OtherMetadataObject => None
  }

  /** The cooldown guard: a previous acceptance less than 3000 ms before `now`. */
  predicate InCooldown(lastScanTimestamp: Option<int>, now: int)
  {
    lastScanTimestamp.Some? && now - lastScanTimestamp.value < CooldownMillis
  }

  /** Whether a detection whose guard reads the clock at `checkedAt` is accepted. */
  predicate Accepts(s: ScannerState, checkedAt: int, objects: seq<MetadataObject>)
  {
    !InCooldown(s.lastScanTimestamp, checkedAt) && FirstStringValue(objects).Some?
  }

  /**
   * A detection. The guard reads the clock at `checkedAt`, the stored
   * timestamp reads it again at `stampedAt`; `captureAvailable` says whether
   * the session is running and the photo output exists.
   */
  function Detect(s: ScannerState, checkedAt: int, stampedAt: int,
                  objects: seq<MetadataObject>, captureAvailable: bool): (r: DetectionResult)
    // a dropped or unreadable detection changes nothing and requests nothing
    ensures !Accepts(s, checkedAt, objects) ==> r == DetectionResult(s, false)
    // (corollary of the line above: inside the cooldown no detection is accepted)
    ensures InCooldown(s.lastScanTimestamp, checkedAt) ==> r.state == s && !r.captureRequested
    // an accepted one records the code and the time
    ensures Accepts(s, checkedAt, objects) ==>
      r.state.pendingCode == FirstStringValue(objects) && r.state.lastScanTimestamp == Some(stampedAt)
    // a detection never publishes
    ensures r.state.scannedCode == s.scannedCode && r.state.capturedImage == s.capturedImage
    ensures r.state.showAlert == s.showAlert
    // a photo is requested exactly for accepted detections while capture is available
    ensures r.captureRequested <==> Accepts(s, checkedAt, objects) && captureAvailable
  {
    if InCooldown(s.lastScanTimestamp, checkedAt) then
      DetectionResult(s, false)
    else
      match FirstStringValue(objects)
      case None => DetectionResult(s, false)
      case Some(code) =>
        DetectionResult(s.(pendingCode := Some(code), lastScanTimestamp := Some(stampedAt)),
                        captureAvailable)
  }

  /** Whether a photo completion publishes a result. */
  predicate Publishes(s: ScannerState, outcome: PhotoOutcome)
  {
    outcome.Photo? && s.pendingCode.Some?
  }

  /** The photo-capture completion. */
  function CompletePhoto(s: ScannerState, outcome: PhotoOutcome): (r: CompletionResult)
    // an error, an unusable image or no pending code: nothing changes
    ensures !Publishes(s, outcome) ==> r == CompletionResult(s, false)
    ensures outcome.CaptureError? ==> r.state.pendingCode == s.pendingCode
    // a success moves the pending code to the published result
    ensures Publishes(s, outcome) ==>
      && r.state.capturedImage == Some(outcome.image)
      && r.state.scannedCode == s.pendingCode
      && r.state.showAlert
      && r.state.pendingCode.None?
      && r.hideScheduled
    // the cooldown is never touched by a completion
    ensures r.state.lastScanTimestamp == s.lastScanTimestamp
  {
    if outcome.CaptureError? then
      CompletionResult(s, false)
    else if outcome.Photo? && s.pendingCode.Some? then
      CompletionResult(
        s.(capturedImage := Some(outcome.image), scannedCode := s.pendingCode,
           showAlert := true, pendingCode := None),
        true)
    else
      CompletionResult(s, false)
  }

  /** The deferred hide scheduled by a successful completion. */
  function AlertHidden(s: ScannerState): (r: ScannerState)
    ensures !r.showAlert
    ensures r.(showAlert := s.showAlert) == s
  {
    s.(showAlert := false)
  }

  /** The view model: the five fields, updated in place by the callbacks. */
  class QRScannerViewModel {
    var lastScanTimestamp: Option<int>
    var pendingCode: Option<string>
    var scannedCode: Option<string>
    var capturedImage: Option<Image>
    var showAlert: bool

    function Snapshot(): (r: ScannerState)
      reads this
    {
      ScannerState(lastScanTimestamp, pendingCode, scannedCode, capturedImage, showAlert)
    }

    constructor ()
      ensures Snapshot() == InitialState
    {
      lastScanTimestamp, pendingCode := None, None;
      scannedCode, capturedImage, showAlert := None, None, false;
    }

    /** The detection callback; returns whether a still photo was requested. */
    method MetadataOutput(checkedAt: int, stampedAt: int,
                          objects: seq<MetadataObject>, captureAvailable: bool)
      returns (captureRequested: bool)
      modifies this`pendingCode, this`lastScanTimestamp
      ensures Snapshot() == Detect(old(Snapshot()), checkedAt, stampedAt, objects, captureAvailable).state
      ensures captureRequested ==
              Detect(old(Snapshot()), checkedAt, stampedAt, objects, captureAvailable).captureRequested
      ensures old(InCooldown(lastScanTimestamp, checkedAt)) ==>
              unchanged(this) && !captureRequested
      ensures old(!InCooldown(lastScanTimestamp, checkedAt)) && FirstStringValue(objects).Some? ==>
              pendingCode == FirstStringValue(objects) && lastScanTimestamp == Some(stampedAt)
    {
      captureRequested := false;
      if lastScanTimestamp.Some? && checkedAt - lastScanTimestamp.value < CooldownMillis {
        return;
      }
      if objects != [] && objects[0].MachineReadableCode? && objects[0].stringValue.Some? {
        pendingCode := objects[0].stringValue;
        lastScanTimestamp := Some(stampedAt);
        captureRequested := CaptureCurrentFrame(captureAvailable);
      }
    }

    /** Asks the photo output for a still photo when the session can take one. */
    method CaptureCurrentFrame(captureAvailable: bool) returns (requested: bool)
      ensures requested <==> captureAvailable
    {
      if !captureAvailable {
        return false;
      }
      requested := true;
    }

    /** The photo-capture callback; returns whether the alert hide was scheduled. */
    method PhotoOutput(outcome: PhotoOutcome) returns (hideScheduled: bool)
      modifies this`capturedImage, this`scannedCode, this`showAlert, this`pendingCode
      ensures Snapshot() == CompletePhoto(old(Snapshot()), outcome).state
      ensures hideScheduled == CompletePhoto(old(Snapshot()), outcome).hideScheduled
      ensures outcome.CaptureError? ==> unchanged(this)
    {
      hideScheduled := false;
      if outcome.CaptureError? {
        return;
      }
      if outcome.Photo? && pendingCode.Some? {
        capturedImage := Some(outcome.image);
        scannedCode := pendingCode;
        showAlert := true;
        hideScheduled := true;
        pendingCode := None;
      }
    }

    /** The closure that fires two seconds after a successful completion. */
    method HideAlert()
      modifies this`showAlert
      ensures !showAlert
      ensures Snapshot() == AlertHidden(old(Snapshot()))
    {
      showAlert := false;
    }
  }
}
