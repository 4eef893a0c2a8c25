/** The camera controls that take a mode of the app: the flash mode as the
    controller's torch and capture-flash settings, and the frame-rate and
    stabilization options of a capture request. */
module Controls {
  import opened Wrappers
  import opened Modes
  import Prefs

  // ---------------------------------------------------------------------
  // Flash mode on the camera controller

  /** The controller's flash modes: the four of the app plus the screen
      flash. */
  datatype ControllerFlash = ControllerOff | ControllerAuto | ControllerOn | ControllerTorch | ControllerScreen

  /** `ImageCapture.FLASH_MODE_SCREEN`. */
  const FlashModeScreen := 3

  /** `TorchState.ON` and `TorchState.OFF`. */
  const TorchOn := 1
  const TorchOff := 0

  /** What the controller reports: the torch state, which may not be known
      yet, and the image-capture flash mode. */
  datatype Controller = Controller(torchState: Option<int>, captureFlash: int)

  /** The getter: torch whenever the torch is on, else the capture flash
      mode; an unknown capture flash mode throws. */
  function GetFlashMode(c: Controller): (r: Result<ControllerFlash>)
    ensures c.torchState == Some(TorchOn) ==> r == Ok(ControllerTorch)
    ensures c.torchState != Some(TorchOn) ==>
      (r.Err? <==> c.captureFlash !in {Prefs.FlashModeAuto, Prefs.FlashModeOn, Prefs.FlashModeOff, FlashModeScreen})
    ensures c.torchState != Some(TorchOn) && r.Ok? ==> r.value != ControllerTorch
  {
    if c.torchState == Some(TorchOn) then Ok(ControllerTorch)
    else if c.captureFlash == Prefs.FlashModeAuto then Ok(ControllerAuto)
    else if c.captureFlash == Prefs.FlashModeOn then Ok(ControllerOn)
    else if c.captureFlash == Prefs.FlashModeOff then Ok(ControllerOff)
    else if c.captureFlash == FlashModeScreen then Ok(ControllerScreen)
    else Err("Invalid flash mode")
  }

  /** The setter: the torch is enabled exactly for torch, and torch writes
      the capture flash as off. The torch state is taken to follow the last
      `enableTorch` call. */
  function SetFlashMode(c: Controller, m: ControllerFlash): (r: Controller)
    ensures r.torchState == Some(TorchOn) <==> m == ControllerTorch
    ensures m == ControllerTorch ==> r.captureFlash == Prefs.FlashModeOff
  {
    Controller(
      Some(if m == ControllerTorch then TorchOn else TorchOff),
      match m
      case ControllerOff => Prefs.FlashModeOff
      case ControllerAuto => Prefs.FlashModeAuto
      case ControllerOn => Prefs.FlashModeOn
      case ControllerTorch => Prefs.FlashModeOff
      case ControllerScreen => FlashModeScreen)
  }

  /** Reading the flash mode after setting it gives the mode that was set,
      whatever the controller held before. */
  lemma {:induction false} FlashModeGetAfterSet(c: Controller, m: ControllerFlash)
    ensures GetFlashMode(SetFlashMode(c, m)) == Ok(m)
  {
  }

  /** Every capture flash mode the getter accepts is one the setter writes
      for the same mode, so set-after-get changes nothing but the torch
      state. */
  lemma {:induction false} FlashModeSetAfterGet(c: Controller)
    requires GetFlashMode(c).Ok? && c.torchState != Some(TorchOn)
    ensures SetFlashMode(c, GetFlashMode(c).value).captureFlash == c.captureFlash
  {
  }

  // ---------------------------------------------------------------------
  // Capture request options

  /** The auto-exposure target frame-rate range of a request. */
  datatype AeTarget = Cleared | FpsRange(lower: int, upper: int)

  /** `setFramerate`: a frame rate's range is the single value; no frame
      rate clears the option. */
  function SetFramerate(f: Option<FrameRate>): (r: AeTarget)
    ensures r.Cleared? <==> f.None?
    ensures r.FpsRange? ==> r.lower == r.upper
  {
    if f.Some? then FpsRange(Value(f.value), Value(f.value)) else Cleared
  }

  /** The range set reads back, through `fromRange`, as the frame rate. */
  lemma {:induction false} SetFramerateReadsBack(f: FrameRate)
    ensures var r := SetFramerate(Some(f)); FromRange(r.lower, r.upper) == Some(f)
  {
    FromValueRoundTrip(f);
  }

  /** `CONTROL_VIDEO_STABILIZATION_MODE_*`. */
  const VideoStabilizationOff := 0
  const VideoStabilizationOn := 1
  const PreviewStabilization := 2

  /** `LENS_OPTICAL_STABILIZATION_MODE_*`. */
  const OisOff := 0
  const OisOn := 1

  /** `Build.VERSION_CODES.TIRAMISU`. */
  const Tiramisu := 33

  /** The video stabilization a mode asks for: digital is on, hybrid is
      preview stabilization from Android 13 on and plain on before it, and
      the rest are off. */
  function VideoStabilizationFor(m: StabilizationMode, sdk: int): (r: int)
    ensures r != VideoStabilizationOff <==> m == Digital || m == Hybrid
    ensures r == PreviewStabilization <==> m == Hybrid && sdk >= Tiramisu
  {
    match m
    case Digital => VideoStabilizationOn
    case Hybrid => if sdk >= Tiramisu then PreviewStabilization else VideoStabilizationOn
    case _ => VideoStabilizationOff
  }

  /** Optical image stabilization is on exactly for the optical mode. */
  function OisFor(m: StabilizationMode): (r: int)
    ensures r == OisOn <==> m == Optical
    ensures r == OisOn || r == OisOff
  {
    if m == Optical then OisOn else OisOff
  }

  /** A request never turns on both optical and video stabilization, and
      turns on one of them exactly when the mode is not off. */
  lemma {:induction false} StabilizationExclusive(m: StabilizationMode, sdk: int)
    ensures !(OisFor(m) == OisOn && VideoStabilizationFor(m, sdk) != VideoStabilizationOff)
    ensures OisFor(m) == OisOn || VideoStabilizationFor(m, sdk) != VideoStabilizationOff <==> m != StabilizationOff
  {
  }

  /** After the fallback to a supported mode, a request switches on only a
      stabilization the camera supports. */
  lemma {:induction false} ClosestModeRequest(cur: StabilizationMode, supported: set<StabilizationMode>, mode: CameraMode, sdk: int)
    ensures var m := ClosestMode(cur, supported, mode);
      (OisFor(m) == OisOn ==> Optical in supported) &&
      (VideoStabilizationFor(m, sdk) != VideoStabilizationOff ==> Digital in supported || Hybrid in supported)
  {
  }
}
