/** The camera lists of a session: the device's cameras sorted by id, the
    per-facing lists with their main camera first, the cameras the flip
    button cycles through, and the camera chosen for a facing and mode. */
module Cameras {
  import opened Wrappers
  import opened Seqs
  import opened Modes
  import opened Sorting
  import Cycle

  /** Whether a camera is bundled with the device or hot-plugged
      (`CameraType.EXTERNAL`). */
  datatype CameraType = Internal | Hotplug

  /** The type each facing carries: only the external facing is
      hot-plugged; the unknown facing counts as bundled. */
  function FacingType(f: CameraFacing): (r: CameraType)
    ensures r == Hotplug <==> f == External
  {
    match f
    case External => Hotplug
    case _ => Internal
  }

  /** What the manager reads of a camera. Two cameras are the same camera
      exactly when their ids are equal. */
  datatype Camera = Camera(id: string, facing: CameraFacing, isLogical: bool, supportsVideoRecording: bool) {
    /** A camera's type is the one its facing carries. */
    function cameraType(): CameraType {
      FacingType(facing)
    }
  }

  /** The overlay settings that shape the lists. */
  datatype Config = Config(enableAuxCameras: bool, ignoredAuxCameraIds: seq<string>, ignoreLogicalAuxCameras: bool)

  /** A session: the cameras the provider reports, in its order, and the
      overlay settings. */
  datatype Manager = Manager(provided: seq<Camera>, config: Config)

  function Id(c: Camera): string {
    c.id
  }

  /** `cameras`: sorted by id. */
  function AllCameras(m: Manager): (r: seq<Camera>)
    ensures SortedBy(r, Id) && multiset(r) == multiset(m.provided)
  {
    SortBy(m.provided, Id)
  }

  /** `internalCameras`: the bundled cameras whose ids are not ignored. */
  function InternalCameras(m: Manager): (r: seq<Camera>)
    ensures forall c :: c in r <==> c in m.provided && c.cameraType() == Internal && c.id !in m.config.ignoredAuxCameraIds
    ensures SortedBy(r, Id)
  {
    var all := AllCameras(m);
    assert forall c :: c in all <==> c in multiset(m.provided);
    var r := Filter(all, (c: Camera) => c.cameraType() == Internal && c.id !in m.config.ignoredAuxCameraIds);
    FilterSorted(all, (c: Camera) => c.cameraType() == Internal && c.id !in m.config.ignoredAuxCameraIds, Id);
    r
  }

  /** The kept bundled cameras of a facing, in id order. */
  function FacingCameras(m: Manager, facing: CameraFacing): (r: seq<Camera>)
    ensures forall c :: c in r <==> c in InternalCameras(m) && c.facing == facing
    ensures SortedBy(r, Id)
  {
    FilterSorted(InternalCameras(m), (c: Camera) => c.facing == facing, Id);
    Filter(InternalCameras(m), (c: Camera) => c.facing == facing)
  }

  /** `prepareDeviceCamerasList`: none without a camera of the facing; the
      first one alone without aux cameras; otherwise the first followed by
      the others, less the logical ones when those are ignored. */
  function DeviceCameras(m: Manager, facing: CameraFacing): (r: seq<Camera>)
    ensures forall i :: 0 <= i < |r| ==> r[i].facing == facing && r[i] in InternalCameras(m)
    ensures |FacingCameras(m, facing)| > 0 ==> |r| > 0 && r[0] == FacingCameras(m, facing)[0]
    ensures !m.config.enableAuxCameras ==> |r| <= 1
    ensures m.config.enableAuxCameras && |FacingCameras(m, facing)| > 0 ==> forall c :: c in r <==>
      c == FacingCameras(m, facing)[0] || (c in FacingCameras(m, facing)[1..] && KeptAux(m.config, c))
  {
    var facingCameras := FacingCameras(m, facing);
    if |facingCameras| == 0 then []
    else if !m.config.enableAuxCameras then [facingCameras[0]]
    else
      var aux := KeptAuxCameras(m.config, facingCameras[1..]);
      assert forall c :: c in facingCameras[1..] ==> c in facingCameras;
      var r := [facingCameras[0]] + aux;
      assert forall c :: c in r <==> c == facingCameras[0] || c in aux;
      r
  }

  /** The auxiliary cameras kept behind a facing's first camera, in order. */
  function KeptAuxCameras(config: Config, others: seq<Camera>): (r: seq<Camera>)
    ensures forall c :: c in r <==> c in others && KeptAux(config, c)
  {
    Filter(others, (c: Camera) => KeptAux(config, c))
  }

  /** An auxiliary camera stays unless it is logical and logical ones are
      ignored. */
  predicate KeptAux(config: Config, c: Camera) {
    !config.ignoreLogicalAuxCameras || !c.isLogical
  }

  /** The shape of a facing's list, against its description. */
  lemma {:induction false} DeviceCamerasShape(m: Manager, facing: CameraFacing)
    ensures var facingCameras := FacingCameras(m, facing);
      var r := DeviceCameras(m, facing);
      (|r| == 0 <==> forall i :: 0 <= i < |InternalCameras(m)| ==> InternalCameras(m)[i].facing != facing) &&
      (|r| > 0 ==> r[0] == facingCameras[0]) &&
      (|r| > 0 && !m.config.enableAuxCameras ==> |r| == 1) &&
      (m.config.ignoreLogicalAuxCameras ==> forall i :: 1 <= i < |r| ==> !r[i].isLogical)
  {
    var internal := InternalCameras(m);
    var facingCameras := FacingCameras(m, facing);
    if |facingCameras| == 0 {
      assert forall i :: 0 <= i < |internal| ==> internal[i].facing != facing;
    } else {
      assert facingCameras[0] in internal;
    }
  }

  /** `mainBackCamera` and `mainFrontCamera`: the head of the facing's
      list. */
  function MainCamera(m: Manager, facing: CameraFacing): (r: Option<Camera>)
    ensures r.None? <==> |DeviceCameras(m, facing)| == 0
    ensures r.Some? ==> r.value.facing == facing && r.value.cameraType() == Internal
  {
    FirstOrNull(DeviceCameras(m, facing))
  }

  /** `externalCameras`: every hot-plugged camera. */
  function ExternalCameras(m: Manager): (r: seq<Camera>)
    ensures forall c :: c in r <==> c in m.provided && c.facing == External
    ensures forall i :: 0 <= i < |r| ==> r[i].cameraType() == Hotplug
    ensures SortedBy(r, Id)
  {
    var all := AllCameras(m);
    assert forall c :: c in all <==> c in multiset(m.provided);
    FilterSorted(all, (c: Camera) => c.cameraType() == Hotplug, Id);
    Filter(all, (c: Camera) => c.cameraType() == Hotplug)
  }

  function OptionList(o: Option<Camera>): (r: seq<Camera>)
    ensures |r| <= 1 && (o.Some? <==> |r| == 1) && (o.Some? ==> r[0] == o.value)
  {
    if o.Some? then [o.value] else []
  }

  /** `availableCameras`: the main back camera, then the main front one,
      then all hot-plugged cameras. */
  function AvailableCameras(m: Manager): (r: seq<Camera>)
    ensures |r| == |OptionList(MainCamera(m, Back))| + |OptionList(MainCamera(m, Front))| + |ExternalCameras(m)|
  {
    OptionList(MainCamera(m, Back)) + OptionList(MainCamera(m, Front)) + ExternalCameras(m)
  }

  /** The cycle order: the main back camera first when there is one, the
      main front camera right after it, then the hot-plugged cameras in id
      order. No auxiliary camera is ever cycled to. */
  lemma {:induction false} AvailableOrder(m: Manager)
    ensures var r := AvailableCameras(m);
      var n := |OptionList(MainCamera(m, Back))| + |OptionList(MainCamera(m, Front))|;
      (MainCamera(m, Back).Some? ==> r[0] == MainCamera(m, Back).value) &&
      (MainCamera(m, Front).Some? ==> r[n - 1] == MainCamera(m, Front).value) &&
      (forall i :: n <= i < |r| ==> r[i] == ExternalCameras(m)[i - n]) &&
      (forall i :: 0 <= i < |r| && r[i].cameraType() == Internal ==> i < n)
  {
    AppendOptions(MainCamera(m, Back), MainCamera(m, Front), ExternalCameras(m));
  }

  /** `AppendParts` for an optional back and front camera. */
  lemma {:induction false} AppendOptions(back: Option<Camera>, front: Option<Camera>, e: seq<Camera>)
    requires forall i :: 0 <= i < |e| ==> e[i].cameraType() == Hotplug
    ensures var r := OptionList(back) + OptionList(front) + e;
      var n := |OptionList(back)| + |OptionList(front)|;
      (back.Some? ==> r[0] == back.value) &&
      (front.Some? ==> r[n - 1] == front.value) &&
      (forall i :: n <= i < |r| ==> r[i] == e[i - n]) &&
      (forall i :: 0 <= i < |r| && r[i].cameraType() == Internal ==> i < n)
  {
    AppendParts(OptionList(back), OptionList(front), e);
  }

  /** Where the parts of a concatenation of three lists end up. */
  lemma {:induction false} AppendParts(b: seq<Camera>, f: seq<Camera>, e: seq<Camera>)
    requires forall i :: 0 <= i < |e| ==> e[i].cameraType() == Hotplug
    ensures var r := b + f + e;
      (|b| > 0 ==> r[0] == b[0]) &&
      (|f| > 0 ==> r[|b| + |f| - 1] == f[|f| - 1]) &&
      (forall i :: |b| + |f| <= i < |r| ==> r[i] == e[i - |b| - |f|]) &&
      (forall i :: 0 <= i < |r| && r[i].cameraType() == Internal ==> i < |b| + |f|)
  {
  }

  /** The cameras a mode may use: only the ones that record in video mode. */
  function ForMode(cameras: seq<Camera>, mode: CameraMode): (r: seq<Camera>)
    ensures mode != Video ==> r == cameras
    ensures mode == Video ==> forall c :: c in r <==> c in cameras && c.supportsVideoRecording
    ensures forall i :: 0 <= i < |r| ==> r[i] in cameras && (mode == Video ==> r[i].supportsVideoRecording)
  {
    if mode == Video then Filter(cameras, (c: Camera) => c.supportsVideoRecording) else cameras
  }

  /** `getCameras`: the facing's list for the mode; an unknown facing
      throws. */
  function GetCameras(m: Manager, mode: CameraMode, facing: CameraFacing): (r: Result<seq<Camera>>)
    ensures r.Err? <==> facing == FacingUnknown
    ensures r.Ok? ==> forall i :: 0 <= i < |r.value| ==> r.value[i].facing == facing
    ensures r.Ok? && mode == Video ==> forall i :: 0 <= i < |r.value| ==> r.value[i].supportsVideoRecording
    ensures r.Ok? && facing == External ==> forall c :: c in r.value <==>
      c in m.provided && c.facing == External && (mode != Video || c.supportsVideoRecording)
  {
    match facing
    case Back => Ok(ForMode(DeviceCameras(m, Back), mode))
    case Front => Ok(ForMode(DeviceCameras(m, Front), mode))
    case External =>
      var e := ExternalCameras(m);
      assert forall c :: c in e ==> c.facing == External;
      Ok(ForMode(e, mode))
    case FacingUnknown => Err("Unknown facing")
  }

  /** The preferred camera of a facing: its main camera, the first
      hot-plugged one for the external facing. */
  function Preferred(m: Manager, facing: CameraFacing): (r: Result<Option<Camera>>)
    ensures r.Err? <==> facing == FacingUnknown
    ensures r.Ok? && r.value.Some? ==> r.value.value in AvailableCameras(m)
  {
    match facing
    case Back => Ok(MainCamera(m, Back))
    case Front => Ok(MainCamera(m, Front))
    case External => Ok(FirstOrNull(ExternalCameras(m)))
    case FacingUnknown => Err("Unknown facing")
  }

  /** `getCameraOfFacingOrFirstAvailable`: the facing's preferred camera,
      replaced in video mode by the first available camera that records when
      it cannot record itself, and the first available camera for the mode
      when the facing has none. */
  function CameraOfFacingOrFirstAvailable(m: Manager, facing: CameraFacing, mode: CameraMode): (r: Result<Option<Camera>>)
    ensures r.Err? <==> facing == FacingUnknown
    ensures r.Ok? && r.value.Some? ==> r.value.value in AvailableCameras(m)
    ensures r.Ok? && r.value.Some? && mode == Video ==> r.value.value.supportsVideoRecording
    ensures r.Ok? && Preferred(m, facing).value.Some? && (mode != Video || Preferred(m, facing).value.value.supportsVideoRecording) ==>
      r.value == Preferred(m, facing).value
    ensures r.Ok? ==> (r.value.None? <==> |ForMode(AvailableCameras(m), mode)| == 0)
    ensures r.Ok? && (Preferred(m, facing).value.None? || (mode == Video && !Preferred(m, facing).value.value.supportsVideoRecording)) ==>
      r.value == FirstOrNull(ForMode(AvailableCameras(m), mode))
  {
    var p := Preferred(m, facing);
    if p.Err? then Err(p.msg)
    else
      var available := ForMode(AvailableCameras(m), mode);
      var chosen :=
        if p.value.Some? then
          if mode == Video && !p.value.value.supportsVideoRecording then FirstOrNull(available)
          else p.value
        else None;
      if chosen.Some? then
        assert chosen.value in AvailableCameras(m);
        assert mode == Video ==> chosen.value in available;
        Ok(chosen)
      else
        assert |available| > 0 ==> available[0] in AvailableCameras(m);
        Ok(FirstOrNull(available))
  }

  /** `getNextCamera`: the camera after the facing's main camera (after the
      camera itself when hot-plugged) among the cameras of the mode; the
      first one when that camera is not among them or is the last; null
      only when there are none. An unknown facing throws. */
  function NextCamera(m: Manager, camera: Camera, mode: CameraMode): (r: Result<Option<Camera>>)
    ensures r.Err? <==> camera.facing == FacingUnknown
    ensures r.Ok? ==> (r.value.None? <==> |ForMode(AvailableCameras(m), mode)| == 0)
    ensures r.Ok? && r.value.Some? ==> r.value.value in ForMode(AvailableCameras(m), mode)
  {
    var current := Current(m, camera);
    if current.Err? then Err(current.msg)
    else Ok(NextIn(ForMode(AvailableCameras(m), mode), current.value))
  }

  /** The camera flipping starts from: the facing's main camera, the camera
      itself when hot-plugged; an unknown facing throws. */
  function Current(m: Manager, camera: Camera): (r: Result<Option<Camera>>)
    ensures r.Err? <==> camera.facing == FacingUnknown
    ensures camera.facing == External ==> r == Ok(Some(camera))
    ensures camera.facing == Back || camera.facing == Front ==> r == Ok(MainCamera(m, camera.facing))
  {
    match camera.facing
    case Back => Ok(MainCamera(m, Back))
    case Front => Ok(MainCamera(m, Front))
    case External => Ok(Some(camera))
    case FacingUnknown => Err("Unknown facing")
  }

  /** The camera after `current` by id, the first one when it is absent or
      last. */
  function NextIn(cameras: seq<Camera>, current: Option<Camera>): (r: Option<Camera>)
    ensures r.None? <==> |cameras| == 0
    ensures r.Some? ==> r.value in cameras
  {
    var index := (if current.Some? then IndexOf(Keys(cameras, Id), current.value.id) else -1) + 1;
    AtOrFirst(cameras, index)
  }

  /** The camera at a position, the first one past the end. */
  function AtOrFirst(cameras: seq<Camera>, index: nat): (r: Option<Camera>)
    ensures r.None? <==> |cameras| == 0
    ensures r.Some? ==> r.value in cameras
  {
    if index >= |cameras| then FirstOrNull(cameras) else Some(cameras[index])
  }

  /** The camera after the one with an id is the one whose id the cyclic
      `next` gives on the list of ids. */
  lemma {:induction false} StepById(cameras: seq<Camera>, id: string)
    ensures var r := AtOrFirst(cameras, IndexOf(Keys(cameras, Id), id) + 1);
      var n := Cycle.Next(Keys(cameras, Id), id);
      (r.None? <==> n.None?) && (r.Some? ==> n == Some(r.value.id))
  {
  }

  /** Flipping steps through the ids exactly as the generic cyclic `next`
      does: from a hot-plugged camera to the one after it, from any back or
      front camera to the one after that facing's main camera. */
  lemma {:induction false} NextCameraCycles(m: Manager, camera: Camera, mode: CameraMode)
    requires camera.facing != FacingUnknown
    requires camera.facing == External || MainCamera(m, camera.facing).Some?
    ensures var cameras := ForMode(AvailableCameras(m), mode);
      var current := if camera.facing == External then camera else MainCamera(m, camera.facing).value;
      var r := NextCamera(m, camera, mode).value;
      (r.None? <==> Cycle.Next(Keys(cameras, Id), current.id).None?) &&
      (r.Some? ==> Cycle.Next(Keys(cameras, Id), current.id) == Some(r.value.id))
  {
    var current := if camera.facing == External then camera else MainCamera(m, camera.facing).value;
    NextCameraIs(m, camera, mode, current);
    NextInById(ForMode(AvailableCameras(m), mode), current);
  }

  /** With a camera to start from, flipping is the step within the mode's
      list. */
  lemma {:induction false} NextCameraIs(m: Manager, camera: Camera, mode: CameraMode, current: Camera)
    requires Current(m, camera) == Ok(Some(current))
    ensures NextCamera(m, camera, mode) == Ok(NextIn(ForMode(AvailableCameras(m), mode), Some(current)))
  {
  }

  /** The step within a list follows the cyclic `next` on its ids. */
  lemma {:induction false} NextInById(cameras: seq<Camera>, current: Camera)
    ensures var r := NextIn(cameras, Some(current));
      var n := Cycle.Next(Keys(cameras, Id), current.id);
      (r.None? <==> n.None?) && (r.Some? ==> n == Some(r.value.id))
  {
    StepById(cameras, current.id);
  }

  /** A camera the manager no longer lists, such as a hot-plugged one that
      was unplugged, flips to the first camera. */
  lemma {:induction false} NextOfMissingCamera(m: Manager, camera: Camera, mode: CameraMode)
    requires camera.facing == External
    requires forall i :: 0 <= i < |ForMode(AvailableCameras(m), mode)| ==> ForMode(AvailableCameras(m), mode)[i].id != camera.id
    ensures NextCamera(m, camera, mode) == Ok(FirstOrNull(ForMode(AvailableCameras(m), mode)))
  {
    var cameras := ForMode(AvailableCameras(m), mode);
    NextCameraIs(m, camera, mode, camera);
    NextInMissing(cameras, camera);
  }

  /** A camera whose id the list lacks steps to the list's first camera. */
  lemma {:induction false} NextInMissing(cameras: seq<Camera>, camera: Camera)
    requires forall i :: 0 <= i < |cameras| ==> cameras[i].id != camera.id
    ensures NextIn(cameras, Some(camera)) == FirstOrNull(cameras)
  {
    assert camera.id !in Keys(cameras, Id);
  }

  // ---------------------------------------------------------------------
  // The earlier manager, without auxiliary cameras or modes

  /** Its lists keep the provider's order: each facing's main camera is the
      first camera reported with that facing. */
  function LegacyMain(provided: seq<Camera>, facing: CameraFacing): (r: Option<Camera>)
    ensures r.None? <==> forall i :: 0 <= i < |provided| ==> provided[i].facing != facing
    ensures r.Some? ==> r.value.facing == facing
    ensures r.Some? ==> exists i :: (0 <= i < |provided| && provided[i] == r.value &&
      forall j :: 0 <= j < i ==> provided[j].facing != facing)
  {
    FirstWhere(provided, (c: Camera) => c.facing == facing)
  }

  /** Main back, main front, then every external camera in the provider's
      order. */
  function LegacyAvailable(provided: seq<Camera>): (r: seq<Camera>)
    ensures forall i :: 0 <= i < |r| ==> r[i] in provided
    ensures forall c :: c in r <==>
      LegacyMain(provided, Back) == Some(c) || LegacyMain(provided, Front) == Some(c) || (c in provided && c.facing == External)
  {
    var b := OptionList(LegacyMain(provided, Back));
    var f := OptionList(LegacyMain(provided, Front));
    var e := Filter(provided, (c: Camera) => c.facing == External);
    b + f + e
  }

  /** The earlier manager cycles in the same order as the newer one: the
      main back camera first, the main front camera right after it, then the
      external cameras in the provider's order. */
  lemma {:induction false} LegacyAvailableOrder(provided: seq<Camera>)
    ensures var r := LegacyAvailable(provided);
      var back, front := LegacyMain(provided, Back), LegacyMain(provided, Front);
      var n := |OptionList(back)| + |OptionList(front)|;
      var e := Filter(provided, (c: Camera) => c.facing == External);
      |r| == n + |e| &&
      (back.Some? ==> r[0] == back.value) &&
      (front.Some? ==> r[n - 1] == front.value) &&
      (forall i :: n <= i < |r| ==> r[i] == e[i - n]) &&
      (forall i :: 0 <= i < |r| && r[i].cameraType() == Internal ==> i < n)
  {
    var e := Filter(provided, (c: Camera) => c.facing == External);
    AppendOptions(LegacyMain(provided, Back), LegacyMain(provided, Front), e);
  }

  /** `getCameraOfFacingOrFirstAvailable`: the facing's main camera, else
      the first available one; an unknown facing or no camera at all
      throws. */
  function LegacyCameraOfFacing(provided: seq<Camera>, facing: CameraFacing): (r: Result<Camera>)
    ensures facing == FacingUnknown ==> r.Err?
    ensures facing != FacingUnknown ==> (r.Err? <==> |LegacyAvailable(provided)| == 0)
    ensures r.Ok? ==> r.value in LegacyAvailable(provided)
    ensures r.Ok? && LegacyMain(provided, facing).Some? ==> r.value == LegacyMain(provided, facing).value
    ensures r.Ok? && LegacyMain(provided, facing).None? ==> r.value == LegacyAvailable(provided)[0]
  {
    if facing == FacingUnknown then Err("Unknown facing")
    else
      var main := LegacyMain(provided, facing);
      var available := LegacyAvailable(provided);
      if main.Some? then
        assert main.value in available by {
          if facing == External {
            var i :| 0 <= i < |provided| && provided[i] == main.value;
            assert main.value in Filter(provided, (c: Camera) => c.facing == External);
          }
        }
        Ok(main.value)
      else if |available| == 0 then Err("NoSuchElementException: List is empty.")
      else Ok(available[0])
  }

  /** `getNextCamera`: as the newer one, but `first()` throws when no camera
      is available. */
  function LegacyNextCamera(provided: seq<Camera>, camera: Camera): (r: Result<Camera>)
    ensures camera.facing == FacingUnknown ==> r.Err?
    ensures camera.facing != FacingUnknown ==> (r.Err? <==> |LegacyAvailable(provided)| == 0)
    ensures r.Ok? ==> r.value in LegacyAvailable(provided)
  {
    var cameras := LegacyAvailable(provided);
    var current :=
      match camera.facing
      case Back => Ok(LegacyMain(provided, Back))
      case Front => Ok(LegacyMain(provided, Front))
      case External => Ok(Some(camera))
      case FacingUnknown => Err("Unknown facing");
    if current.Err? then Err(current.msg)
    else
      var next := NextIn(cameras, current.value);
      if next.None? then Err("NoSuchElementException: List is empty.") else Ok(next.value)
  }

  /** The camera the earlier manager flips from: the facing's main camera,
      the camera itself when external. */
  function LegacyCurrent(provided: seq<Camera>, camera: Camera): Option<Camera>
    requires camera.facing != FacingUnknown
  {
    if camera.facing == External then Some(camera) else LegacyMain(provided, camera.facing)
  }

  /** Both managers flip the same way when a camera is available: from an
      external camera to the one after it, from a back or front camera to
      the one after that facing's main camera, following the throwing cyclic
      `next` on the ids. The earlier one only differs by throwing where the
      newer one gives null. */
  lemma {:induction false} LegacyNextMatchesCycle(provided: seq<Camera>, camera: Camera)
    requires camera.facing != FacingUnknown && LegacyCurrent(provided, camera).Some?
    ensures var r := LegacyNextCamera(provided, camera);
      var ids := Keys(LegacyAvailable(provided), Id);
      var current := LegacyCurrent(provided, camera).value;
      (r.Err? <==> Cycle.NextOrThrow(ids, current.id).Err?) &&
      (r.Ok? ==> Cycle.NextOrThrow(ids, current.id) == Ok(r.value.id))
  {
    var cameras := LegacyAvailable(provided);
    var current := LegacyCurrent(provided, camera).value;
    LegacyNextIs(provided, camera);
    NextInById(cameras, current);
    NextOrThrowIsNext(Keys(cameras, Id), current.id);
  }

  /** A back or front camera of a facing the provider lacks flips to the
      first available camera. */
  lemma {:induction false} LegacyNextWithoutMain(provided: seq<Camera>, camera: Camera)
    requires camera.facing == Back || camera.facing == Front
    requires LegacyMain(provided, camera.facing).None?
    ensures var cameras := LegacyAvailable(provided);
      LegacyNextCamera(provided, camera) == if |cameras| == 0 then Err("NoSuchElementException: List is empty.") else Ok(cameras[0])
  {
  }

  /** The earlier manager takes the step within the available list from
      the camera it flips from, throwing when there is none. */
  lemma {:induction false} LegacyNextIs(provided: seq<Camera>, camera: Camera)
    requires camera.facing != FacingUnknown
    ensures var next := NextIn(LegacyAvailable(provided), LegacyCurrent(provided, camera));
      LegacyNextCamera(provided, camera) == if next.None? then Err("NoSuchElementException: List is empty.") else Ok(next.value)
  {
  }

  /** The throwing `next` fails exactly where the nullable one is null and
      otherwise agrees with it. */
  lemma {:induction false} NextOrThrowIsNext(ids: seq<string>, id: string)
    ensures Cycle.NextOrThrow(ids, id).Err? <==> Cycle.Next(ids, id).None?
    ensures Cycle.NextOrThrow(ids, id).Ok? ==> Cycle.Next(ids, id) == Some(Cycle.NextOrThrow(ids, id).value)
  {
  }

}
