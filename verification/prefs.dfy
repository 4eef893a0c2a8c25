/** The settings the app keeps in its `SharedPreferences` file: a store of
    typed maps, the generic text codec every enum-valued setting uses, and
    each setting's key, stored texts and defaults. */
module Prefs {
  import opened Wrappers
  import opened Seqs
  import opened Codec
  import opened Modes

  /** A preferences file. Every key of the app is only ever used with one
      type, so the three maps never share a key in practice. */
  datatype Store = Store(strings: map<string, string>, ints: map<string, int>, bools: map<string, bool>)

  /** `getString(key, default)`. */
  function GetString(st: Store, key: string, default: string): (r: string)
    ensures key in st.strings ==> r == st.strings[key]
    ensures key !in st.strings ==> r == default
  {
    if key in st.strings then st.strings[key] else default
  }

  /** `getString(key, null)`. */
  function GetStringOrNull(st: Store, key: string): (r: Option<string>)
    ensures r.None? <==> key !in st.strings
    ensures r.Some? ==> r.value == st.strings[key]
  {
    if key in st.strings then Some(st.strings[key]) else None
  }

  function PutString(st: Store, key: string, v: string): (r: Store)
    ensures GetStringOrNull(r, key) == Some(v)
    ensures forall k :: k != key ==> GetStringOrNull(r, k) == GetStringOrNull(st, k)
    ensures r.ints == st.ints && r.bools == st.bools
  {
    st.(strings := st.strings[key := v])
  }

  function GetInt(st: Store, key: string, default: int): (r: int)
    ensures key in st.ints ==> r == st.ints[key]
    ensures key !in st.ints ==> r == default
  {
    if key in st.ints then st.ints[key] else default
  }

  function PutInt(st: Store, key: string, v: int): (r: Store)
    ensures GetInt(r, key, 0) == v
    ensures forall k, d :: k != key ==> GetInt(r, k, d) == GetInt(st, k, d)
    ensures r.strings == st.strings && r.bools == st.bools
  {
    st.(ints := st.ints[key := v])
  }

  function GetBoolean(st: Store, key: string, default: bool): (r: bool)
    ensures key in st.bools ==> r == st.bools[key]
    ensures key !in st.bools ==> r == default
  {
    if key in st.bools then st.bools[key] else default
  }

  function PutBoolean(st: Store, key: string, v: bool): (r: Store)
    ensures forall d :: GetBoolean(r, key, d) == v
    ensures forall k, d :: k != key ==> GetBoolean(r, k, d) == GetBoolean(st, k, d)
    ensures r.strings == st.strings && r.ints == st.ints
  {
    st.(bools := st.bools[key := v])
  }

  /** `remove(key)`: drops the key whatever its type. */
  function Remove(st: Store, key: string): (r: Store)
    ensures key !in r.strings && key !in r.ints && key !in r.bools
    ensures forall k :: k != key ==> GetStringOrNull(r, k) == GetStringOrNull(st, k)
    ensures forall k, d :: k != key ==> GetInt(r, k, d) == GetInt(st, k, d)
    ensures forall k, d :: k != key ==> GetBoolean(r, k, d) == GetBoolean(st, k, d)
  {
    Store(st.strings - {key}, st.ints - {key}, st.bools - {key})
  }

  // ---------------------------------------------------------------------
  // Nullable booleans

  /** The nullable `getBoolean`: nothing when the key is absent. */
  function GetNullableBoolean(st: Store, key: string): (r: Option<bool>)
    ensures r.None? <==> key !in st.bools
    ensures r.Some? ==> forall d :: r.value == GetBoolean(st, key, d)
  {
    if key in st.bools then Some(GetBoolean(st, key, false)) else None
  }

  /** The nullable `putBoolean`: writing nothing removes the key. */
  function PutNullableBoolean(st: Store, key: string, v: Option<bool>): (r: Store)
    ensures v.None? ==> key !in r.bools && key !in r.strings && key !in r.ints
    ensures forall k, d :: k != key ==> GetBoolean(r, k, d) == GetBoolean(st, k, d)
  {
    if v.None? then Remove(st, key) else PutBoolean(st, key, v.value)
  }

  /** A nullable boolean reads back as written, absence included. */
  lemma {:induction false} NullableBooleanRoundTrip(st: Store, key: string, v: Option<bool>)
    ensures GetNullableBoolean(PutNullableBoolean(st, key, v), key) == v
  {
  }

  /** `saveLocation`. */
  const SaveLocationKey := "save_location"

  // ---------------------------------------------------------------------
  // Text-coded settings

  /** A setting stored as text: its key, the text read when the key is
      missing, the reading table, the value of an unrecognised text, and the
      text written for a value the table does not hold. */
  datatype Pref<T> = Pref(key: string, missing: string, table: seq<(string, T)>, otherwise: T, fallback: string)

  /** The getter: a missing key reads as the `missing` text, and an
      unrecognised text as `otherwise`. */
  function Read<T>(st: Store, p: Pref<T>): (r: T)
    ensures (forall i :: 0 <= i < |p.table| ==> p.table[i].0 != GetString(st, p.key, p.missing)) ==> r == p.otherwise
  {
    Decode(p.table, GetString(st, p.key, p.missing), p.otherwise)
  }

  /** The setter. */
  function Write<T(==)>(st: Store, p: Pref<T>, v: T): (r: Store)
    ensures Holds(p.table, v) ==> GetString(r, p.key, p.missing) in Texts(p.table)
    ensures !Holds(p.table, v) ==> GetString(r, p.key, p.missing) == p.fallback
  {
    if Holds(p.table, v) then
      EncodeIsText(p.table, v, p.fallback);
      PutString(st, p.key, Encode(p.table, v, p.fallback))
    else PutString(st, p.key, Encode(p.table, v, p.fallback))
  }

  /** A value the table holds reads back as itself; any other value reads
      back as the fallback text decodes. */
  lemma {:induction false} ReadWrite<T>(st: Store, p: Pref<T>, v: T)
    requires NoDup(Texts(p.table))
    ensures Holds(p.table, v) ==> Read(Write(st, p, v), p) == v
    ensures !Holds(p.table, v) ==> Read(Write(st, p, v), p) == Decode(p.table, p.fallback, p.otherwise)
  {
    if Holds(p.table, v) {
      DecodeEncode(p.table, v, p.fallback, p.otherwise);
    }
  }

  /** Writing one setting leaves a setting under another key as it was. */
  lemma {:induction false} WriteKeepsOthers<T, U>(st: Store, p: Pref<T>, q: Pref<U>, v: T)
    requires p.key != q.key
    ensures Read(Write(st, p, v), q) == Read(st, q)
  {
  }

  /** A missing key reads as its `missing` text decodes. */
  lemma {:induction false} ReadMissing<T>(st: Store, p: Pref<T>)
    requires p.key !in st.strings
    ensures Read(st, p) == Decode(p.table, p.missing, p.otherwise)
  {
  }

  // ---------------------------------------------------------------------
  // The tables. The integers are CameraX's constants.

  const FacingTexts: seq<(string, CameraFacing)> :=
    [("unknown", FacingUnknown), ("front", Front), ("back", Back), ("external", External)]
  const FrontBackTexts: seq<(string, CameraFacing)> := [("front", Front), ("back", Back)]

  const ModeTexts: seq<(string, CameraMode)> := [("qr", Qr), ("photo", Photo), ("video", Video)]
  const PhotoVideoTexts: seq<(string, CameraMode)> := [("photo", Photo), ("video", Video)]

  const GridTexts: seq<(string, GridMode)> :=
    [("off", GridOff), ("on_3", On3), ("on_4", On4), ("on_goldenratio", OnGoldenRatio)]
  const OffOn3Texts: seq<(string, GridMode)> := [("off", GridOff), ("on_3", On3)]

  const FlashTexts: seq<(string, FlashMode)> :=
    [("off", FlashOff), ("auto", FlashAuto), ("on", FlashOn), ("torch", Torch)]
  const VideoFlashTexts: seq<(string, FlashMode)> := [("off", FlashOff), ("torch", Torch)]

  /** `ImageCapture.CAPTURE_MODE_*`. */
  const CaptureMaximizeQuality := 0
  const CaptureMinimizeLatency := 1
  const CaptureZeroShutterLag := 2
  const CaptureTexts: seq<(string, int)> :=
    [("maximize_quality", CaptureMaximizeQuality), ("minimize_latency", CaptureMinimizeLatency),
     ("zero_shutter_lag", CaptureZeroShutterLag)]

  /** `ImageCapture.FLASH_MODE_*`. */
  const FlashModeAuto := 0
  const FlashModeOn := 1
  const FlashModeOff := 2
  const FlashIntTexts: seq<(string, int)> := [("auto", FlashModeAuto), ("on", FlashModeOn), ("off", FlashModeOff)]

  /** `ExtensionMode.*`: NONE, BOKEH, HDR, NIGHT, FACE_RETOUCH, AUTO. */
  const EffectTexts: seq<(string, int)> :=
    [("none", 0), ("bokeh", 1), ("hdr", 2), ("night", 3), ("face_retouch", 4), ("auto", 5)]

  const SdToUhdTexts: seq<(string, Quality)> := [("sd", Sd), ("hd", Hd), ("fhd", Fhd), ("uhd", Uhd)]
  const LowestToHighestTexts: seq<(string, Quality)> :=
    [("lowest", Lowest), ("hd", Hd), ("fhd", Fhd), ("uhd", Uhd), ("highest", Highest)]

  /** `AspectRatio.RATIO_4_3` and `RATIO_16_9`. */
  const Ratio4By3 := 0
  const Ratio16By9 := 1
  const AspectTexts: seq<(string, int)> := [("4_3", Ratio4By3), ("16_9", Ratio16By9)]

  datatype GestureAction = Shutter | Zoom | Volume | Nothing
  const GestureTexts: seq<(string, GestureAction)> :=
    [("shutter", Shutter), ("zoom", Zoom), ("volume", Volume), ("nothing", Nothing)]

  datatype DynamicRange = Sdr | Hlg10Bit | Hdr10Bit | Hdr10Plus10Bit | DolbyVision10Bit | DolbyVision8Bit
  const DynamicRangeTexts: seq<(string, DynamicRange)> :=
    [("sdr", Sdr), ("hlg_10_bit", Hlg10Bit), ("hdr10_10_bit", Hdr10Bit), ("hdr10_plus_10_bit", Hdr10Plus10Bit),
     ("dolby_vision_10_bit", DolbyVision10Bit), ("dolby_vision_8_bit", DolbyVision8Bit)]

  /** The Camera2 processing modes the edge, noise-reduction, shading,
      aberration, distortion and hot-pixel settings choose from. */
  datatype Processing = ProcessingOff | Fast | HighQuality | Minimal
  const ProcessingTexts: seq<(string, Option<Processing>)> :=
    [("default", None), ("off", Some(ProcessingOff)), ("fast", Some(Fast)), ("high_quality", Some(HighQuality))]
  const NoiseReductionTexts: seq<(string, Option<Processing>)> := ProcessingTexts + [("minimal", Some(Minimal))]

  // ---------------------------------------------------------------------
  // The settings of `ext/SharedPreferences.kt`

  const LastCameraFacing := Pref("last_camera_facing", "back", FacingTexts, Back, "")
  const LastCameraMode := Pref("last_camera_mode", "photo", ModeTexts, Photo, "")
  const LastGridMode := Pref("last_grid_mode", "off", GridTexts, GridOff, "")
  const PhotoFlashMode := Pref("photo_flash_mode", "auto", FlashTexts, FlashAuto, "")
  const VideoFlashMode := Pref("video_flash_mode", "off", VideoFlashTexts, FlashOff, "off")
  const PhotoFlashInt := Pref("photo_flash_mode", "auto", FlashIntTexts, FlashModeAuto, "auto")
  const PhotoEffect := Pref("photo_effect", "none", EffectTexts, 0, "none")
  const VideoQuality := Pref("video_quality", "fhd", SdToUhdTexts, Fhd, "fhd")
  const AspectRatio := Pref("aspect_ratio", "4_3", AspectTexts, Ratio4By3, "4_3")
  const VolumeButtonsAction := Pref("volume_buttons_action", "shutter", GestureTexts, Shutter, "")
  const VideoDynamicRange := Pref("video_dynamic_range", "sdr", DynamicRangeTexts, Sdr, "")
  const EdgeMode := Pref("edge_mode", "default", ProcessingTexts, None, "")
  const NoiseReductionMode := Pref("noise_reduction_mode", "default", NoiseReductionTexts, None, "")
  const ShadingMode := Pref("shading_mode", "default", ProcessingTexts, None, "")
  const AberrationMode := Pref("color_correction_aberration_mode", "default", ProcessingTexts, None, "")
  const DistortionMode := Pref("distortion_correction_mode", "default", ProcessingTexts, None, "")
  const HotPixelMode := Pref("hot_pixel_mode", "default", ProcessingTexts, None, "")

  /** What every text-coded setting promises once its texts are distinct and
      it holds the value: the value reads back as written, an unknown text
      reads as `otherwise`, and a missing key as the `missing` text decodes. */
  lemma {:induction false} Facts<T>(st: Store, p: Pref<T>, v: T, s: string)
    requires NoDup(Texts(p.table)) && Holds(p.table, v)
    ensures Read(Write(st, p, v), p) == v
    ensures s !in Texts(p.table) ==> Read(PutString(st, p.key, s), p) == p.otherwise
    ensures p.key !in st.strings ==> Read(st, p) == Decode(p.table, p.missing, p.otherwise)
  {
    ReadWrite(st, p, v);
  }

  lemma {:induction false} FacingTextsDistinct()
    ensures Texts(FacingTexts) == ["unknown", "front", "back", "external"]
    ensures Texts(FrontBackTexts) == ["front", "back"]
    ensures NoDup(Texts(FacingTexts)) && NoDup(Texts(FrontBackTexts))
  {
    assert Texts(FacingTexts) == ["unknown", "front", "back", "external"];
    assert Texts(FrontBackTexts) == ["front", "back"];
  }

  /** Every facing reads back as written; unknown or missing text reads as
      back. */
  lemma {:induction false} LastCameraFacingRoundTrip(st: Store, f: CameraFacing, s: string)
    ensures Read(Write(st, LastCameraFacing, f), LastCameraFacing) == f
    ensures s !in ["unknown", "front", "back", "external"] ==>
      Read(PutString(st, LastCameraFacing.key, s), LastCameraFacing) == Back
    ensures LastCameraFacing.key !in st.strings ==> Read(st, LastCameraFacing) == Back
  {
    FacingTextsDistinct();
    assert FacingTexts[IndexOfFacing(f)].1 == f;
    Facts(st, LastCameraFacing, f, s);
  }

  function IndexOfFacing(f: CameraFacing): (i: int)
    ensures 0 <= i < |FacingTexts| && FacingTexts[i].1 == f
  {
    match f
    case FacingUnknown => 0
    case Front => 1
    case Back => 2
    case External => 3
  }

  lemma {:induction false} ModeTextsDistinct()
    ensures Texts(ModeTexts) == ["qr", "photo", "video"] && Texts(PhotoVideoTexts) == ["photo", "video"]
    ensures NoDup(Texts(ModeTexts)) && NoDup(Texts(PhotoVideoTexts))
  {
    assert Texts(ModeTexts) == ["qr", "photo", "video"];
    assert Texts(PhotoVideoTexts) == ["photo", "video"];
  }

  /** Every mode reads back as written; unknown or missing text reads as
      photo. */
  lemma {:induction false} LastCameraModeRoundTrip(st: Store, m: CameraMode, s: string)
    ensures Read(Write(st, LastCameraMode, m), LastCameraMode) == m
    ensures s !in ["qr", "photo", "video"] ==> Read(PutString(st, LastCameraMode.key, s), LastCameraMode) == Photo
    ensures LastCameraMode.key !in st.strings ==> Read(st, LastCameraMode) == Photo
  {
    ModeTextsDistinct();
    assert ModeTexts[if m == Qr then 0 else if m == Photo then 1 else 2].1 == m;
    Facts(st, LastCameraMode, m, s);
  }

  lemma {:induction false} GridTextsDistinct()
    ensures Texts(GridTexts) == ["off", "on_3", "on_4", "on_goldenratio"] && Texts(OffOn3Texts) == ["off", "on_3"]
    ensures NoDup(Texts(GridTexts)) && NoDup(Texts(OffOn3Texts))
  {
    assert Texts(GridTexts) == ["off", "on_3", "on_4", "on_goldenratio"];
    assert Texts(OffOn3Texts) == ["off", "on_3"];
  }

  /** Every grid mode reads back as written; unknown or missing text reads
      as off. */
  lemma {:induction false} LastGridModeRoundTrip(st: Store, g: GridMode, s: string)
    ensures Read(Write(st, LastGridMode, g), LastGridMode) == g
    ensures s !in ["off", "on_3", "on_4", "on_goldenratio"] ==>
      Read(PutString(st, LastGridMode.key, s), LastGridMode) == GridOff
    ensures LastGridMode.key !in st.strings ==> Read(st, LastGridMode) == GridOff
  {
    GridTextsDistinct();
    assert GridTexts[if g == GridOff then 0 else if g == On3 then 1 else if g == On4 then 2 else 3].1 == g;
    Facts(st, LastGridMode, g, s);
  }

  lemma {:induction false} FlashTextsDistinct()
    ensures Texts(FlashTexts) == ["off", "auto", "on", "torch"] && Texts(VideoFlashTexts) == ["off", "torch"]
    ensures Texts(FlashIntTexts) == ["auto", "on", "off"]
    ensures NoDup(Texts(FlashTexts)) && NoDup(Texts(VideoFlashTexts)) && NoDup(Texts(FlashIntTexts))
  {
    assert Texts(FlashTexts) == ["off", "auto", "on", "torch"];
    assert Texts(VideoFlashTexts) == ["off", "torch"];
    assert Texts(FlashIntTexts) == ["auto", "on", "off"];
  }

  /** The photo flash keeps all four modes and reads auto when missing or
      unknown. */
  lemma {:induction false} PhotoFlashModeRoundTrip(st: Store, m: FlashMode, s: string)
    ensures Read(Write(st, PhotoFlashMode, m), PhotoFlashMode) == m
    ensures s !in ["off", "auto", "on", "torch"] ==> Read(PutString(st, PhotoFlashMode.key, s), PhotoFlashMode) == FlashAuto
    ensures PhotoFlashMode.key !in st.strings ==> Read(st, PhotoFlashMode) == FlashAuto
  {
    FlashTextsDistinct();
    assert FlashTexts[if m == FlashOff then 0 else if m == FlashAuto then 1 else if m == FlashOn then 2 else 3].1 == m;
    Facts(st, PhotoFlashMode, m, s);
  }

  /** The video flash keeps only off and torch: auto and on are written as
      `"off"` and read back as off. */
  lemma {:induction false} VideoFlashModeRoundTrip(st: Store, m: FlashMode)
    ensures m == FlashOff || m == Torch ==> Read(Write(st, VideoFlashMode, m), VideoFlashMode) == m
    ensures m == FlashAuto || m == FlashOn ==>
      GetStringOrNull(Write(st, VideoFlashMode, m), VideoFlashMode.key) == Some("off") &&
      Read(Write(st, VideoFlashMode, m), VideoFlashMode) == FlashOff
    ensures VideoFlashMode.key !in st.strings ==> Read(st, VideoFlashMode) == FlashOff
  {
    FlashTextsDistinct();
    if m == FlashOff || m == Torch {
      assert VideoFlashTexts[if m == FlashOff then 0 else 1].1 == m;
    }
    ReadWrite(st, VideoFlashMode, m);
  }

  /** The image-capture flash constants auto, on and off read back as
      written; any other integer is written as `"auto"`, and unknown or
      missing text reads as auto. */
  lemma {:induction false} PhotoFlashIntRoundTrip(st: Store, v: int, s: string)
    ensures v in {FlashModeAuto, FlashModeOn, FlashModeOff} ==> Read(Write(st, PhotoFlashInt, v), PhotoFlashInt) == v
    ensures v !in {FlashModeAuto, FlashModeOn, FlashModeOff} ==>
      GetStringOrNull(Write(st, PhotoFlashInt, v), PhotoFlashInt.key) == Some("auto") &&
      Read(Write(st, PhotoFlashInt, v), PhotoFlashInt) == FlashModeAuto
    ensures s !in ["auto", "on", "off"] ==> Read(PutString(st, PhotoFlashInt.key, s), PhotoFlashInt) == FlashModeAuto
    ensures PhotoFlashInt.key !in st.strings ==> Read(st, PhotoFlashInt) == FlashModeAuto
  {
    FlashTextsDistinct();
    if v in {FlashModeAuto, FlashModeOn, FlashModeOff} {
      assert FlashIntTexts[v].1 == v;
    }
    ReadWrite(st, PhotoFlashInt, v);
    Facts(st, PhotoFlashInt, FlashModeAuto, s);
  }

  lemma {:induction false} EffectTextsDistinct()
    ensures Texts(EffectTexts) == ["none", "bokeh", "hdr", "night", "face_retouch", "auto"]
    ensures NoDup(Texts(EffectTexts))
  {
    assert Texts(EffectTexts) == ["none", "bokeh", "hdr", "night", "face_retouch", "auto"];
  }

  /** The six extension modes read back as written. */
  lemma {:induction false} PhotoEffectRoundTrip(st: Store, e: int)
    requires 0 <= e <= 5
    ensures Read(Write(st, PhotoEffect, e), PhotoEffect) == e
  {
    EffectTextsDistinct();
    assert EffectTexts[e].1 == e;
    ReadWrite(st, PhotoEffect, e);
  }

  /** Any other integer is written as `"none"` and reads back as none, as
      do unknown and missing text. */
  lemma {:induction false} PhotoEffectDefaults(st: Store, e: int, s: string)
    ensures !(0 <= e <= 5) ==>
      GetStringOrNull(Write(st, PhotoEffect, e), PhotoEffect.key) == Some("none") &&
      Read(Write(st, PhotoEffect, e), PhotoEffect) == 0
    ensures s !in ["none", "bokeh", "hdr", "night", "face_retouch", "auto"] ==>
      Read(PutString(st, PhotoEffect.key, s), PhotoEffect) == 0
    ensures PhotoEffect.key !in st.strings ==> Read(st, PhotoEffect) == 0
  {
    EffectTextsDistinct();
    if !(0 <= e <= 5) {
      assert forall i :: 0 <= i < |EffectTexts| ==> EffectTexts[i].1 == i;
      ReadWrite(st, PhotoEffect, e);
    }
    assert EffectTexts[0].1 == 0;
    Facts(st, PhotoEffect, 0, s);
  }

  lemma {:induction false} QualityTextsDistinct()
    ensures Texts(SdToUhdTexts) == ["sd", "hd", "fhd", "uhd"]
    ensures Texts(LowestToHighestTexts) == ["lowest", "hd", "fhd", "uhd", "highest"]
    ensures NoDup(Texts(SdToUhdTexts)) && NoDup(Texts(LowestToHighestTexts))
  {
    assert Texts(SdToUhdTexts) == ["sd", "hd", "fhd", "uhd"];
    assert Texts(LowestToHighestTexts) == ["lowest", "hd", "fhd", "uhd", "highest"];
  }

  /** Video quality keeps SD to UHD. */
  lemma {:induction false} VideoQualityRoundTrip(st: Store, q: Quality)
    requires q in {Sd, Hd, Fhd, Uhd}
    ensures Read(Write(st, VideoQuality, q), VideoQuality) == q
  {
    QualityTextsDistinct();
    assert SdToUhdTexts[if q == Sd then 0 else if q == Hd then 1 else if q == Fhd then 2 else 3].1 == q;
    ReadWrite(st, VideoQuality, q);
  }

  /** Any other quality is written as `"fhd"`, and unknown or missing text
      reads as FHD. */
  lemma {:induction false} VideoQualityDefaults(st: Store, q: Quality, s: string)
    ensures q !in {Sd, Hd, Fhd, Uhd} ==>
      GetStringOrNull(Write(st, VideoQuality, q), VideoQuality.key) == Some("fhd") &&
      Read(Write(st, VideoQuality, q), VideoQuality) == Fhd
    ensures s !in ["sd", "hd", "fhd", "uhd"] ==> Read(PutString(st, VideoQuality.key, s), VideoQuality) == Fhd
    ensures VideoQuality.key !in st.strings ==> Read(st, VideoQuality) == Fhd
  {
    if q !in {Sd, Hd, Fhd, Uhd} {
      VideoQualityOther(st, q);
    }
    VideoQualityUnknown(st, s);
  }

  /** A quality the video table lacks is written as `"fhd"`. */
  lemma {:induction false} VideoQualityOther(st: Store, q: Quality)
    requires q !in {Sd, Hd, Fhd, Uhd}
    ensures GetStringOrNull(Write(st, VideoQuality, q), VideoQuality.key) == Some("fhd")
    ensures Read(Write(st, VideoQuality, q), VideoQuality) == Fhd
  {
    QualityTextsDistinct();
    ReadWrite(st, VideoQuality, q);
    DecodeAt(SdToUhdTexts, 2, Fhd);
  }

  /** Unknown or missing video quality text reads as FHD. */
  lemma {:induction false} VideoQualityUnknown(st: Store, s: string)
    ensures s !in ["sd", "hd", "fhd", "uhd"] ==> Read(PutString(st, VideoQuality.key, s), VideoQuality) == Fhd
    ensures VideoQuality.key !in st.strings ==> Read(st, VideoQuality) == Fhd
  {
    QualityTextsDistinct();
    assert SdToUhdTexts[2].1 == Fhd;
    Facts(st, VideoQuality, Fhd, s);
    DecodeAt(SdToUhdTexts, 2, Fhd);
  }

  /** Aspect ratios 4:3 and 16:9 read back as written; any other integer is
      written as `"4_3"`, and unknown or missing text reads as 4:3. */
  lemma {:induction false} AspectRatioRoundTrip(st: Store, a: int, s: string)
    ensures a == Ratio4By3 || a == Ratio16By9 ==> Read(Write(st, AspectRatio, a), AspectRatio) == a
    ensures a != Ratio4By3 && a != Ratio16By9 ==>
      GetStringOrNull(Write(st, AspectRatio, a), AspectRatio.key) == Some("4_3") &&
      Read(Write(st, AspectRatio, a), AspectRatio) == Ratio4By3
    ensures s !in ["4_3", "16_9"] ==> Read(PutString(st, AspectRatio.key, s), AspectRatio) == Ratio4By3
    ensures AspectRatio.key !in st.strings ==> Read(st, AspectRatio) == Ratio4By3
  {
    assert Texts(AspectTexts) == ["4_3", "16_9"];
    if a == Ratio4By3 || a == Ratio16By9 {
      assert AspectTexts[a].1 == a;
    }
    ReadWrite(st, AspectRatio, a);
    Facts(st, AspectRatio, Ratio4By3, s);
  }

  /** All six dynamic ranges read back as written; unknown or missing text
      reads as SDR. */
  lemma {:induction false} VideoDynamicRangeRoundTrip(st: Store, d: DynamicRange, s: string)
    ensures Read(Write(st, VideoDynamicRange, d), VideoDynamicRange) == d
    ensures s !in Texts(DynamicRangeTexts) ==> Read(PutString(st, VideoDynamicRange.key, s), VideoDynamicRange) == Sdr
    ensures VideoDynamicRange.key !in st.strings ==> Read(st, VideoDynamicRange) == Sdr
  {
    assert Texts(DynamicRangeTexts) ==
      ["sdr", "hlg_10_bit", "hdr10_10_bit", "hdr10_plus_10_bit", "dolby_vision_10_bit", "dolby_vision_8_bit"];
    var i := match d
      case Sdr => 0 case Hlg10Bit => 1 case Hdr10Bit => 2 case Hdr10Plus10Bit => 3
      case DolbyVision10Bit => 4 case DolbyVision8Bit => 5;
    assert DynamicRangeTexts[i].1 == d;
    Facts(st, VideoDynamicRange, d, s);
  }

  /** The processing-mode getters read `"default"`, a missing key and any
      unknown text as nothing, and each named mode as itself; only noise
      reduction knows `"minimal"`. */
  lemma {:induction false} ProcessingSettings(st: Store, s: string)
    ensures GetString(st, EdgeMode.key, "default") == "default" ==> Read(st, EdgeMode).None?
    ensures s !in ["default", "off", "fast", "high_quality"] ==> Read(PutString(st, EdgeMode.key, s), EdgeMode).None?
    ensures s !in ["default", "off", "fast", "high_quality", "minimal"] ==>
      Read(PutString(st, NoiseReductionMode.key, s), NoiseReductionMode).None?
    ensures Read(PutString(st, EdgeMode.key, "high_quality"), EdgeMode) == Some(HighQuality)
    ensures Read(PutString(st, NoiseReductionMode.key, "minimal"), NoiseReductionMode) == Some(Minimal)
    ensures Read(PutString(st, ShadingMode.key, "minimal"), ShadingMode).None?
  {
    ProcessingTextsDistinct();
    DecodeAt(ProcessingTexts, 3, None);
    DecodeAt(NoiseReductionTexts, 4, None);
  }

  lemma {:induction false} ProcessingTextsDistinct()
    ensures Texts(ProcessingTexts) == ["default", "off", "fast", "high_quality"]
    ensures Texts(NoiseReductionTexts) == ["default", "off", "fast", "high_quality", "minimal"]
    ensures NoDup(Texts(ProcessingTexts)) && NoDup(Texts(NoiseReductionTexts))
  {
    assert Texts(ProcessingTexts) == ["default", "off", "fast", "high_quality"];
    assert Texts(NoiseReductionTexts) == ["default", "off", "fast", "high_quality", "minimal"];
  }

  /** `volumeButtonsAction`: shutter unless another action is stored. */
  lemma {:induction false} VolumeButtonsDefault(st: Store, s: string)
    ensures s !in Texts(GestureTexts) ==> Read(PutString(st, VolumeButtonsAction.key, s), VolumeButtonsAction) == Shutter
    ensures Read(PutString(st, VolumeButtonsAction.key, "volume"), VolumeButtonsAction) == Volume
  {
    assert GestureTexts[2].0 == "volume";
  }

  /** `photoCaptureMode`: `"minimize_latency"`, which is also what a missing
      key reads as, means zero shutter lag exactly when `enable_zsl` is on;
      any other text but `"maximize_quality"` means minimize latency. */
  function PhotoCaptureMode(st: Store): (r: int)
    ensures r == CaptureZeroShutterLag <==>
      GetString(st, "photo_capture_mode", "minimize_latency") == "minimize_latency" && GetBoolean(st, "enable_zsl", false)
    ensures r == CaptureMaximizeQuality <==> GetString(st, "photo_capture_mode", "minimize_latency") == "maximize_quality"
    ensures r == CaptureMaximizeQuality || r == CaptureMinimizeLatency || r == CaptureZeroShutterLag
  {
    match GetString(st, "photo_capture_mode", "minimize_latency")
    case "maximize_quality" => CaptureMaximizeQuality
    case "minimize_latency" =>
      if GetBoolean(st, "enable_zsl", false) then CaptureZeroShutterLag else CaptureMinimizeLatency
    case _ => CaptureMinimizeLatency
  }

  // ---------------------------------------------------------------------
  // Integer-coded settings

  const VideoFrameRateKey := "video_framerate"

  /** `videoFrameRate`: the stored value looked up among the rates; the key
      is read as -1 when missing. */
  function VideoFrameRate(st: Store): (r: Option<FrameRate>)
    ensures r.Some? ==> Value(r.value) == GetInt(st, VideoFrameRateKey, -1)
    ensures VideoFrameRateKey !in st.ints ==> r.None?
  {
    FromValue(GetInt(st, VideoFrameRateKey, -1))
  }

  /** Writing nothing stores -1. */
  function SetVideoFrameRate(st: Store, v: Option<FrameRate>): (r: Store)
  {
    PutInt(st, VideoFrameRateKey, if v.Some? then Value(v.value) else -1)
  }

  /** A frame rate, or its absence, reads back as written. */
  lemma {:induction false} VideoFrameRateRoundTrip(st: Store, v: Option<FrameRate>)
    ensures VideoFrameRate(SetVideoFrameRate(st, v)) == v
  {
    if v.Some? {
      FromValueRoundTrip(v.value);
    }
  }

  const TimerModeKey := "timer_mode"

  /** `timerMode`: the stored seconds looked up among the modes, off when
      they name none. */
  function TimerSetting(st: Store): (r: TimerMode)
    ensures FromSeconds(GetInt(st, TimerModeKey, 0)).None? ==> r == TimerOff
    ensures r != TimerOff ==> Seconds(r) == GetInt(st, TimerModeKey, 0)
  {
    FromSeconds(GetInt(st, TimerModeKey, 0)).GetOr(TimerOff)
  }

  function SetTimerSetting(st: Store, m: TimerMode): (r: Store)
  {
    PutInt(st, TimerModeKey, Seconds(m))
  }

  /** Every timer mode reads back as written, and a missing key or seconds
      no mode has read as off. */
  lemma {:induction false} TimerSettingRoundTrip(st: Store, m: TimerMode, n: int)
    ensures TimerSetting(SetTimerSetting(st, m)) == m
    ensures TimerModeKey !in st.ints ==> TimerSetting(st) == TimerOff
    ensures n != 0 && n != 3 && n != 10 ==> TimerSetting(PutInt(st, TimerModeKey, n)) == TimerOff
  {
    FromSecondsRoundTrip(m);
  }

  // ---------------------------------------------------------------------
  // The last saved URI, held as its text

  const LastSavedUriKey := "saved_uri"

  /** `lastSavedUri`: nothing when the key is missing. */
  function LastSavedUri(st: Store): (r: Option<string>)
    ensures r.None? <==> LastSavedUriKey !in st.strings
  {
    GetStringOrNull(st, LastSavedUriKey)
  }

  /** The setter stores `toString()` of the value, which is `"null"` for no
      value. */
  function SetLastSavedUri(st: Store, v: Option<string>): (r: Store)
  {
    PutString(st, LastSavedUriKey, if v.Some? then v.value else "null")
  }

  /** A URI reads back as written, but clearing it stores the text `"null"`,
      which then reads back as a URI rather than as nothing. */
  lemma {:induction false} LastSavedUriRoundTrip(st: Store, v: Option<string>)
    ensures v.Some? ==> LastSavedUri(SetLastSavedUri(st, v)) == v
    ensures v.None? ==> LastSavedUri(SetLastSavedUri(st, v)) == Some("null")
  {
  }

  // ---------------------------------------------------------------------
  // Plain booleans

  /** A boolean setting: its key and the value read when it is missing. */
  datatype Flag = Flag(key: string, default: bool)

  const LastMicMode := Flag("last_mic_mode", true)
  const PhotoFfcMirror := Flag("photo_ffc_mirror", true)
  const BrightScreen := Flag("bright_screen", false)
  const ShutterSound := Flag("shutter_sound", true)
  const Leveler := Flag("leveler", false)
  const VideoStabilization := Flag("video_stabilization", true)
  const ForceTorchHelpShown := Flag("force_torch_help_shown", false)

  const Flags: seq<Flag> :=
    [LastMicMode, PhotoFfcMirror, BrightScreen, ShutterSound, Leveler, VideoStabilization, ForceTorchHelpShown]

  /** Each flag reads back as written, reads its default while missing, and
      no two flags share a key. */
  lemma {:induction false} FlagsRoundTrip(st: Store, i: int, v: bool)
    requires 0 <= i < |Flags|
    ensures GetBoolean(PutBoolean(st, Flags[i].key, v), Flags[i].key, Flags[i].default) == v
    ensures Flags[i].key !in st.bools ==> GetBoolean(st, Flags[i].key, Flags[i].default) == Flags[i].default
    ensures forall j :: 0 <= j < |Flags| && j != i ==> Flags[j].key != Flags[i].key
  {
  }

  // ---------------------------------------------------------------------
  // The older copies: `SharedPreferencesExt.kt` of both apps and both
  // `SharedPreferencesUtils.kt`, `PhotoUtils.kt` and `VideoUtils.kt`. Their
  // facing, mode and grid setters were written for enums with fewer
  // constants; a constant they do not name is written as the empty text.

  const FrontBackFacing := Pref("last_camera_facing", "back", FrontBackTexts, Back, "")
  const PhotoVideoMode := Pref("last_camera_mode", "photo", PhotoVideoTexts, Photo, "")
  const OffOn3Grid := Pref("last_grid_mode", "off", OffOn3Texts, GridOff, "")
  const CaptureMode := Pref("photo_capture_mode", "maximize_quality", CaptureTexts, CaptureMaximizeQuality, "")
  const SelfieCaptureMode :=
    Pref("photo_capture_mode", "minimize_latency", CaptureTexts, CaptureMinimizeLatency, "minimize_latency")
  const HighestQuality := Pref("video_quality", "highest", LowestToHighestTexts, Highest, "highest")

  /** Front and back read back as written; anything else reads as back. */
  lemma {:induction false} FrontBackFacingRoundTrip(st: Store, f: CameraFacing, s: string)
    requires f == Front || f == Back
    ensures Read(Write(st, FrontBackFacing, f), FrontBackFacing) == f
    ensures s !in ["front", "back"] ==> Read(PutString(st, FrontBackFacing.key, s), FrontBackFacing) == Back
    ensures FrontBackFacing.key !in st.strings ==> Read(st, FrontBackFacing) == Back
  {
    FacingTextsDistinct();
    assert FrontBackTexts[if f == Front then 0 else 1].1 == f;
    Facts(st, FrontBackFacing, f, s);
  }

  /** Photo and video read back as written; anything else reads as photo. */
  lemma {:induction false} PhotoVideoModeRoundTrip(st: Store, m: CameraMode, s: string)
    requires m == Photo || m == Video
    ensures Read(Write(st, PhotoVideoMode, m), PhotoVideoMode) == m
    ensures s !in ["photo", "video"] ==> Read(PutString(st, PhotoVideoMode.key, s), PhotoVideoMode) == Photo
    ensures PhotoVideoMode.key !in st.strings ==> Read(st, PhotoVideoMode) == Photo
  {
    ModeTextsDistinct();
    assert PhotoVideoTexts[if m == Photo then 0 else 1].1 == m;
    Facts(st, PhotoVideoMode, m, s);
  }

  /** Off and 3x3 read back as written; anything else reads as off. */
  lemma {:induction false} OffOn3GridRoundTrip(st: Store, g: GridMode, s: string)
    requires g == GridOff || g == On3
    ensures Read(Write(st, OffOn3Grid, g), OffOn3Grid) == g
    ensures s !in ["off", "on_3"] ==> Read(PutString(st, OffOn3Grid.key, s), OffOn3Grid) == GridOff
    ensures OffOn3Grid.key !in st.strings ==> Read(st, OffOn3Grid) == GridOff
  {
    GridTextsDistinct();
    assert OffOn3Texts[if g == GridOff then 0 else 1].1 == g;
    Facts(st, OffOn3Grid, g, s);
  }

  lemma {:induction false} CaptureTextsDistinct()
    ensures NoDup(Texts(CaptureTexts))
  {
    assert Texts(CaptureTexts) == ["maximize_quality", "minimize_latency", "zero_shutter_lag"];
  }

  /** `getCaptureMode`: each of the three texts reads as its mode, and a
      missing key or any other text as maximize quality. */
  lemma {:induction false} CaptureModeReads(st: Store, s: string)
    ensures Read(PutString(st, CaptureMode.key, "maximize_quality"), CaptureMode) == CaptureMaximizeQuality
    ensures Read(PutString(st, CaptureMode.key, "minimize_latency"), CaptureMode) == CaptureMinimizeLatency
    ensures Read(PutString(st, CaptureMode.key, "zero_shutter_lag"), CaptureMode) == CaptureZeroShutterLag
    ensures s !in Texts(CaptureTexts) ==> Read(PutString(st, CaptureMode.key, s), CaptureMode) == CaptureMaximizeQuality
    ensures CaptureMode.key !in st.strings ==> Read(st, CaptureMode) == CaptureMaximizeQuality
  {
    CaptureTextsDistinct();
    DecodeAt(CaptureTexts, 1, CaptureMaximizeQuality);
    DecodeAt(CaptureTexts, 2, CaptureMaximizeQuality);
  }

  /** The selfie app's capture mode keeps all three modes; any other integer
      is written as `"minimize_latency"`, which is also what unknown or
      missing text reads as. */
  lemma {:induction false} SelfieCaptureModeRoundTrip(st: Store, c: int, s: string)
    ensures 0 <= c <= 2 ==> Read(Write(st, SelfieCaptureMode, c), SelfieCaptureMode) == c
    ensures !(0 <= c <= 2) ==> Read(Write(st, SelfieCaptureMode, c), SelfieCaptureMode) == CaptureMinimizeLatency
    ensures s !in Texts(CaptureTexts) ==> Read(PutString(st, SelfieCaptureMode.key, s), SelfieCaptureMode) == CaptureMinimizeLatency
    ensures SelfieCaptureMode.key !in st.strings ==> Read(st, SelfieCaptureMode) == CaptureMinimizeLatency
  {
    CaptureTextsDistinct();
    DecodeAt(CaptureTexts, 1, CaptureMinimizeLatency);
    if 0 <= c <= 2 {
      assert CaptureTexts[c].1 == c;
    }
    ReadWrite(st, SelfieCaptureMode, c);
  }

  /** `getVideoQuality`: the five texts read as their qualities, and a
      missing key or any other text, `"sd"` included, as highest. */
  lemma {:induction false} HighestQualityReads(st: Store, i: int, s: string)
    requires 0 <= i < |LowestToHighestTexts|
    ensures Read(PutString(st, HighestQuality.key, LowestToHighestTexts[i].0), HighestQuality) == LowestToHighestTexts[i].1
    ensures s !in Texts(LowestToHighestTexts) ==> Read(PutString(st, HighestQuality.key, s), HighestQuality) == Highest
    ensures Read(PutString(st, HighestQuality.key, "sd"), HighestQuality) == Highest
    ensures HighestQuality.key !in st.strings ==> Read(st, HighestQuality) == Highest
  {
    QualityTextsDistinct();
    DecodeAt(LowestToHighestTexts, i, Highest);
    DecodeAt(LowestToHighestTexts, 4, Highest);
  }

  /** The selfie app's setter keeps the five qualities and writes any other,
      SD included, as `"highest"`. */
  lemma {:induction false} HighestQualityRoundTrip(st: Store, q: Quality)
    ensures q != Sd ==> Read(Write(st, HighestQuality, q), HighestQuality) == q
    ensures q == Sd ==> Read(Write(st, HighestQuality, q), HighestQuality) == Highest
  {
    QualityTextsDistinct();
    if q != Sd {
      assert LowestToHighestTexts[match q
        case Lowest => 0 case Hd => 1 case Fhd => 2 case Uhd => 3 case _ => 4].1 == q;
      ReadWrite(st, HighestQuality, q);
    } else {
      assert forall i :: 0 <= i < |LowestToHighestTexts| ==> LowestToHighestTexts[i].1 != Sd;
      ReadWrite(st, HighestQuality, q);
      DecodeAt(LowestToHighestTexts, 4, Highest);
    }
  }

  /** The selfie app's `timerMode`: the raw integer, 0 when missing. */
  function SelfieTimer(st: Store): int {
    GetInt(st, TimerModeKey, 0)
  }

  /** Any integer reads back as written, unchecked against the timer
      modes; a missing key reads as 0. */
  lemma {:induction false} SelfieTimerRoundTrip(st: Store, n: int)
    ensures SelfieTimer(PutInt(st, TimerModeKey, n)) == n
    ensures TimerModeKey !in st.ints ==> SelfieTimer(st) == 0
  {
  }
}
