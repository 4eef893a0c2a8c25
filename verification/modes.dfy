/** The camera's small enums and their selection rules: the grid and flash
    cycles, the allowed flash modes per camera mode, the self-timer, the frame
    rates and the stabilization fallbacks. */
module Modes {
  import opened Wrappers
  import opened Seqs
  import opened Cycle

  // ---------------------------------------------------------------------
  // Grid

  datatype GridMode = GridOff | On3 | On4 | OnGoldenRatio

  /** The constants in declaration order. */
  const GridModes: seq<GridMode> := [GridOff, On3, On4, OnGoldenRatio]

  lemma {:induction false} GridModesComplete(m: GridMode)
    ensures m in GridModes && NoDup(GridModes)
  {
  }

  /** `next` over the declaration order. */
  function GridNext(m: GridMode): (r: GridMode)
    ensures r != m
  {
    GridModesComplete(m);
    EnumNext(GridModes, m)
  }

  /** The grid cycle is `OFF, ON_3, ON_4, ON_GOLDENRATIO` and back, so four
      steps return to the start. */
  lemma {:induction false} GridCycle(m: GridMode)
    ensures GridNext(GridOff) == On3 && GridNext(On3) == On4
    ensures GridNext(On4) == OnGoldenRatio && GridNext(OnGoldenRatio) == GridOff
    ensures GridNext(GridNext(GridNext(GridNext(m)))) == m
  {
  }

  // ---------------------------------------------------------------------
  // Flash

  /** Both flash enums declare these four constants in this order; red-eye
      reduction is commented out. */
  datatype FlashMode = FlashOff | FlashAuto | FlashOn | Torch

  const FlashModes: seq<FlashMode> := [FlashOff, FlashAuto, FlashOn, Torch]

  lemma {:induction false} FlashModesComplete(m: FlashMode)
    ensures m in FlashModes && NoDup(FlashModes)
  {
  }

  function FlashNext(m: FlashMode): (r: FlashMode)
    ensures r != m
  {
    FlashModesComplete(m);
    EnumNext(FlashModes, m)
  }

  /** `OFF, AUTO, ON, TORCH` and back to `OFF`, by the general cycle
      property of `next` over distinct constants. */
  lemma {:induction false} FlashCycle(m: FlashMode)
    ensures FlashNext(Torch) == FlashOff
    ensures FlashNext(FlashNext(FlashNext(FlashNext(m)))) == m
  {
    FlashModesComplete(m);
    NextCycle(FlashModes, m);
    var m1 := FlashNext(m);
    var m2 := FlashNext(m1);
    var m3 := FlashNext(m2);
    assert NextN(FlashModes, m3, 1) == FlashNext(m3);
    assert NextN(FlashModes, m2, 2) == FlashNext(m3);
    assert NextN(FlashModes, m1, 3) == FlashNext(m3);
  }

  const PhotoAllowedModes: seq<FlashMode> := [FlashOff, FlashAuto, FlashOn, Torch]
  const VideoAllowedModes: seq<FlashMode> := [FlashOff, Torch]

  /** Photos allow every mode; videos exactly off and torch, a subset. */
  lemma {:induction false} AllowedModes(m: FlashMode)
    ensures m in PhotoAllowedModes
    ensures m in VideoAllowedModes <==> m == FlashOff || m == Torch
    ensures m in VideoAllowedModes ==> m in PhotoAllowedModes
  {
  }

  // ---------------------------------------------------------------------
  // Self-timer

  datatype TimerMode = TimerOff | On3s | On10s

  const TimerModes: seq<TimerMode> := [TimerOff, On3s, On10s]

  function Seconds(m: TimerMode): int {
    match m
    case TimerOff => 0
    case On3s => 3
    case On10s => 10
  }

  /** `fromSeconds`: the first mode with these seconds, if any. */
  function FromSeconds(n: int): (r: Option<TimerMode>)
    ensures r.Some? ==> Seconds(r.value) == n
    ensures r.None? <==> n != 0 && n != 3 && n != 10
  {
    var r := FirstWhere(TimerModes, m => Seconds(m) == n);
    assert r.None? <==> n != 0 && n != 3 && n != 10 by {
      assert Seconds(TimerModes[0]) == 0 && Seconds(TimerModes[1]) == 3 && Seconds(TimerModes[2]) == 10;
    }
    r
  }

  /** The seconds identify the mode. */
  lemma {:induction false} FromSecondsRoundTrip(m: TimerMode)
    ensures FromSeconds(Seconds(m)) == Some(m)
  {
  }

  // ---------------------------------------------------------------------
  // Frame rates

  /** Both frame-rate enums declare these four constants in this order. */
  datatype FrameRate = Fps24 | Fps30 | Fps60 | Fps120

  const FrameRates: seq<FrameRate> := [Fps24, Fps30, Fps60, Fps120]

  function Value(f: FrameRate): int {
    match f
    case Fps24 => 24
    case Fps30 => 30
    case Fps60 => 60
    case Fps120 => 120
  }

  /** The declaration position, which enum comparison uses. */
  function Ordinal(f: FrameRate): int {
    match f
    case Fps24 => 0
    case Fps30 => 1
    case Fps60 => 2
    case Fps120 => 3
  }

  /** Comparing by declaration order is comparing by value. */
  lemma {:induction false} OrdinalOrdersValues(a: FrameRate, b: FrameRate)
    ensures Ordinal(a) <= Ordinal(b) <==> Value(a) <= Value(b)
    ensures Ordinal(a) == Ordinal(b) <==> a == b
  {
  }

  function FromValue(v: int): (r: Option<FrameRate>)
    ensures r.Some? ==> Value(r.value) == v
    ensures r.None? <==> v !in {24, 30, 60, 120}
  {
    var r := FirstWhere(FrameRates, f => Value(f) == v);
    assert r.None? <==> v !in {24, 30, 60, 120} by {
      assert Value(FrameRates[0]) == 24 && Value(FrameRates[1]) == 30;
      assert Value(FrameRates[2]) == 60 && Value(FrameRates[3]) == 120;
    }
    r
  }

  lemma {:induction false} FromValueRoundTrip(f: FrameRate)
    ensures FromValue(Value(f)) == Some(f)
  {
  }

  /** `fromRange`: only a single-value range names a frame rate. */
  function FromRange(lower: int, upper: int): (r: Option<FrameRate>)
    ensures r.Some? ==> lower == upper && Value(r.value) == upper
    ensures lower == upper ==> r == FromValue(upper)
  {
    if lower == upper then FromValue(upper) else None
  }

  /** The largest element of a non-empty list: the head of its descending
      sort. */
  function Largest(s: seq<FrameRate>): (r: FrameRate)
    requires |s| > 0
    ensures r in s && forall i :: 0 <= i < |s| ==> Ordinal(s[i]) <= Ordinal(r)
    decreases |s|
  {
    if |s| == 1 then s[0]
    else
      var m := Largest(s[1..]);
      assert forall i :: 1 <= i < |s| ==> s[i] == s[1..][i - 1];
      if Ordinal(s[0]) >= Ordinal(m) then s[0] else m
  }

  /** The smallest element of a non-empty list: the head of its sort. */
  function Smallest(s: seq<FrameRate>): (r: FrameRate)
    requires |s| > 0
    ensures r in s && forall i :: 0 <= i < |s| ==> Ordinal(r) <= Ordinal(s[i])
    decreases |s|
  {
    if |s| == 1 then s[0]
    else
      var m := Smallest(s[1..]);
      assert forall i :: 1 <= i < |s| ==> s[i] == s[1..][i - 1];
      if Ordinal(s[0]) <= Ordinal(m) then s[0] else m
  }

  /** `getLowerOrHigher`: the first of the candidates at most this rate in
      descending order followed by the larger ones in ascending order. */
  function LowerOrHigher(cur: FrameRate, rates: seq<FrameRate>): (r: Option<FrameRate>)
    ensures r.None? <==> |rates| == 0
    ensures r.Some? ==> r.value in rates
    ensures (exists i :: 0 <= i < |rates| && Ordinal(rates[i]) <= Ordinal(cur)) ==>
      Ordinal(r.value) <= Ordinal(cur) &&
      forall i :: 0 <= i < |rates| && Ordinal(rates[i]) <= Ordinal(cur) ==> Ordinal(rates[i]) <= Ordinal(r.value)
    ensures (forall i :: 0 <= i < |rates| ==> Ordinal(rates[i]) > Ordinal(cur)) && r.Some? ==>
      Ordinal(r.value) > Ordinal(cur) && forall i :: 0 <= i < |rates| ==> Ordinal(r.value) <= Ordinal(rates[i])
  {
    var smaller := Filter(rates, f => Ordinal(f) <= Ordinal(cur));
    var bigger := Filter(rates, f => Ordinal(f) > Ordinal(cur));
    assert forall i :: 0 <= i < |rates| ==> rates[i] in smaller || rates[i] in bigger;
    if |smaller| > 0 then Some(Largest(smaller))
    else if |bigger| > 0 then Some(Smallest(bigger))
    else None
  }

  /** A supported rate is kept as it is. */
  lemma {:induction false} LowerOrHigherOfMember(cur: FrameRate, rates: seq<FrameRate>)
    requires cur in rates
    ensures LowerOrHigher(cur, rates) == Some(cur)
  {
    var r := LowerOrHigher(cur, rates).value;
    var k :| 0 <= k < |rates| && rates[k] == cur;
    OrdinalOrdersValues(r, cur);
  }

  // ---------------------------------------------------------------------
  // Stabilization

  datatype CameraMode = Photo | Video | Qr

  /** Which way a camera points; `UNKNOWN` comes first in every copy. */
  datatype CameraFacing = FacingUnknown | Front | Back | External

  /** CameraX's video qualities, the ones the sources name. */
  datatype Quality = Lowest | Sd | Hd | Fhd | Uhd | Highest

  datatype StabilizationMode = StabilizationOff | Digital | Optical | Hybrid

  function StabilizationRank(m: StabilizationMode): int {
    match m
    case StabilizationOff => 0
    case Digital => 1
    case Optical => 2
    case Hybrid => 3
  }

  /** `getClosestMode`: the requested mode when supported, else digital
      stabilization for an unsupported hybrid one, or for an unsupported
      optical one while recording video, when digital is supported; else
      off. */
  function ClosestMode(cur: StabilizationMode, supported: set<StabilizationMode>, mode: CameraMode): (r: StabilizationMode)
    ensures r == cur || r == Digital || r == StabilizationOff
    ensures r != StabilizationOff ==> r in supported
    ensures cur in supported ==> r == cur
    ensures r != cur ==> StabilizationRank(r) < StabilizationRank(cur)
  {
    if cur in supported then cur
    else if cur == Hybrid && Digital in supported then Digital
    else if cur == Optical && mode == Video && Digital in supported then Digital
    else StabilizationOff
  }

  /** Requesting off always gives off; optical falls back to digital only in
      video mode. */
  lemma {:induction false} ClosestModeFallbacks(supported: set<StabilizationMode>, mode: CameraMode)
    ensures ClosestMode(StabilizationOff, supported, mode) == StabilizationOff
    ensures Optical !in supported && Digital in supported ==>
      (ClosestMode(Optical, supported, mode) == Digital <==> mode == Video)
    ensures Hybrid !in supported && Digital in supported ==> ClosestMode(Hybrid, supported, mode) == Digital
  {
  }

  datatype VideoStabilizationMode = VideoOff | VideoOn | VideoOnPreview

  function VideoRank(m: VideoStabilizationMode): int {
    match m
    case VideoOff => 0
    case VideoOn => 1
    case VideoOnPreview => 2
  }

  /** `getMode`: the strongest supported mode, off when neither on mode is
      supported. */
  function VideoMode(supported: set<VideoStabilizationMode>): (r: VideoStabilizationMode)
    ensures r == VideoOff || r in supported
    ensures forall m :: m in supported ==> VideoRank(m) <= VideoRank(r)
  {
    if VideoOnPreview in supported then VideoOnPreview
    else if VideoOn in supported then VideoOn
    else VideoOff
  }
}
