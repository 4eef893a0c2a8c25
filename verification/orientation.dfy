/** Device rotation: the four screen rotations, the rotation a sensor
    reading falls into, and the on-screen level indicator. */
module Orientation {
  import opened Wrappers
  import opened Seqs

  datatype Rotation = Rotation0 | Rotation90 | Rotation180 | Rotation270

  /** The constants in declaration order. */
  const Rotations: seq<Rotation> := [Rotation0, Rotation90, Rotation180, Rotation270]

  /** The angle, added to a multiple of 360 degrees, that gives the
      rotation. */
  function Offset(r: Rotation): int {
    match r
    case Rotation0 => 0
    case Rotation90 => 90
    case Rotation180 => 180
    case Rotation270 => 270
  }

  /** The half-width, in degrees, of the arc that counts as a rotation. */
  const ApertureHalf := 45

  /** `compensationValue`: 360 minus the offset taken in (-180, 180]. */
  function Compensation(r: Rotation): (c: int)
    ensures 180 <= c <= 450
    ensures Offset(r) + c == 360 || Offset(r) + c == 720
  {
    360 - (if Offset(r) > 180 then Offset(r) - 360 else Offset(r))
  }

  /** A half-open interval of degrees, `lo until hi`. */
  datatype Range = Range(lo: int, hi: int)

  predicate InRange(g: Range, d: int) {
    g.lo <= d < g.hi
  }

  /** The arcs of `[0, 360)` within 45 degrees of the offset, before it on the
      left and from it on the right; an arc crossing 0 is split in two. */
  function ApertureRanges(r: Rotation): seq<Range> {
    var o := Offset(r);
    var left :=
      if o < ApertureHalf then [Range(360 - o - ApertureHalf, 360), Range(0, o)]
      else [Range(o - ApertureHalf, o)];
    var right :=
      if o > 360 - ApertureHalf then [Range(o, 360), Range(0, 360 - o + ApertureHalf)]
      else [Range(o, o + ApertureHalf)];
    left + right
  }

  /** Whether any of the ranges holds the value. */
  predicate InRanges(rs: seq<Range>, d: int) {
    exists i :: 0 <= i < |rs| && InRange(rs[i], d)
  }

  lemma {:induction false} InRangesOfTwo(rs: seq<Range>, d: int)
    requires |rs| == 2
    ensures InRanges(rs, d) <==> InRange(rs[0], d) || InRange(rs[1], d)
  {
    if InRange(rs[1], d) {
      assert 0 <= 1 < |rs| && InRange(rs[1], d);
    }
  }

  lemma {:induction false} InRangesOfThree(rs: seq<Range>, d: int)
    requires |rs| == 3
    ensures InRanges(rs, d) <==> InRange(rs[0], d) || InRange(rs[1], d) || InRange(rs[2], d)
  {
    if InRange(rs[1], d) {
      assert 0 <= 1 < |rs| && InRange(rs[1], d);
    }
    if InRange(rs[2], d) {
      assert 0 <= 2 < |rs| && InRange(rs[2], d);
    }
  }

  predicate InAperture(r: Rotation, d: int) {
    InRanges(ApertureRanges(r), d)
  }

  /** The aperture of each rotation, written out. */
  lemma {:induction false} ApertureArcs(d: int)
    ensures InAperture(Rotation0, d) <==> 315 <= d < 360 || 0 <= d < 45
    ensures InAperture(Rotation90, d) <==> 45 <= d < 135
    ensures InAperture(Rotation180, d) <==> 135 <= d < 225
    ensures InAperture(Rotation270, d) <==> 225 <= d < 315
  {
    InRangesOfThree(ApertureRanges(Rotation0), d);
    InRangesOfTwo(ApertureRanges(Rotation90), d);
    InRangesOfTwo(ApertureRanges(Rotation180), d);
    InRangesOfTwo(ApertureRanges(Rotation270), d);
  }

  /** `fromDegreesInAperture`: the first rotation whose aperture holds the
      reading; `first` throws when none does. */
  function FromDegreesInAperture(d: int): (r: Result<Rotation>)
    ensures r.Err? <==> !(0 <= d < 360)
    ensures r.Ok? ==> InAperture(r.value, d)
  {
    ApertureArcs(d);
    match FirstWhere(Rotations, (x: Rotation) => InAperture(x, d))
    case Some(x) => Ok(x)
    case None =>
      assert !InAperture(Rotations[0], d) && !InAperture(Rotations[1], d);
      assert !InAperture(Rotations[2], d) && !InAperture(Rotations[3], d);
      Err("NoSuchElementException: Array contains no element matching the predicate.")
  }

  /** The apertures partition `[0, 360)`: the result is the only rotation
      whose aperture holds the reading, and the reading lies within 45
      degrees below or less than 45 degrees above its offset, going round the
      circle. */
  lemma {:induction false} FromDegreesIsNearest(d: int, x: Rotation)
    requires 0 <= d < 360
    ensures InAperture(x, d) <==> FromDegreesInAperture(d) == Ok(x)
    ensures var o := Offset(FromDegreesInAperture(d).value);
      -ApertureHalf <= d - o < ApertureHalf || -ApertureHalf <= d - 360 - o < ApertureHalf
  {
    ApertureArcs(d);
  }

  // ---------------------------------------------------------------------
  // Level indicator

  /** `OrientationEventListener.ORIENTATION_UNKNOWN`. */
  const OrientationUnknown := -1

  /** The zone, in degrees either side of a right angle, that counts as
      level. */
  const LevelZone := 2

  /** Java's `%`, which truncates toward zero: the remainder takes the sign
      of the dividend, and differs from the Euclidean one by `b` when the
      dividend is negative and not a multiple. */
  function JavaRem(a: int, b: int): (r: int)
    requires b > 0
    ensures a >= 0 ==> 0 <= r < b && r == a % b
    ensures a < 0 ==> -b < r <= 0
    ensures a < 0 ==> (r == 0 <==> a % b == 0) && (r != 0 ==> r == a % b - b)
  {
    if a >= 0 then a % b
    else
      var q, m := (-a) / b, (-a) % b;
      if m == 0 then
        ModOfMultiple(a, b, -q, 0);
        0
      else
        ModOfMultiple(a, b, -q - 1, b - m);
        -m
  }

  /** The Euclidean remainder is the unique one in `[0, b)`. */
  lemma {:induction false} ModOfMultiple(a: int, b: int, q: int, m: int)
    requires b > 0 && 0 <= m < b && a == q * b + m
    ensures a % b == m
  {
    var q2, m2 := a / b, a % b;
    var d := q - q2;
    assert d * b == m2 - m by {
      assert q * b - q2 * b == m2 - m;
      assert d * b == q * b - q2 * b;
    }
    if d >= 1 {
      MulAtLeast(d, b);
    } else if d <= -1 {
      MulAtMost(d, b);
    }
  }

  lemma {:induction false} MulAtLeast(k: int, b: int)
    requires k >= 1 && b > 0
    ensures k * b >= b
  {
    assert k * b == (k - 1) * b + b;
    assert (k - 1) * b >= 0;
  }

  lemma {:induction false} MulAtMost(k: int, b: int)
    requires k <= -1 && b > 0
    ensures k * b <= -b
  {
    assert k * b == (k + 1) * b - b;
    assert (k + 1) * b <= 0;
  }

  /** `isLevel`: within two degrees of a multiple of 90. */
  predicate IsLevel(o: int) {
    var m := JavaRem(o, 90);
    m < LevelZone || 90 - m < LevelZone
  }

  /** `isLandscape`: `45..134` or `225..314`, both ends included. */
  predicate IsLandscape(o: int) {
    45 <= o <= 134 || 225 <= o <= 314
  }

  /** For a sensor reading, level means 0, 1 or 89 past a multiple of 90,
      and a negative reading always counts as level. */
  lemma {:induction false} IsLevelReadings(o: int)
    ensures 0 <= o ==> (IsLevel(o) <==> o % 90 == 0 || o % 90 == 1 || o % 90 == 89)
    ensures o < 0 ==> IsLevel(o)
  {
  }

  /** Landscape is exactly the apertures of the 90 and 270 degree
      rotations. */
  lemma {:induction false} LandscapeIsSideways(o: int)
    ensures 0 <= o < 360 ==> (IsLandscape(o) <==>
      FromDegreesInAperture(o) == Ok(Rotation90) || FromDegreesInAperture(o) == Ok(Rotation270))
  {
    if 0 <= o < 360 {
      FromDegreesIsNearest(o, Rotation90);
      FromDegreesIsNearest(o, Rotation270);
      ApertureArcs(o);
    }
  }

  /** `onOrientationChanged`: an unknown reading keeps the last one. */
  function OnOrientationChanged(current: int, reading: int): (r: int)
    ensures reading != OrientationUnknown ==> r == reading
    ensures reading == OrientationUnknown ==> r == current
  {
    if reading == OrientationUnknown then current else reading
  }

  /** The view's orientation after a series of readings, starting unknown. */
  function AfterReadings(readings: seq<int>): (r: int)
    decreases |readings|
  {
    if |readings| == 0 then OrientationUnknown
    else OnOrientationChanged(AfterReadings(readings[..|readings| - 1]), readings[|readings| - 1])
  }

  /** The view shows the last known reading, and stays unknown only while
      every reading was unknown. */
  lemma {:induction false} AfterReadingsIsLastKnown(readings: seq<int>)
    ensures AfterReadings(readings) == OrientationUnknown <==>
      forall i :: 0 <= i < |readings| ==> readings[i] == OrientationUnknown
    ensures AfterReadings(readings) != OrientationUnknown ==>
      exists i :: 0 <= i < |readings| && readings[i] == AfterReadings(readings) &&
        forall j :: i < j < |readings| ==> readings[j] == OrientationUnknown
    decreases |readings|
  {
    if |readings| > 0 {
      var init := readings[..|readings| - 1];
      var last := readings[|readings| - 1];
      AfterReadingsIsLastKnown(init);
      assert forall i :: 0 <= i < |init| ==> init[i] == readings[i];
      if last == OrientationUnknown {
        assert AfterReadings(readings) == AfterReadings(init);
        if AfterReadings(init) != OrientationUnknown {
          var i :| 0 <= i < |init| && init[i] == AfterReadings(init) &&
            forall j :: i < j < |init| ==> init[j] == OrientationUnknown;
          assert readings[i] == AfterReadings(readings);
        }
      } else {
        assert readings[|readings| - 1] == AfterReadings(readings);
      }
    }
  }

  /** What one frame of the leveler draws: the base highlighted when level
      and turned when landscape, and the tilted line unless level. */
  datatype Frame = Frame(highlighted: bool, landscape: bool, levelLine: bool)

  /** `onDraw`: nothing while the orientation is unknown. */
  function Draw(current: int): (r: Option<Frame>)
    ensures r.None? <==> current == OrientationUnknown
    ensures r.Some? ==> r.value.levelLine == !r.value.highlighted
    ensures r.Some? && 0 <= current < 360 ==> (r.value.landscape <==>
      FromDegreesInAperture(current) == Ok(Rotation90) || FromDegreesInAperture(current) == Ok(Rotation270))
  {
    if current == OrientationUnknown then None
    else
      var level := IsLevel(current);
      LandscapeIsSideways(current);
      Some(Frame(level, IsLandscape(current), !level))
  }
}
