/** The Exif orientation tag of a picture read as the rotation and mirroring
    that display it upright. */
module Exif {
  import opened Orientation

  /** Mirror horizontally, then rotate clockwise by the rotation's offset. */
  datatype Transform = Transform(rotation: Rotation, mirror: bool)

  /** `Transform.DEFAULT`: the picture as stored. */
  const Default := Transform(Rotation0, false)

  /** The orientation codes of section 4.6.4 of the Exif standard (CIPA
      DC-008): 0 undefined, 1 normal, 2 flip horizontal, 3 rotate 180,
      4 flip vertical, 5 transpose, 6 rotate 90, 7 transverse, 8 rotate
      270. */
  const Undefined := 0
  const Normal := 1
  const FlipHorizontal := 2
  const Rotate180 := 3
  const FlipVertical := 4
  const Transpose := 5
  const Rotate90 := 6
  const Transverse := 7
  const Rotate270 := 8

  /** `orientationMap`. */
  const OrientationMap: map<int, Transform> := map[
    Undefined := Default,
    Normal := Default,
    Rotate90 := Transform(Rotation90, false),
    Rotate180 := Transform(Rotation180, false),
    Rotate270 := Transform(Rotation270, false),
    FlipHorizontal := Transform(Rotation0, true),
    FlipVertical := Transform(Rotation180, true),
    Transpose := Transform(Rotation270, true),
    Transverse := Transform(Rotation90, true)
  ]

  /** `orientationToTransform`: the mapped transform, the default for any
      other value of the tag. */
  function OrientationToTransform(code: int): (t: Transform)
    ensures code !in OrientationMap ==> t == Default
    ensures t.mirror <==> code in {FlipHorizontal, FlipVertical, Transpose, Transverse}
    ensures t == Default <==> code !in {FlipHorizontal, Rotate180, FlipVertical, Transpose, Rotate90, Transverse, Rotate270}
  {
    if code in OrientationMap then OrientationMap[code] else Default
  }

  // ---------------------------------------------------------------------
  // The standard's own description of each code

  /** A side of the picture. */
  datatype Side = Top | Bottom | Left | Right

  /** A horizontal mirror swaps left and right. */
  function MirrorSide(s: Side): Side {
    match s
    case Left => Right
    case Right => Left
    case _ => s
  }

  /** A quarter turn clockwise. */
  function TurnSide(s: Side): Side {
    match s
    case Top => Right
    case Right => Bottom
    case Bottom => Left
    case Left => Top
  }

  /** A clockwise turn by the rotation. */
  function TurnSideBy(s: Side, r: Rotation): Side {
    match r
    case Rotation0 => s
    case Rotation90 => TurnSide(s)
    case Rotation180 => TurnSide(TurnSide(s))
    case Rotation270 => TurnSide(TurnSide(TurnSide(s)))
  }

  /** Where a transform puts a side of the stored picture. */
  function Apply(t: Transform, s: Side): Side {
    TurnSideBy(if t.mirror then MirrorSide(s) else s, t.rotation)
  }

  /** The standard describes each code by the side of the displayed picture
      on which the stored picture's first row lies and the side on which
      its first column lies. */
  function FirstRowAndColumn(code: int): (Side, Side)
    requires Normal <= code <= Rotate270
  {
    if code == Normal then (Top, Left)
    else if code == FlipHorizontal then (Top, Right)
    else if code == Rotate180 then (Bottom, Right)
    else if code == FlipVertical then (Bottom, Left)
    else if code == Transpose then (Left, Top)
    else if code == Rotate90 then (Right, Top)
    else if code == Transverse then (Right, Bottom)
    else (Left, Bottom)
  }

  /** Every defined code's transform carries the stored first row and first
      column to the sides the standard names for that code. */
  lemma {:induction false} TransformMatchesStandard(code: int)
    requires Normal <= code <= Rotate270
    ensures (Apply(OrientationToTransform(code), Top), Apply(OrientationToTransform(code), Left)) == FirstRowAndColumn(code)
  {
  }

  /** A transform is fixed by where it puts the top and the left side. */
  lemma {:induction false} TransformBySides(a: Transform, b: Transform)
    requires Apply(a, Top) == Apply(b, Top) && Apply(a, Left) == Apply(b, Left)
    ensures a == b
  {
  }

  /** The code the standard gives a transform. */
  function TransformCode(t: Transform): (code: int)
    ensures Normal <= code <= Rotate270
  {
    match t
    case Transform(Rotation0, false) => Normal
    case Transform(Rotation90, false) => Rotate90
    case Transform(Rotation180, false) => Rotate180
    case Transform(Rotation270, false) => Rotate270
    case Transform(Rotation0, true) => FlipHorizontal
    case Transform(Rotation90, true) => Transverse
    case Transform(Rotation180, true) => FlipVertical
    case Transform(Rotation270, true) => Transpose
  }

  /** The eight defined codes and the eight transforms correspond one to
      one: every transform has a code that maps back to it, and every
      defined code is the code of its transform. */
  lemma {:induction false} TransformCodeRoundTrip(t: Transform, code: int)
    ensures OrientationToTransform(TransformCode(t)) == t
    ensures Normal <= code <= Rotate270 ==> TransformCode(OrientationToTransform(code)) == code
  {
  }
}
