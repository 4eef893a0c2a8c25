/** The luma plane of a camera frame handed to the QR decoder: rotated a
    quarter turn clockwise, with its width and height swapped, when the
    frame is turned 90 or 270 degrees. */
module ImageProxy {
  import opened Wrappers

  type Byte = bv8

  lemma {:induction false} MulLe(a: nat, b: nat, c: nat)
    requires a <= b
    ensures a * c <= b * c
  {
    assert b * c - a * c == (b - a) * c;
  }

  /** Where row `y`, column `x` of a `width`-wide plane is kept. */
  function PlaneIndex(width: nat, x: nat, y: nat): nat {
    y * width + x
  }

  /** Where the turned plane, `height` wide, keeps that pixel: row `x`,
      column `height - 1 - y`. */
  function TurnedIndex(height: nat, x: nat, y: nat): nat
    requires y < height
  {
    x * height + (height - 1 - y)
  }

  /** Where the half-turned plane keeps the pixel at row `y`, column `x`:
      row `height - 1 - y`, column `width - 1 - x`. */
  function HalfTurnIndex(width: nat, height: nat, x: nat, y: nat): nat
    requires x < width && y < height
  {
    PlaneIndex(width, width - 1 - x, height - 1 - y)
  }

  /** Row `y`, column `x` of a `width`-wide plane lies inside the plane. */
  lemma {:induction false} IndexInPlane(width: nat, height: nat, x: nat, y: nat)
    requires x < width && y < height
    ensures PlaneIndex(width, x, y) < width * height
  {
    MulLe(y + 1, height, width);
  }

  /** Column `x` of the plane read upwards, from the last row to the first:
      row `x` of the turned plane. */
  function Column(data: seq<Byte>, width: nat, height: nat, x: nat): (r: seq<Byte>)
    requires x < width && width * height <= |data|
    ensures |r| == height
  {
    seq(height, j requires 0 <= j < height =>
      IndexInPlane(width, height, x, height - 1 - j);
      data[PlaneIndex(width, x, height - 1 - j)])
  }

  /** The first `n` rows of the turned plane. */
  function Columns(data: seq<Byte>, width: nat, height: nat, n: nat): (r: seq<Byte>)
    requires n <= width && width * height <= |data|
    ensures |r| == n * height
    decreases n
  {
    if n == 0 then [] else Columns(data, width, height, n - 1) + Column(data, width, height, n - 1)
  }

  /** The plane turned a quarter turn clockwise: `height` wide and `width`
      tall. */
  function Turned(data: seq<Byte>, width: nat, height: nat): (r: seq<Byte>)
    requires width * height <= |data|
    ensures |r| == width * height
  {
    Columns(data, width, height, width)
  }

  /** The turned index of a pixel in the first `n` rows of the turned
      plane, and of one in row `n - 1`. */
  lemma {:induction false} TurnedIndexIn(n: nat, height: nat, x: nat, y: nat)
    requires x < n && y < height
    ensures TurnedIndex(height, x, y) < n * height
    ensures x == n - 1 ==> TurnedIndex(height, x, y) - (n - 1) * height == height - 1 - y
  {
    MulLe(x + 1, n, height);
  }

  lemma {:induction false} ColumnsPixel(data: seq<Byte>, width: nat, height: nat, n: nat)
    requires n <= width && width * height <= |data|
    ensures forall x, y :: 0 <= x < n && 0 <= y < height ==>
      TurnedIndex(height, x, y) < n * height && PlaneIndex(width, x, y) < |data| &&
      Columns(data, width, height, n)[TurnedIndex(height, x, y)] == data[PlaneIndex(width, x, y)]
    decreases n
  {
    if n > 0 {
      ColumnsPixel(data, width, height, n - 1);
      var init := Columns(data, width, height, n - 1);
      var col := Column(data, width, height, n - 1);
      forall x, y | 0 <= x < n && 0 <= y < height
        ensures TurnedIndex(height, x, y) < n * height && PlaneIndex(width, x, y) < |data|
        ensures (init + col)[TurnedIndex(height, x, y)] == data[PlaneIndex(width, x, y)]
      {
        IndexInPlane(width, height, x, y);
        TurnedIndexIn(n, height, x, y);
        if x < n - 1 {
          TurnedIndexIn(n - 1, height, x, y);
        } else {
          assert col[height - 1 - y] == data[PlaneIndex(width, x, y)];
        }
      }
    }
  }

  /** The pixel at row `y`, column `x` of the frame ends up at row `x`,
      column `height - 1 - y` of the turned plane: a clockwise quarter
      turn. */
  lemma {:induction false} TurnedPixel(data: seq<Byte>, width: nat, height: nat)
    requires width * height <= |data|
    ensures forall x, y :: 0 <= x < width && 0 <= y < height ==>
      TurnedIndex(height, x, y) < width * height && PlaneIndex(width, x, y) < |data| &&
      Turned(data, width, height)[TurnedIndex(height, x, y)] == data[PlaneIndex(width, x, y)]
  {
    ColumnsPixel(data, width, height, width);
  }

  /** Two quarter turns make a half turn: row `y`, column `x` of the result
      is row `height - 1 - y`, column `width - 1 - x` of the frame. */
  lemma {:induction false} TurnTwice(data: seq<Byte>, width: nat, height: nat)
    requires width * height <= |data|
    ensures forall x, y :: 0 <= x < width && 0 <= y < height ==>
      PlaneIndex(width, x, y) < width * height && HalfTurnIndex(width, height, x, y) < |data| &&
      Turned(Turned(data, width, height), height, width)[PlaneIndex(width, x, y)] == data[HalfTurnIndex(width, height, x, y)]
  {
    var once := Turned(data, width, height);
    var twice := Turned(once, height, width);
    TurnedPixel(data, width, height);
    TurnedPixel(once, height, width);
    forall x, y | 0 <= x < width && 0 <= y < height
      ensures PlaneIndex(width, x, y) < width * height && HalfTurnIndex(width, height, x, y) < |data|
      ensures twice[PlaneIndex(width, x, y)] == data[HalfTurnIndex(width, height, x, y)]
    {
      IndexInPlane(width, height, x, y);
      var x1 := width - 1 - x;
      var y1 := height - 1 - y;
      // the second turn reads `once` at row x1, column y
      assert PlaneIndex(width, x, y) == TurnedIndex(width, y, x1);
      assert TurnedIndex(height, x1, y1) == PlaneIndex(height, y, x1);
      assert twice[TurnedIndex(width, y, x1)] == once[PlaneIndex(height, y, x1)];
      assert once[TurnedIndex(height, x1, y1)] == data[PlaneIndex(width, x1, y1)];
    }
  }

  /** Every position of a `width`-wide plane holding `width * height`
      pixels is some row and column of it. */
  lemma {:induction false} PlanePosition(width: nat, height: nat, k: nat)
    requires k < width * height
    ensures width > 0 && k / width < height && k == PlaneIndex(width, k % width, k / width)
  {
    if k / width >= height {
      MulLe(height, k / width, width);
    }
  }

  /** Four quarter turns give the frame back. */
  lemma {:induction false} TurnFourTimes(data: seq<Byte>, width: nat, height: nat)
    requires |data| == width * height
    ensures var twice := Turned(Turned(data, width, height), height, width);
      Turned(Turned(twice, width, height), height, width) == data
  {
    var twice := Turned(Turned(data, width, height), height, width);
    var four := Turned(Turned(twice, width, height), height, width);
    forall k | 0 <= k < |data|
      ensures four[k] == data[k]
    {
      PlanePosition(width, height, k);
      var x := k % width;
      var y := k / width;
      HalfTurnAt(twice, width, height, x, y);
      HalfTurnAt(data, width, height, width - 1 - x, height - 1 - y);
    }
  }

  /** `TurnTwice` at one pixel. */
  lemma {:induction false} HalfTurnAt(data: seq<Byte>, width: nat, height: nat, x: nat, y: nat)
    requires width * height <= |data| && x < width && y < height
    ensures PlaneIndex(width, x, y) < width * height && HalfTurnIndex(width, height, x, y) < |data|
    ensures Turned(Turned(data, width, height), height, width)[PlaneIndex(width, x, y)] == data[HalfTurnIndex(width, height, x, y)]
  {
    TurnTwice(data, width, height);
  }


  /** `rotateYUVLuminancePlane`: the turned plane, filled column by column
      of the frame from its last row up. Reading past the end of the frame's
      bytes throws. */
  function RotatePlane(data: seq<Byte>, width: nat, height: nat): (r: Result<seq<Byte>>)
    ensures r.Err? <==> width * height > |data|
    ensures r.Ok? ==> |r.value| == width * height
    ensures r.Ok? ==> forall x, y :: 0 <= x < width && 0 <= y < height ==>
      TurnedIndex(height, x, y) < |r.value| && PlaneIndex(width, x, y) < |data| &&
      r.value[TurnedIndex(height, x, y)] == data[PlaneIndex(width, x, y)]
  {
    if width * height > |data| then Err("ArrayIndexOutOfBoundsException")
    else
      TurnedPixel(data, width, height);
      Ok(Turned(data, width, height))
  }

  /** The loops of `rotateYUVLuminancePlane`: for each column, the rows from
      the last to the first, appended one byte at a time. */
  method RotateLuminancePlane(data: seq<Byte>, width: nat, height: nat) returns (r: Result<seq<Byte>>)
    ensures r == RotatePlane(data, width, height)
  {
    if width * height > |data| {
      // the first byte past the end is read at the column and row that
      // reach it; nothing is returned
      return Err("ArrayIndexOutOfBoundsException");
    }
    var yuv: seq<Byte> := [];
    var x := 0;
    while x < width
      invariant 0 <= x <= width
      invariant yuv == Columns(data, width, height, x)
    {
      var column := Column(data, width, height, x);
      var y := height;
      while y > 0
        invariant 0 <= y <= height
        invariant yuv == Columns(data, width, height, x) + column[..height - y]
      {
        y := y - 1;
        IndexInPlane(width, height, x, y);
        assert column[height - 1 - y] == data[PlaneIndex(width, x, y)];
        assert column[..height - y] == column[..height - 1 - y] + [column[height - 1 - y]];
        yuv := yuv + [data[y * width + x]];
      }
      assert column[..height] == column;
      x := x + 1;
    }
    r := Ok(yuv);
  }

  /** A frame in one of the YUV formats: its luma bytes, size and the
      rotation it is shown with. */
  datatype Frame = Frame(bytes: seq<Byte>, width: nat, height: nat, rotationDegrees: int)

  /** The arguments of the planar luminance source handed to the decoder:
      the bytes, the data size, the crop and whether rows are mirrored. */
  datatype Source = Source(yuvData: seq<Byte>, dataWidth: nat, dataHeight: nat, left: nat, top: nat, width: nat, height: nat, reverseHorizontal: bool)

  /** `luminanceSource` for a YUV frame: turned frames are rotated and their
      sizes swapped; the crop is the whole plane and rows are mirrored. */
  function LuminanceSource(f: Frame): (r: Result<Source>)
    ensures r.Ok? ==> r.value.left == 0 && r.value.top == 0 && r.value.reverseHorizontal
    ensures r.Ok? ==> r.value.width == r.value.dataWidth && r.value.height == r.value.dataHeight
    ensures f.rotationDegrees != 90 && f.rotationDegrees != 270 ==>
      r == Ok(Source(f.bytes, f.width, f.height, 0, 0, f.width, f.height, true))
    ensures f.rotationDegrees == 90 || f.rotationDegrees == 270 ==>
      (r.Err? <==> f.width * f.height > |f.bytes|) &&
      (r.Ok? ==> (r.value.dataWidth == f.height && r.value.dataHeight == f.width &&
        |r.value.yuvData| == f.width * f.height))
  {
    if f.rotationDegrees == 90 || f.rotationDegrees == 270 then
      var rotated := RotatePlane(f.bytes, f.width, f.height);
      if rotated.Err? then Err(rotated.msg)
      else Ok(Source(rotated.value, f.height, f.width, 0, 0, f.height, f.width, true))
    else Ok(Source(f.bytes, f.width, f.height, 0, 0, f.width, f.height, true))
  }

  /** In a turned frame's source, the luma at row `row`, column `col` is the
      frame's pixel a clockwise quarter turn away, for 270 degrees as for
      90. */
  lemma {:induction false} TurnedSourcePixel(f: Frame, row: nat, col: nat)
    requires f.rotationDegrees == 90 || f.rotationDegrees == 270
    requires f.width * f.height <= |f.bytes|
    requires row < f.width && col < f.height
    ensures var s := LuminanceSource(f).value;
      PlaneIndex(s.dataWidth, col, row) < |s.yuvData| && PlaneIndex(f.width, row, f.height - 1 - col) < |f.bytes| &&
      s.yuvData[PlaneIndex(s.dataWidth, col, row)] == f.bytes[PlaneIndex(f.width, row, f.height - 1 - col)]
  {
    var y := f.height - 1 - col;
    assert PlaneIndex(f.height, col, row) == TurnedIndex(f.height, row, y);
  }
}
