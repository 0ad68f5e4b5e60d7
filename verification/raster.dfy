/**
  The raster of the pixel route: an RGBA buffer of width * height pixels,
  four bytes per pixel in row-major order, filled with one colour by a loop
  over the columns x and, inside it, the rows y, writing the pixel at byte
  offset `(width * y + x) << 2`.
 */
module Raster {
  import opened Bits
  import opened Js
  import opened Color

  /** The four bytes of pixel p of an RGBA buffer. */
  function PixelAt(data: seq<Byte>, p: nat): Rgba
    requires 4 * p + 4 <= |data|
  {
    Rgba(data[4 * p], data[4 * p + 1], data[4 * p + 2], data[4 * p + 3])
  }

  /**
    Whether the loops have reached pixel p once they stand at column x, row y:
    every earlier column is done, and so is every earlier row of column x.
   */
  predicate Painted(width: nat, p: nat, x: nat, y: nat)
    requires width > 0
  {
    p % width < x || (p % width == x && p / width < y)
  }

  /**
    The fill loop. The buffer starts zeroed; on return every one of the
    width * height pixels holds `pixel`.
   */
  method Fill(width: nat, height: nat, pixel: Rgba) returns (data: seq<Byte>)
    requires 0 < width && 0 < height && width * height < 0x2000_0000
    ensures |data| == 4 * (width * height)
    ensures forall p :: 0 <= p < width * height ==> PixelAt(data, p) == pixel
  {
    var n := width * height;
    data := seq(4 * n, _ => 0);
    var x := 0;
    while x < width
      invariant 0 <= x <= width
      invariant |data| == 4 * n
      invariant forall p :: 0 <= p < n && p % width < x ==> PixelAt(data, p) == pixel
    {
      var y := 0;
      while y < height
        invariant 0 <= y <= height
        invariant |data| == 4 * n
        invariant forall p :: 0 <= p < n && Painted(width, p, x, y) ==> PixelAt(data, p) == pixel
      {
        var cell := width * y + x;
        Cell(width, height, x, y);
        var idx := Offset(width, height, x, y);
        var before := data;
        data := Paint(data, idx, pixel);
        forall p | 0 <= p < n && Painted(width, p, x, y + 1)
          ensures PixelAt(data, p) == pixel
        {
          if p != cell {
            PaintedStep(width, x, y, p);
          }
        }
        y := y + 1;
      }
      forall p | 0 <= p < n && p % width < x + 1
        ensures PixelAt(data, p) == pixel
      {
        RowOf(width, height, p);
      }
      x := x + 1;
    }
  }

  /** `(width * y + x) << 2`: the byte offset of the pixel at column x, row y, which never wraps. */
  function Offset(width: nat, height: nat, x: nat, y: nat): (idx: int)
    requires x < width && y < height && width * height < 0x2000_0000
    ensures idx == 4 * (width * y + x)
    ensures 0 <= idx && idx + 4 <= 4 * (width * height)
  {
    Cell(width, height, x, y);
    Pow2Constants();
    ShiftLeft(Int(width * y + x), 2)
  }

  /** The four writes `data[idx + 0..3]`: pixel idx / 4 takes the colour, every other pixel keeps its bytes. */
  function Paint(data: seq<Byte>, idx: nat, pixel: Rgba): (r: seq<Byte>)
    requires idx % 4 == 0 && idx + 4 <= |data|
    ensures |r| == |data|
    ensures forall q :: 0 <= q && 4 * q + 4 <= |data| ==>
      PixelAt(r, q) == if 4 * q == idx then pixel else PixelAt(data, q)
  {
    data[idx := pixel.red][idx + 1 := pixel.green][idx + 2 := pixel.blue][idx + 3 := pixel.alpha]
  }

  /** The pixel at column x, row y lies inside the buffer and is found again from its index. */
  lemma Cell(width: nat, height: nat, x: nat, y: nat)
    requires x < width && y < height
    ensures width * y + x < width * height
    ensures (width * y + x) % width == x && (width * y + x) / width == y
  {
    ModUnique(width * y + x, width, y, x);
    assert width * y + x < width * (y + 1);
    if y + 1 < height {
      MulAtLeast(width, height - (y + 1));
      assert width * height == width * (y + 1) + width * (height - (y + 1));
    }
  }

  /** Every pixel index of the buffer has its row below height. */
  lemma RowOf(width: nat, height: nat, p: nat)
    requires 0 < width && p < width * height
    ensures p / width < height
  {
    var q := p / width;
    assert width * q <= p;
    assert width * height - width * q == width * (height - q);
  }

  /** A pixel painted after step (x, y) other than that cell was painted before it. */
  lemma PaintedStep(width: nat, x: nat, y: nat, p: nat)
    requires 0 < width && x < width
    requires Painted(width, p, x, y + 1) && p != width * y + x
    ensures Painted(width, p, x, y)
  {
    assert p == width * (p / width) + p % width;
  }
}
