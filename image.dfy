/** The image utilities of Image.h. A float image (`Image32f`) is a dynamic
    matrix of 3x1 real colours; an 8-bit image (`Image8i`) a dynamic matrix
    of 3x1 byte colours. Conversion clamps and truncates each channel,
    clearing blackens every pixel in place, and the raw data is the pixels'
    channels packed row-major. */
module Images {
  import opened Matrices
  import opened MatrixObjects

  /** `unsigned char`. */
  newtype byte = x: int | 0 <= x < 256

  /** `ColorRGB8i`: a 3x1 vector of bytes. */
  function ByteColor(r: byte, g: byte, b: byte): (c: Mat<byte>)
    ensures c.Valid()
  {
    Mat(3, 1, 3, 1, [r, g, b])
  }

  /** `ColorRGB32f({0, 0, 0})`. */
  function Black(): (c: Mat<real>)
    ensures IsVector3(c)
  {
    Vector3(0.0, 0.0, 0.0)
  }

  /** An `Image32f`: dynamic-size, every pixel a 3x1 colour. */
  predicate IsFloatImage(image: Mat<Mat<real>>) {
    image.staticRows == 0 && image.staticCols == 0 && image.Valid()
    && forall k :: 0 <= k < |image.data| ==> IsVector3(image.data[k])
  }

  /** An `Image8i`: dynamic-size, every pixel a 3x1 byte colour. */
  predicate IsByteImage(image: Mat<Mat<byte>>) {
    image.staticRows == 0 && image.staticCols == 0 && image.Valid()
    && forall k :: 0 <= k < |image.data| ==> image.data[k].staticRows == 3 && image.data[k].staticCols == 1
                                             && image.data[k].Valid()
  }

  // ---------------------------------------------------------------------
  // Channel conversion

  /** `std::max(0.f, std::min(255.f, x))`, with `std::min(a, b)` = `b < a ? b : a` and `std::max(a, b)` =
      `a < b ? b : a`. */
  function Clamp255(x: real): (r: real)
    ensures 0.0 <= r <= 255.0
  {
    var upper := if x < 255.0 then x else 255.0;
    if 0.0 < upper then upper else 0.0
  }

  /** One channel: scaled by 255, clamped, then truncated by the cast to `unsigned char` (the clamped
      value is never negative, so truncation is the floor). */
  function ToChannel(c: real): byte {
    (Clamp255(c * 255.0)).Floor as byte
  }

  /** Intensities at or below 0 become 0; at or above 1 they become 255. */
  lemma ToChannelSaturates(c: real)
    ensures c <= 0.0 ==> ToChannel(c) == 0
    ensures c >= 1.0 ==> ToChannel(c) == 255
  {
  }

  /** Inside [0, 1] the byte is the integer part of 255 c. */
  lemma ToChannelTruncates(c: real)
    requires 0.0 <= c <= 1.0
    ensures ToChannel(c) as real <= c * 255.0 < ToChannel(c) as real + 1.0
  {
  }

  /** A brighter input never gives a darker byte. */
  lemma ToChannelMonotone(c: real, d: real)
    requires c <= d
    ensures ToChannel(c) <= ToChannel(d)
  {
    assert Clamp255(c * 255.0) <= Clamp255(d * 255.0);
  }

  /** Byte values survive the trip to an intensity k / 255 and back. */
  lemma ToChannelOfByte(k: byte)
    ensures ToChannel(k as real / 255.0) == k
  {
    assert k as real / 255.0 * 255.0 == k as real;
  }

  /** The body of the pixel loop of `convertFloatImage2Int`. */
  function ConvertPixel(p: Mat<real>): (q: Mat<byte>)
    requires IsVector3(p)
    ensures q.Valid() && q.staticRows == 3 && q.staticCols == 1
  {
    ByteColor(ToChannel(p.data[0]), ToChannel(p.data[1]), ToChannel(p.data[2]))
  }

  /** The image `convertFloatImage2Int` returns: the same size, every pixel converted. */
  function Converted(image: Mat<Mat<real>>): (r: Mat<Mat<byte>>)
    requires IsFloatImage(image)
    ensures IsByteImage(r) && r.rows == image.rows && r.cols == image.cols
    ensures forall i: nat, j: nat :: i < r.rows && j < r.cols ==> Get(r, i, j) == ConvertPixel(Get(image, i, j))
  {
    Mat(0, 0, image.rows, image.cols, seq(|image.data|, k requires 0 <= k < |image.data| => ConvertPixel(image.data[k])))
  }

  // ---------------------------------------------------------------------
  // The imperative routines

  /** Row i of a matrix occupies buffer positions i cols .. i cols + cols - 1, in column order. */
  lemma RowPositions<T>(m: Mat<T>, i: nat)
    requires m.Valid() && i < m.rows
    ensures i * m.cols + m.cols <= |m.data|
    ensures forall j :: 0 <= j < m.cols ==> Offset(i, j, m.rows, m.cols) == i * m.cols + j
  {
    MulMonotone(i + 1, m.rows, m.cols);
  }

  /** `i * cols + j` after finishing row i is the start of row i + 1. */
  lemma NextRowStart(i: nat, cols: nat)
    ensures i * cols + cols == (i + 1) * cols
  {
  }

  /** `convertFloatImage2Int`: a new dynamic image resized to the input's size, then filled pixel by
      pixel in row-major order. */
  method ConvertFloatImage2Int(image: Mat<Mat<real>>) returns (result: Matrix<Mat<byte>>)
    requires IsFloatImage(image)
    ensures fresh(result) && result.Valid()
    ensures result.Value() == Converted(image)
  {
    var target := Converted(image);
    result := new Matrix(Mat(0, 0, 0, 0, []));
    var _ := result.Resize(image.rows, image.cols, ByteColor(0, 0, 0));
    var h, w := result.height, result.width;
    for i := 0 to h
      invariant result.Valid() && result.staticRows == 0 && result.staticCols == 0
      invariant result.height == h == image.rows && result.width == w == image.cols
      invariant forall p :: 0 <= p < i * w ==> result.data[p] == target.data[p]
    {
      ghost var start := i * w;
      RowPositions(result.Value(), i);
      RowPositions(image, i);
      for j := 0 to w
        invariant result.Valid() && result.staticRows == 0 && result.staticCols == 0
        invariant result.height == h && result.width == w
        invariant forall p :: 0 <= p < start + j ==> result.data[p] == target.data[p]
      {
        var pixel := At(image, i, j).value;
        var _ := result.Write(i, j, ConvertPixel(pixel));
      }
      NextRowStart(i, w);
    }
    assert result.data == target.data;
  }

  /** `clearImage`: every pixel written black in row-major order; the size is kept. */
  method ClearImage(image: Matrix<Mat<real>>)
    requires image.Valid()
    modifies image
    ensures image.Valid()
    ensures image.Value() == old(image.Value()).(data := seq(|old(image.data)|, _ => Black()))
  {
    var h, w := image.height, image.width;
    for i := 0 to h
      invariant image.Valid() && image.height == h && image.width == w
      invariant forall p :: 0 <= p < i * w ==> image.data[p] == Black()
    {
      ghost var start := i * w;
      RowPositions(image.Value(), i);
      for j := 0 to w
        invariant image.Valid() && image.height == h && image.width == w
        invariant forall p :: 0 <= p < start + j ==> image.data[p] == Black()
      {
        var _ := image.Write(i, j, Black());
      }
      NextRowStart(i, w);
    }
    assert image.data == seq(|old(image.data)|, _ => Black());
  }

  /** The bytes `getRawData` produces: channel k of pixel (i, j) at position 3 (i cols + j) + k. */
  function RawBytes(image: Mat<Mat<byte>>): (r: seq<byte>)
    requires IsByteImage(image)
    ensures |r| == image.rows * image.cols * 3
  {
    seq(|image.data| * 3, p requires 0 <= p < |image.data| * 3 => image.data[p / 3].data[p % 3])
  }

  /** Every byte of the raw data is the channel it was written from, and there are no others. */
  lemma RawBytesAt(image: Mat<Mat<byte>>, i: nat, j: nat, k: nat)
    requires IsByteImage(image) && i < image.rows && j < image.cols && k < 3
    ensures (i * image.cols + j) * 3 + k < |RawBytes(image)|
    ensures RawBytes(image)[(i * image.cols + j) * 3 + k] == Get(image, i, j).data[k]
  {
    IndexInRange(i, j, image.rows, image.cols);
  }

  /** `getRawData`: a new byte array of `cols * rows * 3`, filled pixel by pixel. */
  method GetRawData(image: Mat<Mat<byte>>) returns (data: array<byte>)
    requires IsByteImage(image)
    ensures fresh(data)
    ensures data[..] == RawBytes(image)
  {
    data := new byte[image.cols * image.rows * 3];
    ghost var target := RawBytes(image);
    var w := image.cols;
    for i := 0 to image.rows
      invariant data.Length == |target|
      invariant forall p :: 0 <= p < i * w * 3 ==> data[p] == target[p]
    {
      ghost var start := i * w;
      RowPositions(image, i);
      for j := 0 to w
        invariant forall p :: 0 <= p < (start + j) * 3 ==> data[p] == target[p]
      {
        var pos := (i * w + j) * 3;
        var pixel := At(image, i, j).value;
        assert pixel == image.data[start + j];
        data[pos] := AtVec(pixel, 0).value;
        data[pos + 1] := AtVec(pixel, 1).value;
        data[pos + 2] := AtVec(pixel, 2).value;
      }
      NextRowStart(i, w);
    }
    assert data[..] == target;
  }
}
