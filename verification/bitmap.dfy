/** RGBA bitmaps on their way to PNG files: the premultiplied-to-straight alpha
    conversion and validity gate of save_bitmap_as_png (src/bitmap.rs), the
    row gathering both versions do, the PNG file names, and the C++
    extract_bitmap_from_frame (src/bitmap_processor.cpp). */
module Bitmap {
  import opened Wrappers
  import opened Text

  type Byte = b: int | 0 <= b < 256

  /** RGBA pixels, `stride` bytes per row. */
  datatype BitmapData = BitmapData(data: seq<Byte>, width: int, height: int, stride: int)

  /** The validity gate shared by both save_bitmap_as_png versions. */
  predicate SaveAccepts(b: BitmapData)
  {
    |b.data| > 0 && b.width > 0 && b.height > 0
  }

  // ---------------------------------------------------------------------------
  // Straight alpha

  /** One colour channel of a pixel with alpha a > 0, computed in u16. */
  function Unpremultiply(c: Byte, a: Byte): Byte
    requires a > 0
  {
    var q := (c * 255 + a / 2) / a;
    if q < 255 then q else 255
  }

  /** The u16 intermediate c*255 + a/2 never exceeds 65152, below 2^16. */
  lemma NoU16Overflow(c: Byte, a: Byte)
    ensures c * 255 + a / 2 <= 65152 < 65536
  {
  }

  /** For a premultiplied channel (c <= a) the result is the nearest integer
      to c*255/a: r*a lies within a/2 of c*255; above that it saturates. */
  lemma UnpremultiplyRounds(c: Byte, a: Byte)
    requires a > 0
    ensures var r: int := Unpremultiply(c, a);
      c <= a ==> 0 - a <= 2 * (r * a - c * 255) <= a
    ensures c > a ==> Unpremultiply(c, a) == 255
  {
    var x: int := c * 255 + a / 2;
    var q := x / a;
    assert x == q * a + x % a && 0 <= x % a < a;
    if c <= a {
      QuotientBelow(x, a, 256);
    } else {
      QuotientAtLeast(x, a, 255);
    }
  }

  lemma QuotientBelow(x: int, a: int, k: int)
    requires a > 0 && 0 <= x < k * a
    ensures x / a < k
  {
    MulMonoLe(k, x / a, a);
  }

  lemma QuotientAtLeast(x: int, a: int, k: int)
    requires a > 0 && x >= k * a
    ensures x / a >= k
  {
    MulMonoLe(x / a + 1, k, a);
  }

  lemma MulMonoLe(p: int, q: int, a: int)
    ensures p <= q && a >= 0 ==> p * a <= q * a
  {
  }

  /** Fully opaque pixels keep their colour. */
  lemma OpaqueUnchanged(c: Byte)
    ensures Unpremultiply(c, 255) == c
  {
    UnpremultiplyRounds(c, 255);
  }

  /** Half-transparent full red, (128,0,0,128), becomes (255,0,0,128). */
  lemma HalfRedExample()
    ensures Unpremultiply(128, 128) == 255 && Unpremultiply(0, 128) == 0
  {
  }

  /** Byte i of the converted image: inside a whole 4-byte chunk a colour
      byte is zeroed when the chunk's alpha is 0 and unpremultiplied
      otherwise; alpha bytes and the bytes of a trailing partial chunk are
      kept. */
  function StraightByte(s: seq<Byte>, i: nat): Byte
    requires i < |s|
  {
    var base := i - i % 4;
    if base + 4 > |s| || i % 4 == 3 then s[i]
    else if s[base + 3] == 0 then 0
    else Unpremultiply(s[i], s[base + 3])
  }

  /** The straight-alpha image, byte by byte. */
  function StraightAlpha(s: seq<Byte>): (r: seq<Byte>)
    ensures |r| == |s|
  {
    seq(|s|, i requires 0 <= i < |s| => StraightByte(s, i))
  }

  lemma ChunkOf(i: int, j: int)
    requires i >= 0 && i % 4 == 0 && 0 <= j < 4
    ensures (i + j) % 4 == j && (i + j) - (i + j) % 4 == i
  {
  }

  lemma ChunkStartAtLeast(i: int, k: int)
    requires 0 <= i <= k && i % 4 == 0
    ensures k - k % 4 >= i
  {
  }

  /** The conversion loop of save_bitmap_as_png, chunk by chunk in place. */
  method ToStraightAlpha(img: array<Byte>)
    modifies img
    ensures img[..] == StraightAlpha(old(img[..]))
  {
    ghost var s := img[..];
    var i := 0;
    while i + 4 <= img.Length
      invariant 0 <= i <= img.Length && i % 4 == 0
      invariant forall k :: 0 <= k < i ==> img[k] == StraightByte(s, k)
      invariant forall k :: i <= k < img.Length ==> img[k] == s[k]
      decreases img.Length - i
    {
      var a := img[i + 3];
      if a == 0 {
        img[i] := 0;
        img[i + 1] := 0;
        img[i + 2] := 0;
      } else {
        img[i] := Unpremultiply(img[i], a);
        img[i + 1] := Unpremultiply(img[i + 1], a);
        img[i + 2] := Unpremultiply(img[i + 2], a);
      }
      ChunkOf(i, 0);
      ChunkOf(i, 1);
      ChunkOf(i, 2);
      ChunkOf(i, 3);
      i := i + 4;
    }
    forall k | i <= k < img.Length
      ensures img[k] == StraightByte(s, k)
    {
      ChunkStartAtLeast(i, k);
    }
  }

  /** Every alpha byte is kept and a transparent pixel comes out black. */
  lemma StraightAlphaPixel(s: seq<Byte>, p: nat)
    requires 4 * p + 4 <= |s|
    ensures StraightAlpha(s)[4 * p + 3] == s[4 * p + 3]
    ensures s[4 * p + 3] == 0 ==> StraightAlpha(s)[4 * p] == 0 == StraightAlpha(s)[4 * p + 1] == StraightAlpha(s)[4 * p + 2]
    ensures s[4 * p + 3] > 0 ==>
      StraightAlpha(s)[4 * p] == Unpremultiply(s[4 * p], s[4 * p + 3])
      && StraightAlpha(s)[4 * p + 1] == Unpremultiply(s[4 * p + 1], s[4 * p + 3])
      && StraightAlpha(s)[4 * p + 2] == Unpremultiply(s[4 * p + 2], s[4 * p + 3])
  {
    ChunkOf(4 * p, 0);
    ChunkOf(4 * p, 1);
    ChunkOf(4 * p, 2);
    ChunkOf(4 * p, 3);
  }

  /** An image of opaque pixels only is left as it is. */
  lemma OpaqueImageUnchanged(s: seq<Byte>)
    requires |s| % 4 == 0
    requires forall k :: 0 <= k < |s| && k % 4 == 3 ==> s[k] == 255
    ensures StraightAlpha(s) == s
  {
    forall i | 0 <= i < |s|
      ensures StraightByte(s, i) == s[i]
    {
      var base := i - i % 4;
      if i % 4 != 3 {
        ChunkOf(base, i % 4);
        ChunkOf(base, 3);
        assert s[base + 3] == 255;
        OpaqueUnchanged(s[i]);
      }
    }
  }

  // ---------------------------------------------------------------------------
  // Gathering rows

  /** Row y as both versions hand it to the encoder: width*4 bytes at y*stride. */
  predicate RowsFit(b: BitmapData)
  {
    b.width >= 0 && b.height >= 0 && b.stride >= 0
    && (b.height == 0 || (b.height - 1) * b.stride + b.width * 4 <= |b.data|)
  }

  lemma RowInside(b: BitmapData, y: nat)
    requires RowsFit(b) && y < b.height
    ensures y * b.stride + b.width * 4 <= |b.data|
  {
    MulMonoLe(y, b.height - 1, b.stride);
  }

  /** Row y: the width*4 bytes starting at y*stride. */
  function RowAt(b: BitmapData, y: nat): (row: seq<Byte>)
    requires RowsFit(b) && y < b.height
    ensures |row| == b.width * 4
    ensures forall k :: 0 <= k < |row| ==> y * b.stride + k < |b.data| && row[k] == b.data[y * b.stride + k]
  {
    RowInside(b, y);
    b.data[y * b.stride..y * b.stride + b.width * 4]
  }

  /** The first `count` rows, in order. */
  function Rows(b: BitmapData, count: nat): (r: seq<Byte>)
    requires RowsFit(b) && count <= b.height
  {
    if count == 0 then [] else Rows(b, count - 1) + RowAt(b, count - 1)
  }

  /** The first `count` rows hold count*width*4 bytes. */
  lemma {:induction false} RowsLength(b: BitmapData, count: nat)
    requires RowsFit(b) && count <= b.height
    ensures |Rows(b, count)| == count * (b.width * 4)
  {
    if count > 0 {
      RowsLength(b, count - 1);
      var w := b.width * 4;
      assert (count - 1) * w + w == count * w;
    }
  }

  /** The rows loop of save_bitmap_as_png: each row's first width*4 bytes,
      in order. */
  method GatherRows(b: BitmapData) returns (image: seq<Byte>)
    requires RowsFit(b)
    ensures image == Rows(b, b.height)
  {
    image := [];
    var y := 0;
    while y < b.height
      invariant 0 <= y <= b.height
      invariant image == Rows(b, y)
    {
      RowInside(b, y);
      image := image + b.data[y * b.stride..y * b.stride + b.width * 4];
      y := y + 1;
    }
  }

  /** The first rows of the image are a prefix of it. */
  lemma {:induction false} RowsPrefix(b: BitmapData, y: nat, count: nat)
    requires RowsFit(b) && y <= count <= b.height
    ensures |Rows(b, y)| <= |Rows(b, count)| && Rows(b, count)[..|Rows(b, y)|] == Rows(b, y)
    decreases count
  {
    if y < count {
      RowsPrefix(b, y, count - 1);
      var front := Rows(b, count - 1);
      assert Rows(b, count) == front + RowAt(b, count - 1);
      assert (front + RowAt(b, count - 1))[..|front|] == front;
    }
  }

  /** Row y of the image starts right after rows 0..y-1 and is byte for
      byte row y of the bitmap, the bytes at y*stride (see RowAt). */
  lemma {:induction false} RowsIndex(b: BitmapData, count: nat, y: nat, k: nat)
    requires RowsFit(b) && y < count <= b.height && k < b.width * 4
    ensures |Rows(b, y)| + k < |Rows(b, count)|
    ensures Rows(b, count)[|Rows(b, y)| + k] == RowAt(b, y)[k]
  {
    var front, row, whole := Rows(b, y), RowAt(b, y), Rows(b, count);
    RowsSplit(b, y, count);
    PrefixIndex(front, row, whole, k);
  }

  lemma {:induction false} RowsSplit(b: BitmapData, y: nat, count: nat)
    requires RowsFit(b) && y < count <= b.height
    ensures |Rows(b, y)| + |RowAt(b, y)| <= |Rows(b, count)|
    ensures Rows(b, count)[..|Rows(b, y)| + |RowAt(b, y)|] == Rows(b, y) + RowAt(b, y)
  {
    RowsPrefix(b, y + 1, count);
    assert Rows(b, y + 1) == Rows(b, y) + RowAt(b, y);
  }

  lemma PrefixIndex<T>(front: seq<T>, row: seq<T>, whole: seq<T>, k: nat)
    requires |front| + |row| <= |whole| && whole[..|front| + |row|] == front + row && k < |row|
    ensures whole[|front| + k] == row[k]
  {
    assert whole[|front| + k] == whole[..|front| + |row|][|front| + k];
  }

  // ---------------------------------------------------------------------------
  // The pixels written to the PNG file

  /** The pixels src/bitmap.rs writes: the gate, then the rows converted to
      straight alpha. */
  function RustPngPixels(b: BitmapData): Result<seq<Byte>>
    requires SaveAccepts(b) ==> RowsFit(b)
  {
    if !SaveAccepts(b) then Err("Invalid bitmap data.")
    else Ok(StraightAlpha(Rows(b, b.height)))
  }

  /** The pixels src/bitmap_processor.cpp writes: the same gate and rows, no
      alpha conversion. */
  function CppPngPixels(b: BitmapData): Result<seq<Byte>>
    requires SaveAccepts(b) ==> RowsFit(b)
  {
    if !SaveAccepts(b) then Err("Invalid bitmap data.")
    else Ok(Rows(b, b.height))
  }

  /** save_bitmap_as_png up to the encoder: the gate comes before anything
      is written, then the rows are gathered and converted in place. */
  method SavePixels(b: BitmapData) returns (r: Result<seq<Byte>>)
    requires SaveAccepts(b) ==> RowsFit(b)
    ensures r == RustPngPixels(b)
    ensures r.Ok? <==> SaveAccepts(b)
    ensures r.Ok? ==> |r.value| == b.width * 4 * b.height
  {
    if |b.data| == 0 || b.width <= 0 || b.height <= 0 {
      return Err("Invalid bitmap data.");
    }
    var rows := GatherRows(b);
    RowsLength(b, b.height);
    var img := new Byte[|rows|](i requires 0 <= i < |rows| => rows[i]);
    assert img[..] == rows;
    ToStraightAlpha(img);
    r := Ok(img[..]);
  }

  /** The two versions reject the same bitmaps, and write the same pixels
      exactly when the straight-alpha conversion leaves the rows unchanged;
      for opaque images they agree. */
  lemma PngPixelsAgreeWhenOpaque(b: BitmapData)
    requires SaveAccepts(b) ==> RowsFit(b)
    ensures RustPngPixels(b).Ok? <==> CppPngPixels(b).Ok?
    ensures SaveAccepts(b) ==>
      (RustPngPixels(b) == CppPngPixels(b) <==> StraightAlpha(Rows(b, b.height)) == Rows(b, b.height))
    ensures SaveAccepts(b) && (forall k :: 0 <= k < |Rows(b, b.height)| && k % 4 == 3 ==> Rows(b, b.height)[k] == 255)
      ==> RustPngPixels(b) == CppPngPixels(b)
  {
    if SaveAccepts(b) {
      var rows := Rows(b, b.height);
      assert |rows| % 4 == 0 by {
        RowsLength(b, b.height);
        assert |rows| == (b.height * b.width) * 4;
      }
      if forall k :: 0 <= k < |rows| && k % 4 == 3 ==> rows[k] == 255 {
        OpaqueImageUnchanged(rows);
      }
    }
  }

  /** A half-transparent red pixel is written as (255,0,0,128) by the Rust
      version and as stored, (128,0,0,128), by the C++ one. */
  lemma PngPixelsDifferExample()
    ensures var b := BitmapData([128, 0, 0, 128], 1, 1, 4);
      RustPngPixels(b) == Ok([255, 0, 0, 128]) && CppPngPixels(b) == Ok([128, 0, 0, 128])
  {
    var b := BitmapData([128, 0, 0, 128], 1, 1, 4);
    var s: seq<Byte> := [128, 0, 0, 128];
    OnePixelRows(b);
    HalfRedStraight(s);
  }

  lemma OnePixelRows(b: BitmapData)
    requires b.width == 1 && b.height == 1 && b.stride == 4 && |b.data| == 4
    ensures Rows(b, 1) == b.data
  {
    assert Rows(b, 1) == Rows(b, 0) + b.data[0..4];
    assert b.data[0..4] == b.data;
  }

  lemma HalfRedStraight(s: seq<Byte>)
    requires s == [128, 0, 0, 128]
    ensures StraightAlpha(s) == [255, 0, 0, 128]
  {
    StraightAlphaPixel(s, 0);
    HalfRedExample();
  }

  // ---------------------------------------------------------------------------
  // File names

  /** generate_png_filename in src/bitmap.rs: base name, index zero-padded
      to five digits, ".png". */
  function PngName(index: nat, baseName: string): string
  {
    baseName + ZeroPad(NatToString(index), 5) + ".png"
  }

  /** The name ends in ".png" after at least five digits that read back the
      whole index, however wide it is. */
  lemma PngNameDigits(index: nat, baseName: string)
    ensures var n := PngName(index, baseName);
      |n| >= |baseName| + 9 && n[..|baseName|] == baseName && n[|n| - 4..] == ".png"
      && AllDigits(n[|baseName|..|n| - 4]) && DigitsValue(n[|baseName|..|n| - 4]) == index
      && |n[|baseName|..|n| - 4]| == if index < 100000 then 5 else |NatToString(index)|
  {
    var d := ZeroPad(NatToString(index), 5);
    var n := PngName(index, baseName);
    assert n[|baseName|..|n| - 4] == d;
    NatToStringValue(index);
    ZeroPadValue(NatToString(index), 5);
    assert Pow10(5) == 100000;
    NatToStringWidth(index, 5);
  }

  lemma {:induction false} NatToStringWidth(n: nat, k: nat)
    ensures k >= 1 && n < Pow10(k) ==> |NatToString(n)| <= k
    ensures n >= Pow10(k) ==> |NatToString(n)| >= k + 1
  {
    if n >= 10 && k >= 1 {
      NatToStringWidth(n / 10, k - 1);
    }
  }

  /** Distinct indices give distinct names. */
  lemma PngNameInjective(i: nat, j: nat, baseName: string)
    requires PngName(i, baseName) == PngName(j, baseName)
    ensures i == j
  {
    PngNameDigits(i, baseName);
    PngNameDigits(j, baseName);
  }

  /** generate_png_filename in src/bitmap_processor.cpp: `setfill('0')` and
      `setw(5)` on an int, so a negative index is padded in front of its
      sign. */
  function CppPngName(index: int, baseName: string): string
  {
    baseName + ZeroPad(IntToString(index), 5) + ".png"
  }

  /** Both versions name every non-negative index alike. */
  lemma PngNamesAgree(index: nat, baseName: string)
    ensures CppPngName(index, baseName) == PngName(index, baseName)
  {
  }

  /** A negative index, which the C++ signature admits, renders as "000-5". */
  lemma CppNegativeIndexExample()
    ensures CppPngName(-5, "s") == "s000-5.png"
  {
    assert IntToString(-5) == "-5";
    assert Zeros(3) == "000";
  }

  // ---------------------------------------------------------------------------
  // extract_bitmap_from_frame (C++)

  /** The fields of an AVFrame the C++ extraction reads. */
  datatype AvFrame = AvFrame(data0: Option<seq<Byte>>, width: int, height: int, linesize0: int)

  /** memcpy of linesize*height bytes needs that many readable bytes. */
  predicate CopyReadable(frame: Option<AvFrame>)
  {
    frame.Some? && frame.value.data0.Some? && frame.value.width > 0 && frame.value.height > 0
      && frame.value.linesize0 > 0
    ==> frame.value.linesize0 * frame.value.height <= |frame.value.data0.value|
  }

  /** extract_bitmap_from_frame: fails on a null frame, null data, a
      non-positive size or a non-positive stride. Size and stride are
      written into the out-parameter before the stride check, so a stride
      failure leaves them set; on success exactly stride*height bytes are
      copied. */
  method ExtractBitmapFromFrame(frame: Option<AvFrame>, bitmap: BitmapData)
    returns (ok: bool, out: BitmapData)
    requires CopyReadable(frame)
    ensures ok <==> (frame.Some? && frame.value.data0.Some? && frame.value.width > 0
                     && frame.value.height > 0 && frame.value.linesize0 > 0)
    ensures (frame.None? || frame.value.data0.None? || frame.value.width <= 0 || frame.value.height <= 0)
      ==> out == bitmap
    ensures frame.Some? && frame.value.data0.Some? && frame.value.width > 0 && frame.value.height > 0 ==>
      out.width == frame.value.width && out.height == frame.value.height && out.stride == frame.value.linesize0
    ensures !ok ==> out.data == bitmap.data
    ensures ok ==> out.data == frame.value.data0.value[..frame.value.linesize0 * frame.value.height]
    ensures ok ==> |out.data| == out.stride * out.height
  {
    out := bitmap;
    if frame.None? {
      return false, out;
    }
    var f := frame.value;
    if f.data0.None? {
      return false, out;
    }
    if f.width <= 0 || f.height <= 0 {
      return false, out;
    }
    out := out.(width := f.width, height := f.height, stride := f.linesize0);
    if out.stride <= 0 {
      return false, out;
    }
    var size := out.stride * out.height;
    out := out.(data := f.data0.value[..size]);
    ok := true;
  }
}
