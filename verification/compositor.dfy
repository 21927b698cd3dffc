/** The subtitle compositor of src/ffmpeg.rs and src/ffmpeg_wrapper.cpp: one
    decoded ARIB subtitle (a list of palette rectangles) becomes one RGBA
    bitmap covering the union of its bitmap rectangles, stamped with the
    packet's presentation time and the decoder's display times.

    The demuxer and the decoder are not modelled; their output is the input
    here, a sequence of packets each carrying what avcodec_decode_subtitle2
    reported. The f32 alpha blend is a function parameter. */
module Compositor {
  import opened Wrappers
  import opened Bitmap
  import Text
  import Bdn

  const I32Min: int := -0x8000_0000
  const I32Max: int := 0x7fff_ffff
  /** AV_NOPTS_VALUE, i64::MIN. */
  const NoPts: int := -0x8000_0000_0000_0000
  /** A display time of 0xFFFFFFFF means "not given". */
  const InvalidDisplayTime: int := 0xFFFF_FFFF

  type U32 = x: int | 0 <= x < 0x1_0000_0000
  /** A palette entry: alpha in bits 24-31, red 16-23, green 8-15, blue 0-7. */
  type Argb = U32

  datatype Rgba = Rgba(r: Byte, g: Byte, b: Byte, a: Byte)

  /** The non-opaque, non-transparent-destination blend, computed in f32 by
      the source: source pixel, destination pixel, result. */
  type Blend = (Rgba, Rgba) -> Rgba

  datatype Rational = Rational(num: int, den: int)

  // ---------------------------------------------------------------------------
  // Time stamps

  /** pts_to_seconds of src/ffmpeg.rs: 0 for a missing pts or a zero
      denominator, pts * num / den otherwise. */
  function PtsToSeconds(pts: int, tb: Rational): (s: real)
    ensures pts == NoPts || tb.den == 0 ==> s == 0.0
    ensures pts != NoPts && tb.den != 0 ==> s * tb.den as real == pts as real * tb.num as real
  {
    if pts == NoPts then 0.0
    else if tb.den == 0 then 0.0
    else pts as real * (tb.num as real / tb.den as real)
  }

  /** pts_to_seconds of src/ffmpeg_wrapper.cpp: pts * av_q2d(time_base), with
      no zero-denominator check; None stands for the non-finite double that
      division by zero produces. */
  function CppPtsToSeconds(pts: int, tb: Rational): (s: Option<real>)
    ensures s.None? <==> pts != NoPts && tb.den == 0
  {
    if pts == NoPts then Some(0.0)
    else if tb.den == 0 then None
    else Some(pts as real * (tb.num as real / tb.den as real))
  }

  /** The two agree whenever the denominator is non-zero; with a zero
      denominator the Rust version answers 0 and the C++ one has no finite
      answer. */
  lemma PtsToSecondsAgree(pts: int, tb: Rational)
    ensures tb.den != 0 ==> CppPtsToSeconds(pts, tb) == Some(PtsToSeconds(pts, tb))
    ensures tb.den == 0 && pts != NoPts ==> PtsToSeconds(pts, tb) == 0.0 && CppPtsToSeconds(pts, tb).None?
  {
  }

  /** codec_name_has_arib: false for a missing name, otherwise whether the
      name contains "arib" or "libaribcaption". */
  function CodecNameHasArib(name: Option<string>): (b: bool)
  {
    match name
    case None => false
    case Some(s) => Text.Contains(s, "arib") || Text.Contains(s, "libaribcaption")
  }

  /** The second test is subsumed by the first: the answer is exactly
      whether the name contains "arib". */
  lemma CodecNameHasAribIff(name: Option<string>)
    ensures CodecNameHasArib(name) <==> name.Some? && Text.Contains(name.value, "arib")
  {
    if name.Some? && Text.Contains(name.value, "libaribcaption") {
      Text.ContainsInner(name.value, "libaribcaption", "arib", 3);
    }
  }

  /** The pts a frame carries: the packet's, unless it is missing. */
  function ChoosePts(packetPts: int, subtitlePts: int): (pts: int)
    ensures packetPts != NoPts ==> pts == packetPts
    ensures packetPts == NoPts ==> pts == subtitlePts
  {
    if packetPts != NoPts then packetPts else subtitlePts
  }

  predicate DisplayTimesValid(startMs: U32, endMs: U32)
  {
    startMs != InvalidDisplayTime && endMs != InvalidDisplayTime
  }

  /** Start and end of display: base plus the millisecond offsets when both
      are given, otherwise both equal to base. */
  function DisplayTimes(base: real, startMs: U32, endMs: U32): (t: (real, real))
  {
    if DisplayTimesValid(startMs, endMs) then
      (base + startMs as real / 1000.0, base + endMs as real / 1000.0)
    else (base, base)
  }

  lemma DisplayTimesOrder(base: real, startMs: U32, endMs: U32)
    ensures var (s, e) := DisplayTimes(base, startMs, endMs);
      (DisplayTimesValid(startMs, endMs) ==> (s - base) * 1000.0 == startMs as real && (e - base) * 1000.0 == endMs as real)
      && (!DisplayTimesValid(startMs, endMs) ==> s == base && e == base)
      && base <= s
      && (startMs <= endMs ==> s <= e)
  {
  }

  // ---------------------------------------------------------------------------
  // Palette entries

  function Unpack(argb: Argb): (p: Rgba)
  {
    Rgba((argb / 0x1_0000) % 0x100, (argb / 0x100) % 0x100, argb % 0x100, (argb / 0x100_0000) % 0x100)
  }

  function Pack(p: Rgba): (argb: Argb)
  {
    p.a * 0x100_0000 + p.r * 0x1_0000 + p.g * 0x100 + p.b
  }

  /** Unpacking takes red from bits 16-23, green from 8-15, blue from 0-7 and
      alpha from 24-31: it inverts packing, in both directions. */
  lemma UnpackPack(p: Rgba)
    ensures Unpack(Pack(p)) == p
  {
    var x := Pack(p);
    assert x / 0x100_0000 == p.a;
    assert x / 0x1_0000 == p.a * 0x100 + p.r;
    assert x / 0x100 == p.a * 0x1_0000 + p.r * 0x100 + p.g;
  }

  lemma PackUnpack(x: Argb)
    ensures Pack(Unpack(x)) == x
  {
    var q1 := x / 0x100;
    var q2 := q1 / 0x100;
    var q3 := q2 / 0x100;
    assert x == q1 * 0x100 + x % 0x100;
    assert q1 == q2 * 0x100 + q1 % 0x100;
    assert q2 == q3 * 0x100 + q2 % 0x100;
    assert x / 0x1_0000 == q2;
    assert x / 0x100_0000 == q3;
  }

  // ---------------------------------------------------------------------------
  // Subtitle rectangles

  datatype RectKind = NoneRect | BitmapRect | TextRect | AssRect

  /** An AVSubtitleRect: position and size, the index plane (data[0] with
      linesize[0]) and the palette plane (data[1], a 256-entry buffer of which
      the first nb_colors entries are defined). Either plane may be null. */
  datatype Rect = Rect(kind: RectKind, x: int, y: int, w: int, h: int,
                       indices: Option<seq<Byte>>, linesize: int,
                       palette: Option<seq<Argb>>, nbColors: int)

  predicate IsBitmap(o: Option<Rect>)
  {
    o.Some? && o.value.kind == BitmapRect
  }

  /** A rectangle the painting loop draws: a bitmap with both planes. */
  predicate Drawable(r: Rect)
  {
    r.kind == BitmapRect && r.indices.Some? && r.palette.Some?
  }

  /** What the decoder guarantees of a bitmap rectangle: a non-negative size
      whose edges fit in i32, and, when the planes are present, rows of
      linesize >= w bytes for all h rows and a full 256-entry palette. */
  predicate Shaped(r: Rect)
  {
    (r.kind == BitmapRect ==>
      0 <= r.w && 0 <= r.h && I32Min <= r.x && r.x + r.w <= I32Max && I32Min <= r.y && r.y + r.h <= I32Max)
    && (Drawable(r) ==>
      r.w <= r.linesize && r.h * r.linesize <= |r.indices.value|
      && |r.palette.value| == 256 && 0 <= r.nbColors <= 256)
  }

  predicate AllShaped(rects: seq<Option<Rect>>)
  {
    forall i :: 0 <= i < |rects| && rects[i].Some? ==> Shaped(rects[i].value)
  }

  lemma IndexInside(r: Rect, x: nat, y: nat)
    requires Drawable(r) && Shaped(r) && x < r.w && y < r.h
    ensures y * r.linesize + x < |r.indices.value|
  {
    MulMonoLe(y + 1, r.h, r.linesize);
  }

  /** The palette index of pixel (x, y) of the rectangle. */
  function IndexAt(r: Rect, x: nat, y: nat): Byte
    requires Drawable(r) && Shaped(r) && x < r.w && y < r.h
  {
    IndexInside(r, x, y);
    r.indices.value[y * r.linesize + x]
  }

  /** The colour of a palette index; the Rust version (checked) skips indices
      past nb_colors, the C++ one reads the palette buffer regardless. */
  function Lookup(r: Rect, idx: Byte, checked: bool): (c: Option<Rgba>)
    requires Drawable(r) && Shaped(r)
    ensures c.None? <==> checked && idx >= r.nbColors
    ensures c.Some? ==> c.value == Unpack(r.palette.value[idx])
  {
    if checked && idx >= r.nbColors then None else Some(Unpack(r.palette.value[idx]))
  }

  // ---------------------------------------------------------------------------
  // The bounding box

  /** The min/max accumulators of the first rectangle loop. */
  datatype Acc = Acc(has: bool, minX: int, minY: int, maxX: int, maxY: int)

  const EmptyAcc: Acc := Acc(false, I32Max, I32Max, I32Min, I32Min)

  function Min(a: int, b: int): int { if a <= b then a else b }
  function Max(a: int, b: int): int { if a >= b then a else b }

  function Widen(acc: Acc, r: Rect): Acc
  {
    Acc(true, Min(acc.minX, r.x), Min(acc.minY, r.y), Max(acc.maxX, r.x + r.w), Max(acc.maxY, r.y + r.h))
  }

  /** The accumulators after the first n rectangles. */
  function BoxUpTo(rects: seq<Option<Rect>>, n: nat): Acc
    requires n <= |rects|
  {
    if n == 0 then EmptyAcc
    else if IsBitmap(rects[n - 1]) then Widen(BoxUpTo(rects, n - 1), rects[n - 1].value)
    else BoxUpTo(rects, n - 1)
  }

  function BoxOf(rects: seq<Option<Rect>>): Acc
  {
    BoxUpTo(rects, |rects|)
  }

  /** The first rectangle loop: null and non-bitmap rectangles are passed
      over, bitmap ones widen the box. */
  method BoundingBox(rects: seq<Option<Rect>>) returns (acc: Acc)
    ensures acc == BoxOf(rects)
  {
    var minX, minY, maxX, maxY := I32Max, I32Max, I32Min, I32Min;
    var hasBitmap := false;
    for i := 0 to |rects|
      invariant Acc(hasBitmap, minX, minY, maxX, maxY) == BoxUpTo(rects, i)
    {
      match rects[i]
      case None =>
      case Some(r) =>
        if r.kind == BitmapRect {
          hasBitmap := true;
          minX := Min(minX, r.x);
          minY := Min(minY, r.y);
          maxX := Max(maxX, r.x + r.w);
          maxY := Max(maxY, r.y + r.h);
        }
    }
    acc := Acc(hasBitmap, minX, minY, maxX, maxY);
  }

  /** The box exists exactly when some rectangle is a bitmap. */
  lemma {:induction false} BoxHasIff(rects: seq<Option<Rect>>, n: nat)
    requires n <= |rects|
    ensures BoxUpTo(rects, n).has <==> exists i :: 0 <= i < n && IsBitmap(rects[i])
  {
    if n > 0 {
      BoxHasIff(rects, n - 1);
    }
  }

  /** Every bitmap rectangle lies inside the box. */
  lemma {:induction false} BoxContains(rects: seq<Option<Rect>>, n: nat, i: nat)
    requires i < n <= |rects| && IsBitmap(rects[i])
    ensures var acc, r := BoxUpTo(rects, n), rects[i].value;
      acc.minX <= r.x && acc.minY <= r.y && r.x + r.w <= acc.maxX && r.y + r.h <= acc.maxY
  {
    if i < n - 1 {
      BoxContains(rects, n - 1, i);
    }
  }

  /** Each edge of the box is an edge of some bitmap rectangle, so the box is
      the smallest one containing them all. */
  lemma {:induction false} BoxTight(rects: seq<Option<Rect>>, n: nat)
    requires n <= |rects| && AllShaped(rects) && BoxUpTo(rects, n).has
    ensures var acc := BoxUpTo(rects, n);
      (exists i :: 0 <= i < n && IsBitmap(rects[i]) && rects[i].value.x == acc.minX)
      && (exists i :: 0 <= i < n && IsBitmap(rects[i]) && rects[i].value.y == acc.minY)
      && (exists i :: 0 <= i < n && IsBitmap(rects[i]) && rects[i].value.x + rects[i].value.w == acc.maxX)
      && (exists i :: 0 <= i < n && IsBitmap(rects[i]) && rects[i].value.y + rects[i].value.h == acc.maxY)
  {
    var prev := BoxUpTo(rects, n - 1);
    if !IsBitmap(rects[n - 1]) {
      BoxTight(rects, n - 1);
    } else {
      var r := rects[n - 1].value;
      assert Shaped(r);
      if prev.has {
        BoxTight(rects, n - 1);
      } else {
        BoxEmpty(rects, n - 1);
      }
      var i1 := if prev.has && prev.minX <= r.x then
        var i :| 0 <= i < n - 1 && IsBitmap(rects[i]) && rects[i].value.x == prev.minX; i else n - 1;
      var i2 := if prev.has && prev.minY <= r.y then
        var i :| 0 <= i < n - 1 && IsBitmap(rects[i]) && rects[i].value.y == prev.minY; i else n - 1;
      var i3 := if prev.has && prev.maxX >= r.x + r.w then
        var i :| 0 <= i < n - 1 && IsBitmap(rects[i]) && rects[i].value.x + rects[i].value.w == prev.maxX; i else n - 1;
      var i4 := if prev.has && prev.maxY >= r.y + r.h then
        var i :| 0 <= i < n - 1 && IsBitmap(rects[i]) && rects[i].value.y + rects[i].value.h == prev.maxY; i else n - 1;
      assert IsBitmap(rects[i1]) && rects[i1].value.x == BoxUpTo(rects, n).minX;
      assert IsBitmap(rects[i2]) && rects[i2].value.y == BoxUpTo(rects, n).minY;
      assert IsBitmap(rects[i3]) && rects[i3].value.x + rects[i3].value.w == BoxUpTo(rects, n).maxX;
      assert IsBitmap(rects[i4]) && rects[i4].value.y + rects[i4].value.h == BoxUpTo(rects, n).maxY;
    }
  }

  /** Without a bitmap rectangle the accumulators keep their start values. */
  lemma {:induction false} BoxEmpty(rects: seq<Option<Rect>>, n: nat)
    requires n <= |rects| && !BoxUpTo(rects, n).has
    ensures BoxUpTo(rects, n) == EmptyAcc
  {
    if n > 0 {
      BoxEmpty(rects, n - 1);
    }
  }

  /** A box built from at least one bitmap rectangle has non-negative size. */
  lemma BoxNonEmpty(rects: seq<Option<Rect>>)
    requires AllShaped(rects) && BoxOf(rects).has
    ensures BoxOf(rects).minX <= BoxOf(rects).maxX && BoxOf(rects).minY <= BoxOf(rects).maxY
  {
    BoxHasIff(rects, |rects|);
    var i :| 0 <= i < |rects| && IsBitmap(rects[i]);
    BoxContains(rects, |rects|, i);
    assert Shaped(rects[i].value);
  }

  // ---------------------------------------------------------------------------
  // The composite canvas and the pixel rule

  /** The canvas: its origin in screen coordinates and its size. */
  datatype Canvas = Canvas(originX: int, originY: int, width: nat, height: nat)

  function CanvasOf(acc: Acc): Canvas
    requires acc.minX <= acc.maxX && acc.minY <= acc.maxY
  {
    Canvas(acc.minX, acc.minY, acc.maxX - acc.minX, acc.maxY - acc.minY)
  }

  /** Bytes in the canvas: stride width*4, height rows. */
  function CanvasSize(c: Canvas): nat
  {
    c.width * 4 * c.height
  }

  predicate InCanvas(c: Canvas, cx: int, cy: int)
  {
    0 <= cx < c.width && 0 <= cy < c.height
  }

  function PixelOffset(c: Canvas, cx: nat, cy: nat): nat
  {
    (cy * c.width + cx) * 4
  }

  lemma PixelInside(c: Canvas, cx: nat, cy: nat)
    requires InCanvas(c, cx, cy)
    ensures PixelOffset(c, cx, cy) + 4 <= CanvasSize(c)
  {
    MulMonoLe(cy + 1, c.height, c.width);
  }

  function PixelAt(data: seq<Byte>, off: nat): Rgba
    requires off + 4 <= |data|
  {
    Rgba(data[off], data[off + 1], data[off + 2], data[off + 3])
  }

  function WritePixel(data: seq<Byte>, off: nat, p: Rgba): (r: seq<Byte>)
    requires off + 4 <= |data|
  {
    data[off := p.r][off + 1 := p.g][off + 2 := p.b][off + 3 := p.a]
  }

  /** One source pixel drawn at canvas position (cx, cy): nothing outside the
      canvas or for a transparent source; a copy when the source is opaque or
      the destination is transparent; the blend otherwise. */
  function Plot(data: seq<Byte>, c: Canvas, cx: int, cy: int, src: Rgba, blend: Blend): (r: seq<Byte>)
    requires |data| == CanvasSize(c)
    ensures |r| == |data|
  {
    if !InCanvas(c, cx, cy) || src.a == 0 then data
    else
      PixelInside(c, cx, cy);
      var off := PixelOffset(c, cx, cy);
      var dst := PixelAt(data, off);
      WritePixel(data, off, if src.a == 255 || dst.a == 0 then src else blend(src, dst))
  }

  /** The pixel rule: alpha 0 leaves the canvas as it was; alpha 255 or a
      transparent destination puts exactly the source pixel there; anything
      else puts the blend of source and destination there. */
  lemma PlotRule(data: seq<Byte>, c: Canvas, cx: int, cy: int, src: Rgba, blend: Blend)
    requires |data| == CanvasSize(c)
    ensures src.a == 0 || !InCanvas(c, cx, cy) ==> Plot(data, c, cx, cy, src, blend) == data
    ensures InCanvas(c, cx, cy) && src.a != 0 ==>
      PixelOffset(c, cx, cy) + 4 <= |data|
      && var off := PixelOffset(c, cx, cy);
         var dst := PixelAt(data, off);
         PixelAt(Plot(data, c, cx, cy, src, blend), off)
           == (if src.a == 255 || dst.a == 0 then src else blend(src, dst))
  {
    if InCanvas(c, cx, cy) {
      PixelInside(c, cx, cy);
    }
  }

  /** Distinct canvas positions have byte ranges four apart at least. */
  lemma DistinctPixels(c: Canvas, cx: nat, cy: nat, px: nat, py: nat)
    requires InCanvas(c, cx, cy) && InCanvas(c, px, py) && (cx != px || cy != py)
    ensures PixelOffset(c, cx, cy) + 4 <= PixelOffset(c, px, py) || PixelOffset(c, px, py) + 4 <= PixelOffset(c, cx, cy)
  {
    if cy * c.width + cx == py * c.width + px {
      Bdn.UniqueQuotient(cy, cx, py, px, c.width);
    }
  }

  /** Drawing at one position leaves every other position of the canvas as it
      was. */
  lemma PlotElsewhere(data: seq<Byte>, c: Canvas, cx: int, cy: int, src: Rgba, blend: Blend, px: nat, py: nat)
    requires |data| == CanvasSize(c) && InCanvas(c, px, py) && (cx != px || cy != py)
    ensures PixelOffset(c, px, py) + 4 <= |data|
    ensures PixelAt(Plot(data, c, cx, cy, src, blend), PixelOffset(c, px, py)) == PixelAt(data, PixelOffset(c, px, py))
  {
    PixelInside(c, px, py);
    if InCanvas(c, cx, cy) && src.a != 0 {
      DistinctPixels(c, cx, cy, px, py);
      PixelInside(c, cx, cy);
      var off := PixelOffset(c, cx, cy);
      var dst := PixelAt(data, off);
      WriteElsewhere(data, off, if src.a == 255 || dst.a == 0 then src else blend(src, dst), PixelOffset(c, px, py));
    }
  }

  lemma WriteElsewhere(data: seq<Byte>, off: nat, p: Rgba, other: nat)
    requires off + 4 <= |data| && other + 4 <= |data| && (off + 4 <= other || other + 4 <= off)
    ensures PixelAt(WritePixel(data, off, p), other) == PixelAt(data, other)
  {
  }

  // ---------------------------------------------------------------------------
  // Painting the rectangles

  /** Pixel (x, y) of rectangle r drawn on the canvas at its offset from the
      canvas origin, if its palette index has a colour. */
  function PlotAt(data: seq<Byte>, c: Canvas, r: Rect, x: nat, y: nat, checked: bool, blend: Blend): (out: seq<Byte>)
    requires |data| == CanvasSize(c) && Drawable(r) && Shaped(r) && x < r.w && y < r.h
    ensures |out| == |data|
  {
    match Lookup(r, IndexAt(r, x, y), checked)
    case None => data
    case Some(src) => Plot(data, c, r.x - c.originX + x, r.y - c.originY + y, src, blend)
  }

  /** The first n pixels of row y of r, left to right. */
  function PaintRow(data: seq<Byte>, c: Canvas, r: Rect, y: nat, n: nat, checked: bool, blend: Blend): (out: seq<Byte>)
    requires |data| == CanvasSize(c) && Drawable(r) && Shaped(r) && y < r.h && n <= r.w
    ensures |out| == |data|
  {
    if n == 0 then data
    else PlotAt(PaintRow(data, c, r, y, n - 1, checked, blend), c, r, n - 1, y, checked, blend)
  }

  /** The first m rows of r, top to bottom. */
  function PaintRows(data: seq<Byte>, c: Canvas, r: Rect, m: nat, checked: bool, blend: Blend): (out: seq<Byte>)
    requires |data| == CanvasSize(c) && Drawable(r) && Shaped(r) && m <= r.h
    ensures |out| == |data|
  {
    if m == 0 then data
    else PaintRow(PaintRows(data, c, r, m - 1, checked, blend), c, r, m - 1, r.w, checked, blend)
  }

  /** The second rectangle loop over the first n rectangles: null ones,
      non-bitmap ones and ones missing a plane are passed over. */
  function PaintRects(data: seq<Byte>, c: Canvas, rects: seq<Option<Rect>>, n: nat, checked: bool, blend: Blend): (out: seq<Byte>)
    requires |data| == CanvasSize(c) && AllShaped(rects) && n <= |rects|
    ensures |out| == |data|
  {
    if n == 0 then data
    else
      var prev := PaintRects(data, c, rects, n - 1, checked, blend);
      if rects[n - 1].Some? && Drawable(rects[n - 1].value) then
        PaintRows(prev, c, rects[n - 1].value, rects[n - 1].value.h, checked, blend)
      else prev
  }

  /** Compositing in place: the second rectangle loop of
      get_next_subtitle_frame, with its nested row and column loops. */
  method Composite(img: array<Byte>, c: Canvas, rects: seq<Option<Rect>>, checked: bool, blend: Blend)
    requires img.Length == CanvasSize(c) && AllShaped(rects)
    modifies img
    ensures img[..] == PaintRects(old(img[..]), c, rects, |rects|, checked, blend)
  {
    ghost var start := img[..];
    for i := 0 to |rects|
      invariant img[..] == PaintRects(start, c, rects, i, checked, blend)
    {
      if rects[i].None? {
        continue;
      }
      var r := rects[i].value;
      if r.kind != BitmapRect {
        continue;
      }
      if r.indices.None? || r.palette.None? {
        continue;
      }
      assert Shaped(r);
      DrawRect(img, c, r, checked, blend);
    }
  }

  /** The row and column loops for one drawable rectangle. */
  method DrawRect(img: array<Byte>, c: Canvas, r: Rect, checked: bool, blend: Blend)
    requires img.Length == CanvasSize(c) && Drawable(r) && Shaped(r)
    modifies img
    ensures img[..] == PaintRows(old(img[..]), c, r, r.h, checked, blend)
  {
    ghost var before := img[..];
    for y := 0 to r.h
      invariant img[..] == PaintRows(before, c, r, y, checked, blend)
    {
      DrawRow(img, c, r, y, checked, blend);
    }
  }

  /** The column loop for row y of a drawable rectangle. */
  method DrawRow(img: array<Byte>, c: Canvas, r: Rect, y: nat, checked: bool, blend: Blend)
    requires img.Length == CanvasSize(c) && Drawable(r) && Shaped(r) && y < r.h
    modifies img
    ensures img[..] == PaintRow(old(img[..]), c, r, y, r.w, checked, blend)
  {
    var destX := r.x - c.originX;
    var destY := r.y - c.originY;
    ghost var rowStart := img[..];
    for x := 0 to r.w
      invariant img[..] == PaintRow(rowStart, c, r, y, x, checked, blend)
    {
      IndexInside(r, x, y);
      var idx := r.indices.value[y * r.linesize + x];
      if checked && idx >= r.nbColors {
        continue;
      }
      DrawPixel(img, c, destX + x, destY + y, Unpack(r.palette.value[idx]), blend);
    }
  }

  /** The body of the column loop once the colour is known: the bounds test
      and the pixel rule, on the canvas in place. */
  method DrawPixel(img: array<Byte>, c: Canvas, compX: int, compY: int, src: Rgba, blend: Blend)
    requires img.Length == CanvasSize(c)
    modifies img
    ensures img[..] == Plot(old(img[..]), c, compX, compY, src, blend)
  {
    if 0 <= compX < c.width && 0 <= compY < c.height {
      PixelInside(c, compX, compY);
      var offset := (compY * c.width + compX) * 4;
      if src.a > 0 {
        var out := src;
        if !(src.a == 255 || img[offset + 3] == 0) {
          out := blend(src, Rgba(img[offset], img[offset + 1], img[offset + 2], img[offset + 3]));
        }
        ghost var pre := img[..];
        img[offset] := out.r;
        img[offset + 1] := out.g;
        img[offset + 2] := out.b;
        img[offset + 3] := out.a;
        assert img[..] == WritePixel(pre, offset, out);
      }
    }
  }

  // ---------------------------------------------------------------------------
  // What painting leaves alone, and where it may write

  /** Rectangle r may write canvas position (px, py): it is drawable and the
      position lies in its area once moved to canvas coordinates. */
  predicate Covers(c: Canvas, r: Rect, px: int, py: int)
  {
    Drawable(r)
    && r.x - c.originX <= px < r.x - c.originX + r.w
    && r.y - c.originY <= py < r.y - c.originY + r.h
  }

  lemma {:induction false} PaintRowKeeps(data: seq<Byte>, c: Canvas, r: Rect, y: nat, n: nat, checked: bool, blend: Blend, px: nat, py: nat)
    requires |data| == CanvasSize(c) && Drawable(r) && Shaped(r) && y < r.h && n <= r.w
    requires InCanvas(c, px, py) && !Covers(c, r, px, py)
    ensures PixelOffset(c, px, py) + 4 <= |data|
    ensures PixelAt(PaintRow(data, c, r, y, n, checked, blend), PixelOffset(c, px, py)) == PixelAt(data, PixelOffset(c, px, py))
  {
    PixelInside(c, px, py);
    if n > 0 {
      PaintRowKeeps(data, c, r, y, n - 1, checked, blend, px, py);
      var prev := PaintRow(data, c, r, y, n - 1, checked, blend);
      match Lookup(r, IndexAt(r, n - 1, y), checked)
      case None =>
      case Some(src) =>
        PlotElsewhere(prev, c, r.x - c.originX + n - 1, r.y - c.originY + y, src, blend, px, py);
    }
  }

  lemma {:induction false} PaintRowsKeeps(data: seq<Byte>, c: Canvas, r: Rect, m: nat, checked: bool, blend: Blend, px: nat, py: nat)
    requires |data| == CanvasSize(c) && Drawable(r) && Shaped(r) && m <= r.h
    requires InCanvas(c, px, py) && !Covers(c, r, px, py)
    ensures PixelOffset(c, px, py) + 4 <= |data|
    ensures PixelAt(PaintRows(data, c, r, m, checked, blend), PixelOffset(c, px, py)) == PixelAt(data, PixelOffset(c, px, py))
  {
    PixelInside(c, px, py);
    if m > 0 {
      PaintRowsKeeps(data, c, r, m - 1, checked, blend, px, py);
      PaintRowKeeps(PaintRows(data, c, r, m - 1, checked, blend), c, r, m - 1, r.w, checked, blend, px, py);
    }
  }

  /** Nothing else changes: a canvas position no drawable rectangle covers
      keeps the bytes it had before painting. */
  lemma {:induction false} PaintRectsKeeps(data: seq<Byte>, c: Canvas, rects: seq<Option<Rect>>, n: nat, checked: bool, blend: Blend, px: nat, py: nat)
    requires |data| == CanvasSize(c) && AllShaped(rects) && n <= |rects|
    requires InCanvas(c, px, py) && forall i :: 0 <= i < n && rects[i].Some? ==> !Covers(c, rects[i].value, px, py)
    ensures PixelOffset(c, px, py) + 4 <= |data|
    ensures PixelAt(PaintRects(data, c, rects, n, checked, blend), PixelOffset(c, px, py)) == PixelAt(data, PixelOffset(c, px, py))
  {
    PixelInside(c, px, py);
    if n > 0 {
      PaintRectsKeeps(data, c, rects, n - 1, checked, blend, px, py);
      if rects[n - 1].Some? && Drawable(rects[n - 1].value) {
        var r := rects[n - 1].value;
        assert Shaped(r);
        PaintRowsKeeps(PaintRects(data, c, rects, n - 1, checked, blend), c, r, r.h, checked, blend, px, py);
      }
    }
  }

  /** Every pixel of every bitmap rectangle lands inside the canvas built
      from the bounding box, so the bounds test of the column loop never
      rejects a pixel. */
  lemma RectPixelsInCanvas(rects: seq<Option<Rect>>, i: nat, x: nat, y: nat)
    requires AllShaped(rects) && i < |rects| && IsBitmap(rects[i])
    requires x < rects[i].value.w && y < rects[i].value.h
    ensures BoxOf(rects).has && BoxOf(rects).minX <= BoxOf(rects).maxX && BoxOf(rects).minY <= BoxOf(rects).maxY
    ensures var c, r := CanvasOf(BoxOf(rects)), rects[i].value;
      InCanvas(c, r.x - c.originX + x, r.y - c.originY + y)
  {
    BoxHasIff(rects, |rects|);
    BoxContains(rects, |rects|, i);
    BoxNonEmpty(rects);
  }

  // ---------------------------------------------------------------------------
  // The Rust palette check against the C++ unchecked lookup

  /** Every palette index the rectangle uses is below nb_colors. */
  predicate IndicesInPalette(r: Rect)
    requires Drawable(r) && Shaped(r)
  {
    forall x: nat, y: nat :: x < r.w && y < r.h ==> IndexAt(r, x, y) < r.nbColors
  }

  lemma {:induction false} PaintRowAgree(data: seq<Byte>, c: Canvas, r: Rect, y: nat, n: nat, blend: Blend)
    requires |data| == CanvasSize(c) && Drawable(r) && Shaped(r) && y < r.h && n <= r.w && IndicesInPalette(r)
    ensures PaintRow(data, c, r, y, n, true, blend) == PaintRow(data, c, r, y, n, false, blend)
  {
    if n > 0 {
      PaintRowAgree(data, c, r, y, n - 1, blend);
      assert IndexAt(r, n - 1, y) < r.nbColors;
    }
  }

  lemma {:induction false} PaintRowsAgree(data: seq<Byte>, c: Canvas, r: Rect, m: nat, blend: Blend)
    requires |data| == CanvasSize(c) && Drawable(r) && Shaped(r) && m <= r.h && IndicesInPalette(r)
    ensures PaintRows(data, c, r, m, true, blend) == PaintRows(data, c, r, m, false, blend)
  {
    if m > 0 {
      PaintRowsAgree(data, c, r, m - 1, blend);
      PaintRowAgree(PaintRows(data, c, r, m - 1, true, blend), c, r, m - 1, r.w, blend);
    }
  }

  /** When every index is inside the palette, the palette check of the Rust
      version never fires and both versions paint the same canvas. */
  lemma {:induction false} PaintRectsAgree(data: seq<Byte>, c: Canvas, rects: seq<Option<Rect>>, n: nat, blend: Blend)
    requires |data| == CanvasSize(c) && AllShaped(rects) && n <= |rects|
    requires forall i :: 0 <= i < n && rects[i].Some? && Drawable(rects[i].value) ==> IndicesInPalette(rects[i].value)
    ensures PaintRects(data, c, rects, n, true, blend) == PaintRects(data, c, rects, n, false, blend)
  {
    if n > 0 {
      PaintRectsAgree(data, c, rects, n - 1, blend);
      if rects[n - 1].Some? && Drawable(rects[n - 1].value) {
        var r := rects[n - 1].value;
        assert Shaped(r);
        PaintRowsAgree(PaintRects(data, c, rects, n - 1, true, blend), c, r, r.h, blend);
      }
    }
  }

  /** An opaque green at palette index 1 of a one-entry palette: the Rust
      version skips the index and leaves the pixel transparent, the C++
      version reads past nb_colors and paints it. */
  lemma PaletteCheckDiffers(blend: Blend)
    ensures var c := Canvas(0, 0, 1, 1);
      var r := Rect(BitmapRect, 0, 0, 1, 1, Some([1]), 1, Some(seq(256, i => if i == 1 then 0xFF00_FF00 else 0)), 1);
      Drawable(r) && Shaped(r)
      && PaintRows([0, 0, 0, 0], c, r, 1, true, blend) == [0, 0, 0, 0]
      && PaintRows([0, 0, 0, 0], c, r, 1, false, blend) == [0, 255, 0, 255]
  {
    var c := Canvas(0, 0, 1, 1);
    var r := Rect(BitmapRect, 0, 0, 1, 1, Some([1]), 1, Some(seq(256, i => if i == 1 then 0xFF00_FF00 else 0)), 1);
    var zero: seq<Byte> := [0, 0, 0, 0];
    assert IndexAt(r, 0, 0) == 1;
    assert Unpack(0xFF00_FF00) == Rgba(0, 255, 0, 255);
    assert PaintRows(zero, c, r, 1, true, blend) == PaintRow(zero, c, r, 0, 1, true, blend);
    assert PaintRows(zero, c, r, 1, false, blend) == PaintRow(zero, c, r, 0, 1, false, blend);
    assert PixelOffset(c, 0, 0) == 0;
  }

  // ---------------------------------------------------------------------------
  // From a decoded subtitle to a frame

  /** What avcodec_decode_subtitle2 produced: its pts, the display offsets in
      milliseconds and the rectangles (num_rects is their count; a null
      rectangle pointer is None). */
  datatype Subtitle = Subtitle(pts: int, startMs: U32, endMs: U32, rects: seq<Option<Rect>>)

  datatype Decoded = DecodeError | NothingDecoded | Decoded(sub: Subtitle)

  /** A packet of the container: its stream, its pts and what decoding it
      gave. */
  datatype Packet = Packet(streamIndex: int, pts: int, decoded: Decoded)

  /** A subtitle frame: a composite bitmap, or none for a clear command, and
      its times and screen position. */
  datatype SubtitleFrame = SubtitleFrame(bitmap: Option<BitmapData>, pts: int, timestamp: real,
                                         startTime: real, endTime: real, x: int, y: int)

  function Transparent(n: nat): (data: seq<Byte>)
    ensures |data| == n && forall k :: 0 <= k < n ==> data[k] == 0
  {
    seq(n, _ => 0)
  }

  /** The frame a decoded subtitle gives, if any: a clear frame at the
      origin when it has no rectangles, nothing when none of its rectangles
      is a bitmap, otherwise the composite of its bitmap rectangles placed
      at the bounding box's corner. */
  function FrameOf(packetPts: int, sub: Subtitle, tb: Rational, checked: bool, blend: Blend): (f: Option<SubtitleFrame>)
    requires AllShaped(sub.rects)
  {
    var pts := ChoosePts(packetPts, sub.pts);
    var base := PtsToSeconds(pts, tb);
    var (start, end) := DisplayTimes(base, sub.startMs, sub.endMs);
    if |sub.rects| == 0 then Some(SubtitleFrame(None, pts, base, start, end, 0, 0))
    else
      var acc := BoxOf(sub.rects);
      if !acc.has then None
      else
        BoxNonEmpty(sub.rects);
        var c := CanvasOf(acc);
        var data := PaintRects(Transparent(CanvasSize(c)), c, sub.rects, |sub.rects|, checked, blend);
        Some(SubtitleFrame(Some(BitmapData(data, c.width, c.height, c.width * 4)), pts, base, start, end, acc.minX, acc.minY))
  }

  /** A subtitle with no rectangles is a clear command: no bitmap, origin
      (0, 0). One whose rectangles include no bitmap is skipped. Otherwise
      the bitmap has stride width*4, holds stride*height bytes, and its
      corner is the least x and y over the bitmap rectangles. */
  lemma FrameOfCases(packetPts: int, sub: Subtitle, tb: Rational, checked: bool, blend: Blend)
    requires AllShaped(sub.rects)
    ensures var f := FrameOf(packetPts, sub, tb, checked, blend);
      (|sub.rects| == 0 ==> f.Some? && f.value.bitmap.None? && f.value.x == 0 && f.value.y == 0)
      && (f.None? <==> |sub.rects| > 0 && forall i :: 0 <= i < |sub.rects| ==> !IsBitmap(sub.rects[i]))
      && (f.Some? && |sub.rects| > 0 ==>
            f.value.bitmap.Some?
            && var b := f.value.bitmap.value;
               b.width >= 0 && b.height >= 0 && b.stride == b.width * 4 && |b.data| == b.stride * b.height
               && (forall i :: 0 <= i < |sub.rects| && IsBitmap(sub.rects[i]) ==>
                     f.value.x <= sub.rects[i].value.x && f.value.y <= sub.rects[i].value.y
                     && sub.rects[i].value.x + sub.rects[i].value.w <= f.value.x + b.width
                     && sub.rects[i].value.y + sub.rects[i].value.h <= f.value.y + b.height)
               && (exists i :: 0 <= i < |sub.rects| && IsBitmap(sub.rects[i]) && sub.rects[i].value.x == f.value.x)
               && (exists i :: 0 <= i < |sub.rects| && IsBitmap(sub.rects[i]) && sub.rects[i].value.y == f.value.y))
  {
    BoxHasIff(sub.rects, |sub.rects|);
    if |sub.rects| > 0 && BoxOf(sub.rects).has {
      BoxTight(sub.rects, |sub.rects|);
      forall i | 0 <= i < |sub.rects| && IsBitmap(sub.rects[i])
        ensures var acc := BoxOf(sub.rects); var r := sub.rects[i].value;
          acc.minX <= r.x && acc.minY <= r.y && r.x + r.w <= acc.maxX && r.y + r.h <= acc.maxY
      {
        BoxContains(sub.rects, |sub.rects|, i);
      }
    }
  }

  /** The composite starts transparent, so a position of the canvas no
      drawable rectangle covers is (0, 0, 0, 0) in the frame's bitmap. */
  lemma UncoveredTransparent(packetPts: int, sub: Subtitle, tb: Rational, checked: bool, blend: Blend, px: nat, py: nat)
    requires AllShaped(sub.rects)
    requires var f := FrameOf(packetPts, sub, tb, checked, blend);
      f.Some? && f.value.bitmap.Some? && px < f.value.bitmap.value.width && py < f.value.bitmap.value.height
    requires forall i :: 0 <= i < |sub.rects| && sub.rects[i].Some? ==>
      !(Drawable(sub.rects[i].value)
        && sub.rects[i].value.x <= FrameOf(packetPts, sub, tb, checked, blend).value.x + px < sub.rects[i].value.x + sub.rects[i].value.w
        && sub.rects[i].value.y <= FrameOf(packetPts, sub, tb, checked, blend).value.y + py < sub.rects[i].value.y + sub.rects[i].value.h)
    ensures var b := FrameOf(packetPts, sub, tb, checked, blend).value.bitmap.value;
      (py * b.width + px) * 4 + 4 <= |b.data|
      && PixelAt(b.data, (py * b.width + px) * 4) == Rgba(0, 0, 0, 0)
  {
    BoxNonEmpty(sub.rects);
    var c := CanvasOf(BoxOf(sub.rects));
    var zero := Transparent(CanvasSize(c));
    PaintRectsKeeps(zero, c, sub.rects, |sub.rects|, checked, blend, px, py);
  }

  /** get_next_subtitle_frame once a subtitle has been decoded: times, then
      the clear command, the bounding box, the zeroed canvas and the
      composite. */
  method ComposeFrame(packetPts: int, sub: Subtitle, tb: Rational, checked: bool, blend: Blend) returns (f: Option<SubtitleFrame>)
    requires AllShaped(sub.rects)
    ensures f == FrameOf(packetPts, sub, tb, checked, blend)
  {
    var pts := ChoosePts(packetPts, sub.pts);
    var base := PtsToSeconds(pts, tb);
    var (start, end) := DisplayTimes(base, sub.startMs, sub.endMs);
    if |sub.rects| == 0 {
      return Some(SubtitleFrame(None, pts, base, start, end, 0, 0));
    }
    var acc := BoundingBox(sub.rects);
    if !acc.has {
      return None;
    }
    BoxNonEmpty(sub.rects);
    var c := CanvasOf(acc);
    var img := new Byte[CanvasSize(c)](_ => 0);
    assert img[..] == Transparent(CanvasSize(c));
    Composite(img, c, sub.rects, checked, blend);
    f := Some(SubtitleFrame(Some(BitmapData(img[..], c.width, c.height, c.width * 4)), pts, base, start, end, acc.minX, acc.minY));
  }

  predicate PacketsShaped(packets: seq<Packet>)
  {
    forall i :: 0 <= i < |packets| && packets[i].decoded.Decoded? ==> AllShaped(packets[i].decoded.sub.rects)
  }

  /** The frame a packet yields: packets of other streams, decode errors and
      packets that decode to nothing yield none. */
  function PacketFrame(p: Packet, stream: int, tb: Rational, checked: bool, blend: Blend): Option<SubtitleFrame>
    requires p.decoded.Decoded? ==> AllShaped(p.decoded.sub.rects)
  {
    if p.streamIndex != stream then None
    else match p.decoded
      case Decoded(sub) => FrameOf(p.pts, sub, tb, checked, blend)
      case _ => None
  }

  /** The read loop: packets are consumed from pos until one yields a frame;
      None once the packets run out. */
  method ReadNextFrame(packets: seq<Packet>, pos: nat, stream: int, tb: Rational, checked: bool, blend: Blend)
    returns (f: Option<SubtitleFrame>, next: nat)
    requires pos <= |packets| && PacketsShaped(packets)
    ensures pos <= next <= |packets|
    ensures f.None? ==> next == |packets|
    ensures f.Some? ==> pos < next && f == PacketFrame(packets[next - 1], stream, tb, checked, blend)
    ensures forall i :: pos <= i < next && (f.None? || i < next - 1) ==> PacketFrame(packets[i], stream, tb, checked, blend).None?
  {
    next := pos;
    while next < |packets|
      invariant pos <= next <= |packets|
      invariant forall i :: pos <= i < next ==> PacketFrame(packets[i], stream, tb, checked, blend).None?
    {
      var p := packets[next];
      next := next + 1;
      if p.streamIndex != stream {
        continue;
      }
      match p.decoded
      case DecodeError =>
      case NothingDecoded =>
      case Decoded(sub) =>
        f := ComposeFrame(p.pts, sub, tb, checked, blend);
        if f.Some? {
          return;
        }
    }
    f := None;
  }

  // ---------------------------------------------------------------------------
  // The C++ interface

  /** The frame the C++ version clears before reading. */
  const ResetFrame: SubtitleFrame := SubtitleFrame(None, 0, 0.0, 0.0, 0.0, 0, 0)

  /** The C++ base timestamp: pts_to_seconds when the pts is present, 0
      otherwise; with a non-zero denominator it is the Rust value. */
  lemma CppBaseTimestamp(pts: int, tb: Rational)
    requires tb.den != 0
    ensures (if pts != NoPts then CppPtsToSeconds(pts, tb).value else 0.0) == PtsToSeconds(pts, tb)
  {
  }

  /** get_next_subtitle_frame of src/ffmpeg_wrapper.cpp: the out-parameter
      is reset first and left reset at the end of the stream, when the
      answer is false; rectangles are not checked for null and palette
      indices are not checked against nb_colors. */
  method CppGetNextSubtitleFrame(packets: seq<Packet>, pos: nat, stream: int, tb: Rational, blend: Blend)
    returns (ok: bool, frame: SubtitleFrame, next: nat)
    requires pos <= |packets| && PacketsShaped(packets) && tb.den != 0
    requires forall i, j :: 0 <= i < |packets| && packets[i].decoded.Decoded? && 0 <= j < |packets[i].decoded.sub.rects| ==>
      packets[i].decoded.sub.rects[j].Some?
    ensures pos <= next <= |packets|
    ensures !ok ==> frame == ResetFrame && next == |packets|
    ensures ok ==> pos < next && PacketFrame(packets[next - 1], stream, tb, false, blend) == Some(frame)
    ensures forall i :: pos <= i < next && (!ok || i < next - 1) ==> PacketFrame(packets[i], stream, tb, false, blend).None?
  {
    frame := ResetFrame;
    var f;
    f, next := ReadNextFrame(packets, pos, stream, tb, false, blend);
    ok := f.Some?;
    if ok {
      frame := f.value;
    }
  }

  /** Stream parameters as get_video_info reports them. */
  datatype VideoInfo = VideoInfo(width: int, height: int, fps: real, startTime: real)

  /** get_video_info: the stored information, with the user's frame rate in
      place of the probed one when the user gave one. */
  function GetVideoInfo(stored: VideoInfo, userFps: Option<real>): (info: VideoInfo)
    ensures info.width == stored.width && info.height == stored.height && info.startTime == stored.startTime
    ensures userFps.Some? ==> info.fps == userFps.value
    ensures userFps.None? ==> info == stored
  {
    match userFps
    case None => stored
    case Some(fps) => stored.(fps := fps)
  }
}
