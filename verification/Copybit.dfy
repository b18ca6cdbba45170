/**
 Blitting with clipping, rotation, flipping and scaling: the rectangle set-up of
 one request in 32-bit unsigned arithmetic, and the batches handed to the driver.
 */
module Copybit {
  import opened Words

  const MAX_DIMENSION := 4096
  const MAX_SPAN := 0xF_0000  // products with a dimension stay in 32 bits
  const MAX_COUNT := 12
  const EINVAL := 22

  datatype Rect = Rect(l: int, t: int, r: int, b: int)
  datatype MdpRect = MdpRect(x: nat, y: nat, w: nat, h: nat)
  datatype Flags = Flags(rot90: bool, flipH: bool, flipV: bool)
  datatype Request = Request(dst: MdpRect, src: MdpRect)

  function Min(a: int, b: int): int { if a < b then a else b }
  function Max(a: int, b: int): int { if a > b then a else b }

  /** The value a 32-bit unsigned field keeps. */
  function U32(v: int): (u: nat)
    ensures u < 0x1_0000_0000 && (0 <= v < 0x1_0000_0000 ==> u == v)
  {
    v % 0x1_0000_0000
  }

  function Intersect(a: Rect, b: Rect): Rect {
    Rect(Max(a.l, b.l), Max(a.t, b.t), Min(a.r, b.r), Min(a.b, b.b))
  }

  function MulDiv(v: nat, mul: int, div: int): nat
    requires mul == div || U32(div) != 0
  {
    if mul != div then U32(mul * v) / U32(div) else v
  }

  /** The lengths of a destination area along the two source axes. */
  function SpanX(f: Flags, area: Rect): int { if f.rot90 then area.b - area.t else area.r - area.l }
  function SpanY(f: Flags, area: Rect): int { if f.rot90 then area.r - area.l else area.b - area.t }

  /** Where the code divides, it does not divide by zero. */
  predicate Divisible(f: Flags, dst: Rect, src: Rect) {
    && (src.r - src.l == SpanX(f, dst) || U32(SpanX(f, dst)) != 0)
    && (src.b - src.t == SpanY(f, dst) || U32(SpanY(f, dst)) != 0)
  }

  function SetRects(f: Flags, dst: Rect, src: Rect, scissor: Rect, srcW: nat, srcH: nat): Request
    requires Divisible(f, dst, src)
  {
    var clip := Intersect(scissor, dst);
    var d := MdpRect(U32(clip.l), U32(clip.t), U32(clip.r - clip.l), U32(clip.b - clip.t));
    var (s, w, h) :=
      if f.rot90 then
        (MdpRect(U32(clip.t - dst.t + src.t), U32(dst.r - clip.r + src.l), U32(clip.b - clip.t), U32(clip.r - clip.l)),
         dst.b - dst.t, dst.r - dst.l)
      else
        (MdpRect(U32(clip.l - dst.l + src.l), U32(clip.t - dst.t + src.t), U32(clip.r - clip.l), U32(clip.b - clip.t)),
         dst.r - dst.l, dst.b - dst.t);
    var x, sw := MulDiv(s.x, src.r - src.l, w), MulDiv(s.w, src.r - src.l, w);
    var y, sh := MulDiv(s.y, src.b - src.t, h), MulDiv(s.h, src.b - src.t, h);
    var sx, sy := if f.flipH then U32(srcW - (x + sw)) else x, if f.flipV then U32(srcH - (y + sh)) else y;
    Request(d, MdpRect(sx, sy, sw, sh))
  }

  predicate Inside(m: MdpRect, w: int, h: int) {
    m.x + m.w <= w && m.y + m.h <= h
  }

  predicate Meets(a: Rect, b: Rect) {
    var c := Intersect(a, b); c.l < c.r && c.t < c.b
  }

  // ----- scaling one axis

  lemma Product(a: nat, b: nat, c: nat, d: nat)
    requires a <= c && b <= d
    ensures 0 <= a * b <= c * d
  {
  }

  lemma Distribute(m: int, a: int, b: int)
    ensures m * (a + b) == m * a + m * b
  {
  }

  lemma StepUp(m: int, x: int, d: nat)
    ensures m < x ==> m * d + d <= x * d
  {
    if m < x { Product(1, d, x - m, d); }
    Distribute(d, x - m, m);
  }

  lemma QuotientIs(a: int, d: nat)
    requires d > 0
    ensures a / d * d <= a < a / d * d + d
  {
  }

  /** The quotient is the greatest number whose multiple does not exceed the dividend. */
  lemma Greatest(x: int, a: int, d: nat)
    requires d > 0 && x * d <= a
    ensures x <= a / d
  {
    QuotientIs(a, d);
    StepUp(a / d, x, d);
  }

  lemma FloorMono(a: int, b: int, d: nat)
    requires d > 0 && a <= b
    ensures a / d <= b / d
  {
    QuotientIs(a, d);
    Greatest(a / d, b, d);
  }

  lemma FloorShift(m: int, a: int, d: nat)
    requires d > 0
    ensures (m * d + a) / d == m + a / d
  {
    var e := (m * d + a) / d;
    Distribute(d, m, a / d);
    QuotientIs(a, d);
    QuotientIs(m * d + a, d);
    Greatest(m + a / d, m * d + a, d);
    StepUp(m + a / d, e, d);
  }

  lemma FloorSum(a: int, b: int, d: nat)
    requires d > 0
    ensures a / d + b / d <= (a + b) / d
  {
    FloorShift(a / d, b, d);
    QuotientIs(a, d);
    FloorMono(a / d * d + b, a + b, d);
  }

  lemma FloorBounds(a: nat, d: nat)
    requires d > 0
    ensures 0 <= a / d <= a
  {
    Greatest(0, a, d);
    QuotientIs(a, d);
    Product(a / d, 1, a / d, d);
  }

  /** How far along a source axis a stretch can read: its own origin is scaled as well. */
  function Reach(origin: nat, size: nat, span: nat): nat
    requires span > 0
  {
    Product(0, 0, size, origin);
    size + size * origin / span
  }

  /** Without scaling, or from zero, the reach is the end of the source rectangle. */
  lemma PlainReach(origin: nat, size: nat, span: nat)
    requires span > 0 && (origin == 0 || size == span)
    ensures Reach(origin, size, span) == origin + size
  {
    if size == span { FloorShift(origin, 0, span); }
  }

  predicate AxisSized(origin: int, size: int, span: int, limit: int) {
    0 <= origin <= MAX_DIMENSION && 0 <= size <= limit <= MAX_DIMENSION && 0 < span <= MAX_SPAN
  }

  /** An interval of a destination axis, scaled and truncated, stays within the reach of the whole axis. */
  lemma ScaledAxis(v: nat, n: nat, origin: nat, size: nat, span: nat, limit: int)
    requires AxisSized(origin, size, span, limit) && v + n <= span
    ensures MulDiv(v + origin, size, span) + MulDiv(n, size, span) <= Reach(origin, size, span) <= 0x110_0000
  {
    Product(size, origin, MAX_DIMENSION, MAX_DIMENSION);
    FloorBounds(size * origin, span);
    if size == span {
      PlainReach(origin, size, span);
    } else {
      Product(size, v + origin, MAX_DIMENSION, MAX_SPAN + MAX_DIMENSION);
      Product(size, n, MAX_DIMENSION, MAX_SPAN);
      SumWithinReach(v, n, origin, size, span);
    }
  }

  lemma SumWithinReach(v: nat, n: nat, origin: nat, size: nat, span: nat)
    requires span > 0 && v + n <= span
    ensures size * (v + origin) / span + size * n / span <= Reach(origin, size, span)
  {
    FloorSum(size * (v + origin), size * n, span);
    Distribute(size, v + origin, n);
    Distribute(size, span, origin);
    Product(size, v + origin + n, size, span + origin);
    FloorMono(size * (v + origin + n), size * span + size * origin, span);
    FloorShift(size, size * origin, span);
  }

  /** The whole axis reads exactly that far. */
  lemma WholeAxis(origin: nat, size: nat, span: nat, limit: int)
    requires AxisSized(origin, size, span, limit)
    ensures MulDiv(span, size, span) == size
    ensures MulDiv(origin, size, span) + MulDiv(span, size, span) == Reach(origin, size, span)
  {
    Product(size, origin, MAX_DIMENSION, MAX_DIMENSION);
    Product(size, span, MAX_DIMENSION, MAX_SPAN);
    FloorShift(size, 0, span);
    if size == span { PlainReach(origin, size, span); }
  }

  /** The start of the interval read, counted from the far end when the axis is flipped. */
  function Start(flip: bool, limit: int, x: int, w: int): int {
    if flip then U32(limit - (x + w)) else x
  }

  lemma FlipKeeps(flip: bool, limit: nat, x: nat, w: nat)
    requires limit <= MAX_DIMENSION && x + w <= 0x110_0000
    ensures Start(flip, limit, x, w) + w <= limit <==> x + w <= limit
  {
  }

  predicate Sized(w: int, h: int) {
    0 < w <= MAX_DIMENSION && 0 < h <= MAX_DIMENSION
  }

  /** The source origins a stretch adds: rotation swaps them, though not the sizes they go with. */
  function OriginX(f: Flags, src: Rect): int { if f.rot90 then src.t else src.l }
  function OriginY(f: Flags, src: Rect): int { if f.rot90 then src.l else src.t }

  /** Proper rectangles, the source one inside its image as the code demands. */
  predicate StretchRects(dst: Rect, src: Rect, srcW: int, srcH: int) {
    && 0 < dst.r - dst.l <= MAX_SPAN && 0 < dst.b - dst.t <= MAX_SPAN
    && 0 <= src.l <= src.r <= srcW <= MAX_DIMENSION && 0 <= src.t <= src.b <= srcH <= MAX_DIMENSION
  }

  /** Both axes reach no further than the image. */
  predicate StretchFits(f: Flags, dst: Rect, src: Rect, srcW: int, srcH: int)
    requires StretchRects(dst, src, srcW, srcH)
  {
    && Reach(OriginX(f, src), src.r - src.l, SpanX(f, dst)) <= srcW
    && Reach(OriginY(f, src), src.b - src.t, SpanY(f, dst)) <= srcH
  }

  /** The part of the clip along one source axis, as an offset and a length in the destination. */
  function OffsetX(f: Flags, dst: Rect, c: Rect): int { if f.rot90 then c.t - dst.t else c.l - dst.l }
  function OffsetY(f: Flags, dst: Rect, c: Rect): int { if f.rot90 then dst.r - c.r else c.t - dst.t }

  lemma ClipExtents(f: Flags, dst: Rect, scissor: Rect)
    requires Meets(scissor, dst)
    ensures var c := Intersect(scissor, dst);
      && 0 <= OffsetX(f, dst, c) && 0 < SpanX(f, c) && OffsetX(f, dst, c) + SpanX(f, c) <= SpanX(f, dst)
      && 0 <= OffsetY(f, dst, c) && 0 < SpanY(f, c) && OffsetY(f, dst, c) + SpanY(f, c) <= SpanY(f, dst)
  {
  }

  /** The source rectangle of a clip, one axis at a time. */
  lemma SourceRect(f: Flags, dst: Rect, src: Rect, srcW: nat, srcH: nat, scissor: Rect)
    requires StretchRects(dst, src, srcW, srcH) && Meets(scissor, dst)
    ensures var q, c := SetRects(f, dst, src, scissor, srcW, srcH), Intersect(scissor, dst);
      var (sx, sy) := (src.r - src.l, src.b - src.t);
      && 0 <= OffsetX(f, dst, c) && 0 < SpanX(f, c) && 0 <= OffsetY(f, dst, c) && 0 < SpanY(f, c)
      && q.src.w == MulDiv(SpanX(f, c), sx, SpanX(f, dst)) && q.src.h == MulDiv(SpanY(f, c), sy, SpanY(f, dst))
      && q.src.x == Start(f.flipH, srcW, MulDiv(OffsetX(f, dst, c) + OriginX(f, src), sx, SpanX(f, dst)), q.src.w)
      && q.src.y == Start(f.flipV, srcH, MulDiv(OffsetY(f, dst, c) + OriginY(f, src), sy, SpanY(f, dst)), q.src.h)
  {
    ClipExtents(f, dst, scissor);
  }

  lemma AxisInside(flip: bool, v: nat, n: nat, origin: nat, size: nat, span: nat, limit: int)
    requires AxisSized(origin, size, span, limit) && v + n <= span && Reach(origin, size, span) <= limit
    ensures var x, w := MulDiv(v + origin, size, span), MulDiv(n, size, span); Start(flip, limit, x, w) + w <= limit
  {
    ScaledAxis(v, n, origin, size, span, limit);
    FlipKeeps(flip, limit, MulDiv(v + origin, size, span), MulDiv(n, size, span));
  }

  lemma AxisNeedsReach(flip: bool, origin: nat, size: nat, span: nat, limit: int)
    requires AxisSized(origin, size, span, limit)
    ensures var x, w := MulDiv(origin, size, span), MulDiv(span, size, span);
      Start(flip, limit, x, w) + w <= limit <==> Reach(origin, size, span) <= limit
  {
    ScaledAxis(0, span, origin, size, span, limit);
    WholeAxis(origin, size, span, limit);
    FlipKeeps(flip, limit, MulDiv(origin, size, span), MulDiv(span, size, span));
  }

  lemma StretchInside(f: Flags, dst: Rect, src: Rect, srcW: int, srcH: int, scissor: Rect)
    requires StretchRects(dst, src, srcW, srcH) && StretchFits(f, dst, src, srcW, srcH) && Meets(scissor, dst)
    ensures Inside(SetRects(f, dst, src, scissor, srcW, srcH).src, srcW, srcH)
  {
    ClipExtents(f, dst, scissor);
    SourceRect(f, dst, src, srcW, srcH, scissor);
    var c := Intersect(scissor, dst);
    AxisInside(f.flipH, OffsetX(f, dst, c), SpanX(f, c), OriginX(f, src), src.r - src.l, SpanX(f, dst), srcW);
    AxisInside(f.flipV, OffsetY(f, dst, c), SpanY(f, c), OriginY(f, src), src.b - src.t, SpanY(f, dst), srcH);
  }

  /** With the whole destination as clip, nothing less will do. */
  lemma StretchNeedsReach(f: Flags, dst: Rect, src: Rect, srcW: int, srcH: int)
    requires StretchRects(dst, src, srcW, srcH)
    ensures Inside(SetRects(f, dst, src, dst, srcW, srcH).src, srcW, srcH) <==> StretchFits(f, dst, src, srcW, srcH)
  {
    SourceRect(f, dst, src, srcW, srcH, dst);
    AxisNeedsReach(f.flipH, OriginX(f, src), src.r - src.l, SpanX(f, dst), srcW);
    AxisNeedsReach(f.flipV, OriginY(f, src), src.b - src.t, SpanY(f, dst), srcH);
  }

  /** The condition fails for an unscaled rotated stretch of a rectangle inside the source, ... */
  lemma RotatedStretchExample()
    ensures var f, dst, src := Flags(true, false, false), Rect(0, 0, 50, 100), Rect(0, 50, 100, 100);
      && StretchRects(dst, src, 100, 100) && SpanX(f, dst) == src.r - src.l && SpanY(f, dst) == src.b - src.t
      && !Inside(SetRects(f, dst, src, dst, 100, 100).src, 100, 100)
  {
  }

  /** ... and for an upright one that shrinks a rectangle away from the origin, which goes twice as far as it should. */
  lemma ScaledOriginExample()
    ensures var f, dst, src := Flags(false, false, false), Rect(0, 0, 20, 10), Rect(50, 0, 90, 10);
      StretchRects(dst, src, 100, 100) && !Inside(SetRects(f, dst, src, dst, 100, 100).src, 100, 100)
  {
    StretchNeedsReach(Flags(false, false, false), Rect(0, 0, 20, 10), Rect(50, 0, 90, 10), 100, 100);
    assert Reach(50, 40, 20) == 140;
  }

  /**
   A whole-image blit reads inside the source and writes inside the destination,
   under every rotation and flip and for every clip that meets the destination.
   */
  lemma BlitInside(f: Flags, dw: int, dh: int, sw: int, sh: int, scissor: Rect)
    requires Sized(dw, dh) && Sized(sw, sh) && Meets(scissor, Rect(0, 0, dw, dh))
    ensures var q := SetRects(f, Rect(0, 0, dw, dh), Rect(0, 0, sw, sh), scissor, sw, sh);
      Inside(q.src, sw, sh) && Inside(q.dst, dw, dh) && q.dst.w > 0 && q.dst.h > 0
  {
    var dst, src := Rect(0, 0, dw, dh), Rect(0, 0, sw, sh);
    PlainReach(0, sw, SpanX(f, dst));
    PlainReach(0, sh, SpanY(f, dst));
    StretchInside(f, dst, src, sw, sh, scissor);
  }

  // ----- clips that miss the destination

  predicate Int32(v: int) { -0x8000_0000 <= v < 0x8000_0000 }

  /** A blit writes a nonempty rectangle inside the destination exactly for the clips that meet it. */
  lemma ClipMeetsIff(f: Flags, dw: int, dh: int, sw: int, sh: int, scissor: Rect)
    requires Sized(dw, dh) && Sized(sw, sh)
    requires Int32(scissor.l) && Int32(scissor.t) && Int32(scissor.r) && Int32(scissor.b)
    ensures var q := SetRects(f, Rect(0, 0, dw, dh), Rect(0, 0, sw, sh), scissor, sw, sh);
      q.dst.w > 0 && q.dst.h > 0 && Inside(q.dst, dw, dh) <==> Meets(scissor, Rect(0, 0, dw, dh))
  {
  }

  predicate Skipped(q: Request) {
    q.src.w == 0 || q.src.h == 0 || q.dst.w == 0 || q.dst.h == 0
  }

  /** A length of `n` destination pixels, which may be negative, comes to no source pixel. */
  predicate Gone(n: int, size: int, span: int) {
    U32(n) == 0 || (size != span && U32(size * n) < U32(span))
  }

  lemma WrapProduct(m: int, n: int)
    ensures U32(m * U32(n)) == U32(m * n)
  {
    var q := n / 0x1_0000_0000;
    assert n == U32(n) + 0x1_0000_0000 * q;
    Distribute(m, U32(n), 0x1_0000_0000 * q);
    WrapAway(m * U32(n), m * q);
    assert m * (0x1_0000_0000 * q) == 0x1_0000_0000 * (m * q);
  }

  lemma WrapAway(a: int, k: int)
    ensures U32(a + 0x1_0000_0000 * k) == U32(a)
  {
  }

  lemma GoneIs(n: int, size: int, span: int)
    requires size == span || U32(span) != 0
    ensures MulDiv(U32(n), size, span) == 0 || U32(n) == 0 <==> Gone(n, size, span)
  {
    WrapProduct(size, n);
    if size != span {
      DivZero(U32(size * U32(n)), U32(span));
    }
  }

  lemma DivZero(a: nat, d: nat)
    requires d > 0
    ensures a / d == 0 <==> a < d
  {
  }

  /** A clip is skipped exactly when its part of the destination, empty or wrapped, scales to nothing along an axis. */
  lemma SkippedIs(f: Flags, dst: Rect, src: Rect, scissor: Rect, srcW: nat, srcH: nat)
    requires Divisible(f, dst, src)
    ensures var c := Intersect(scissor, dst);
      Skipped(SetRects(f, dst, src, scissor, srcW, srcH)) <==>
        Gone(SpanX(f, c), src.r - src.l, SpanX(f, dst)) || Gone(SpanY(f, c), src.b - src.t, SpanY(f, dst))
  {
    var c := Intersect(scissor, dst);
    GoneIs(SpanX(f, c), src.r - src.l, SpanX(f, dst));
    GoneIs(SpanY(f, c), src.b - src.t, SpanY(f, dst));
  }

  /** So a clip beside the destination is submitted, its negative width wrapped to a huge one. */
  lemma DisjointClipExample()
    ensures var dst := Rect(0, 0, 100, 100);
      var q := SetRects(Flags(false, false, false), dst, dst, Rect(200, 0, 300, 100), 100, 100);
      q.dst.w == WORD - 100 && !Skipped(q)
  {
  }

  // ----- which pixel comes from where

  predicate Covers(m: MdpRect, x: int, y: int) {
    m.x <= x < m.x + m.w && m.y <= y < m.y + m.h
  }

  /** The source pixel of destination pixel (x, y): a clockwise quarter turn, then the flips. */
  function SourcePixel(f: Flags, dw: int, sw: int, sh: int, x: int, y: int): (int, int) {
    var (u, v) := if f.rot90 then (y, dw - 1 - x) else (x, y);
    (if f.flipH then sw - 1 - u else u, if f.flipV then sh - 1 - v else v)
  }

  /**
   An unscaled whole-image blit draws every clip from its own place: a destination
   pixel is written exactly when its source pixel lies in the source rectangle.
   */
  lemma BlitMapsPixels(f: Flags, dw: int, dh: int, sw: int, sh: int, scissor: Rect, x: int, y: int)
    requires Sized(dw, dh) && Sized(sw, sh) && Meets(scissor, Rect(0, 0, dw, dh))
    requires if f.rot90 then sw == dh && sh == dw else sw == dw && sh == dh
    ensures var q := SetRects(f, Rect(0, 0, dw, dh), Rect(0, 0, sw, sh), scissor, sw, sh);
      var (u, v) := SourcePixel(f, dw, sw, sh, x, y);
      Covers(q.dst, x, y) <==> Covers(q.src, u, v)
  {
  }

  predicate Within(area: Rect, x: int, y: int) {
    area.l <= x < area.r && area.t <= y < area.b
  }

  /** The destination pixels written are those that lie both in the clip and in the destination. */
  lemma DestinationPixels(f: Flags, dst: Rect, src: Rect, scissor: Rect, srcW: nat, srcH: nat, x: int, y: int)
    requires Divisible(f, dst, src) && Meets(scissor, dst)
    requires 0 <= scissor.l && scissor.r < 0x8000_0000 && 0 <= scissor.t && scissor.b < 0x8000_0000
    ensures Covers(SetRects(f, dst, src, scissor, srcW, srcH).dst, x, y) <==> Within(scissor, x, y) && Within(dst, x, y)
  {
  }

  /**
   The source pixel of a destination pixel in an unscaled stretch: the position inside the
   destination, turned if need be, from the source origins on, then flipped about the image.
   */
  function StretchPixel(f: Flags, dst: Rect, src: Rect, srcW: int, srcH: int, x: int, y: int): (int, int) {
    var (u, v) :=
      if f.rot90 then (src.t + y - dst.t, src.l + dst.r - 1 - x) else (src.l + x - dst.l, src.t + y - dst.t);
    (if f.flipH then srcW - 1 - u else u, if f.flipV then srcH - 1 - v else v)
  }

  /** An unscaled stretch that fits draws every clip pixel by pixel from there. */
  lemma StretchMapsPixels(f: Flags, dst: Rect, src: Rect, srcW: int, srcH: int, scissor: Rect, x: int, y: int)
    requires StretchRects(dst, src, srcW, srcH) && Meets(scissor, dst)
    requires SpanX(f, dst) == src.r - src.l && SpanY(f, dst) == src.b - src.t
    requires OriginX(f, src) + SpanX(f, dst) <= srcW && OriginY(f, src) + SpanY(f, dst) <= srcH
    ensures var (u, v) := StretchPixel(f, dst, src, srcW, srcH, x, y);
      Covers(SetRects(f, dst, src, scissor, srcW, srcH).src, u, v) <==> Within(scissor, x, y) && Within(dst, x, y)
  {
    UnscaledRect(f, dst, src, srcW, srcH, scissor);
  }

  /** Without scaling the source rectangle is the clip itself, moved to the origins and flipped. */
  lemma UnscaledRect(f: Flags, dst: Rect, src: Rect, srcW: int, srcH: int, scissor: Rect)
    requires StretchRects(dst, src, srcW, srcH) && Meets(scissor, dst)
    requires SpanX(f, dst) == src.r - src.l && SpanY(f, dst) == src.b - src.t
    requires OriginX(f, src) + SpanX(f, dst) <= srcW && OriginY(f, src) + SpanY(f, dst) <= srcH
    ensures var (q, c) := (SetRects(f, dst, src, scissor, srcW, srcH), Intersect(scissor, dst));
      var (u, v) := (OffsetX(f, dst, c) + OriginX(f, src), OffsetY(f, dst, c) + OriginY(f, src));
      && q.src.w == SpanX(f, c) && q.src.h == SpanY(f, c)
      && q.src.x == (if f.flipH then srcW - u - q.src.w else u) && q.src.y == if f.flipV then srcH - v - q.src.h else v
  {
    ClipExtents(f, dst, scissor);
    SourceRect(f, dst, src, srcW, srcH, scissor);
  }

  /** Scaling rounds down: the result is the greatest number whose `div`-fold is no more than the `mul`-fold. */
  lemma MulDivIs(v: nat, mul: nat, div: nat)
    requires mul <= MAX_DIMENSION && v <= MAX_SPAN && 0 < div <= MAX_SPAN
    ensures MulDiv(v, mul, div) * div <= mul * v < MulDiv(v, mul, div) * div + div
  {
    Product(mul, v, MAX_DIMENSION, MAX_SPAN);
    QuotientIs(mul * v, div);
  }

  // ----- whole calls

  /** One stretch call: the two images' sizes and rectangles. */
  datatype Blit = Blit(flags: Flags, dst: Rect, src: Rect, dstW: nat, dstH: nat, srcW: nat, srcH: nat) {
    function RequestFor(clip: Rect): Request
      requires Divisible(flags, dst, src)
    {
      SetRects(flags, dst, src, Intersect(Rect(0, 0, dstW, dstH), clip), srcW, srcH)
    }

    /** Requests of the clips that are not skipped, in order. */
    function Kept(clips: seq<Rect>): seq<Request>
      requires clips != [] ==> Divisible(flags, dst, src)
    {
      if |clips| == 0 then []
      else
        var q := RequestFor(clips[|clips|-1]);
        Kept(clips[..|clips|-1]) + (if Skipped(q) then [] else [q])
    }

    predicate Acceptable(alpha: int, srcHasAlpha: bool) {
      && !(alpha < 255 && srcHasAlpha)
      // the right and bottom edges are compared as unsigned numbers
      && 0 <= src.l && 0 <= src.r <= srcW && 0 <= src.t && 0 <= src.b <= srcH
      && srcW <= MAX_DIMENSION && srcH <= MAX_DIMENSION && dstW <= MAX_DIMENSION && dstH <= MAX_DIMENSION
    }
  }

  /** The part of the destination that lies in its image. */
  function Visible(bl: Blit): Rect {
    Intersect(Rect(0, 0, bl.dstW, bl.dstH), bl.dst)
  }

  predicate MeetsBlit(bl: Blit, clip: Rect) {
    Meets(Intersect(Rect(0, 0, bl.dstW, bl.dstH), clip), bl.dst)
  }

  predicate Proper(bl: Blit) {
    StretchRects(bl.dst, bl.src, bl.srcW, bl.srcH)
  }

  /** Every clip that meets the destination and is not skipped reads inside the source. */
  ghost predicate SubmitsInside(bl: Blit)
    requires Proper(bl)
  {
    forall clip :: MeetsBlit(bl, clip) && !Skipped(bl.RequestFor(clip)) ==>
      Inside(bl.RequestFor(clip).src, bl.srcW, bl.srcH)
  }

  /** One source axis of a call: the visible part of the destination along it, and the scaling. */
  datatype Axis = Axis(from: int, to: int, origin: int, size: int, span: int, limit: int) {
    predicate Valid() {
      AxisSized(origin, size, span, limit) && 0 <= from < to <= span
    }

    /** How many source pixels `n` destination pixels draw. */
    function Width(n: nat): nat
      requires Valid()
    {
      MulDiv(n, size, span)
    }

    /** Where a clip stops reading that runs from offset `v` to the end of what is visible. */
    function End(v: nat): nat
      requires Valid() && v <= to
    {
      MulDiv(v + origin, size, span) + Width(to - v)
    }

    /** No such clip that draws anything reads past the image. */
    ghost predicate Fits()
      requires Valid()
    {
      forall v: nat {:trigger End(v)} :: from <= v < to ==> Width(to - v) == 0 || End(v) <= limit
    }
  }

  function AxisX(bl: Blit): Axis {
    var (f, vis) := (bl.flags, Visible(bl));
    var from := OffsetX(f, bl.dst, vis);
    Axis(from, from + SpanX(f, vis), OriginX(f, bl.src), bl.src.r - bl.src.l, SpanX(f, bl.dst), bl.srcW)
  }

  function AxisY(bl: Blit): Axis {
    var (f, vis) := (bl.flags, Visible(bl));
    var from := OffsetY(f, bl.dst, vis);
    Axis(from, from + SpanY(f, vis), OriginY(f, bl.src), bl.src.b - bl.src.t, SpanY(f, bl.dst), bl.srcH)
  }

  /** Something of the destination is visible. */
  predicate Shows(bl: Blit) {
    MeetsBlit(bl, bl.dst)
  }

  lemma AxesValid(bl: Blit)
    requires Proper(bl) && Shows(bl)
    ensures AxisX(bl).Valid() && AxisY(bl).Valid()
  {
  }

  /** What is visible draws at least one source pixel along either axis. */
  predicate Draws(bl: Blit)
    requires Proper(bl)
  {
    Shows(bl) &&
    (AxesValid(bl); AxisX(bl).Width(AxisX(bl).to - AxisX(bl).from) > 0
      && AxisY(bl).Width(AxisY(bl).to - AxisY(bl).from) > 0)
  }

  ghost predicate VisibleFits(bl: Blit)
    requires Proper(bl) && Shows(bl)
  {
    AxesValid(bl);
    AxisX(bl).Fits() && AxisY(bl).Fits()
  }

  lemma MulDivMono(a: nat, b: nat, size: nat, span: nat)
    requires a <= b <= MAX_SPAN + MAX_DIMENSION && size <= MAX_DIMENSION && 0 < span <= MAX_SPAN
    ensures MulDiv(a, size, span) <= MulDiv(b, size, span)
  {
    Product(size, a, size, b);
    Product(size, b, MAX_DIMENSION, MAX_SPAN + MAX_DIMENSION);
    FloorMono(size * a, size * b, span);
  }

  /** Part of the visible part: it draws no more, and ends no later than a clip that runs on to the end. */
  lemma PartFits(flip: bool, a: Axis, v: nat, n: nat)
    requires a.Valid() && a.from <= v && 0 < n && v + n <= a.to
    ensures a.Width(n) <= a.Width(a.to - a.from)
    ensures a.Fits() && a.Width(n) > 0 ==>
      var x, w := MulDiv(v + a.origin, a.size, a.span), a.Width(n); Start(flip, a.limit, x, w) + w <= a.limit
  {
    MulDivMono(n, a.to - v, a.size, a.span);
    MulDivMono(n, a.to - a.from, a.size, a.span);
    if a.Fits() && a.Width(n) > 0 {
      assert a.End(v) <= a.limit;
      FlipKeeps(flip, a.limit, MulDiv(v + a.origin, a.size, a.span), a.Width(n));
    }
  }

  /** The clip cut to image and destination. */
  function Cut(bl: Blit, clip: Rect): Rect {
    Intersect(Intersect(Rect(0, 0, bl.dstW, bl.dstH), clip), bl.dst)
  }

  lemma VisiblePart(bl: Blit, clip: Rect)
    requires Proper(bl) && MeetsBlit(bl, clip)
    ensures Shows(bl) && AxisX(bl).Valid() && AxisY(bl).Valid()
    ensures var (f, c, a, b) := (bl.flags, Cut(bl, clip), AxisX(bl), AxisY(bl));
      && a.from <= OffsetX(f, bl.dst, c) && 0 < SpanX(f, c) && OffsetX(f, bl.dst, c) + SpanX(f, c) <= a.to
      && b.from <= OffsetY(f, bl.dst, c) && 0 < SpanY(f, c) && OffsetY(f, bl.dst, c) + SpanY(f, c) <= b.to
  {
  }

  /** The request of a clip, one axis at a time. */
  lemma RequestIs(bl: Blit, clip: Rect)
    requires Proper(bl) && MeetsBlit(bl, clip)
    ensures AxisX(bl).Valid() && AxisY(bl).Valid()
    ensures var (f, q, c, a, b) := (bl.flags, bl.RequestFor(clip), Cut(bl, clip), AxisX(bl), AxisY(bl));
      && 0 <= OffsetX(f, bl.dst, c) && 0 < SpanX(f, c) && 0 <= OffsetY(f, bl.dst, c) && 0 < SpanY(f, c)
      && q.src.w == a.Width(SpanX(f, c)) && q.src.h == b.Width(SpanY(f, c))
      && q.src.x == Start(f.flipH, a.limit, MulDiv(OffsetX(f, bl.dst, c) + a.origin, a.size, a.span), q.src.w)
      && q.src.y == Start(f.flipV, b.limit, MulDiv(OffsetY(f, bl.dst, c) + b.origin, b.size, b.span), q.src.h)
      && (Skipped(q) <==> q.src.w == 0 || q.src.h == 0)
  {
    VisiblePart(bl, clip);
    SourceRect(bl.flags, bl.dst, bl.src, bl.srcW, bl.srcH, Intersect(Rect(0, 0, bl.dstW, bl.dstH), clip));
  }

  lemma SubmittedInside(bl: Blit, clip: Rect)
    requires Proper(bl) && MeetsBlit(bl, clip) && !Skipped(bl.RequestFor(clip))
    ensures Draws(bl)
    ensures VisibleFits(bl) ==> Inside(bl.RequestFor(clip).src, bl.srcW, bl.srcH)
  {
    var (f, c) := (bl.flags, Cut(bl, clip));
    VisiblePart(bl, clip);
    RequestIs(bl, clip);
    PartFits(f.flipH, AxisX(bl), OffsetX(f, bl.dst, c), SpanX(f, c));
    PartFits(f.flipV, AxisY(bl), OffsetY(f, bl.dst, c), SpanY(f, c));
  }

  /** The clip that covers what is visible from the offsets `v` and `u` on. */
  function Rest(bl: Blit, v: int, u: int): Rect {
    var (dst, vis) := (bl.dst, Visible(bl));
    if bl.flags.rot90 then Rect(vis.l, dst.t + v, dst.r - u, vis.b) else Rect(dst.l + v, dst.t + u, vis.r, vis.b)
  }

  lemma RestIs(bl: Blit, v: nat, u: nat)
    requires Proper(bl) && Shows(bl) && AxisX(bl).from <= v < AxisX(bl).to && AxisY(bl).from <= u < AxisY(bl).to
    ensures var (f, c) := (bl.flags, Rest(bl, v, u));
      && MeetsBlit(bl, c) && Cut(bl, c) == c
      && OffsetX(f, bl.dst, c) == v && SpanX(f, c) == AxisX(bl).to - v
      && OffsetY(f, bl.dst, c) == u && SpanY(f, c) == AxisY(bl).to - u
  {
  }

  /** The end that such a clip reaches along an axis decides whether it reads inside. */
  lemma EndDecides(flip: bool, a: Axis, v: nat)
    requires a.Valid() && v < a.to
    ensures var w := a.Width(a.to - v);
      Start(flip, a.limit, MulDiv(v + a.origin, a.size, a.span), w) + w <= a.limit <==> a.End(v) <= a.limit
  {
    ScaledAxis(v, a.to - v, a.origin, a.size, a.span, a.limit);
    FlipKeeps(flip, a.limit, MulDiv(v + a.origin, a.size, a.span), a.Width(a.to - v));
  }

  lemma RestReads(bl: Blit, v: nat, u: nat)
    requires Proper(bl) && Shows(bl) && AxisX(bl).from <= v < AxisX(bl).to && AxisY(bl).from <= u < AxisY(bl).to
    ensures AxisX(bl).Valid() && AxisY(bl).Valid()
    ensures var (a, b, q) := (AxisX(bl), AxisY(bl), bl.RequestFor(Rest(bl, v, u)));
      && (Inside(q.src, bl.srcW, bl.srcH) <==> a.End(v) <= a.limit && b.End(u) <= b.limit)
      && (Skipped(q) <==> a.Width(a.to - v) == 0 || b.Width(b.to - u) == 0)
  {
    RestIs(bl, v, u);
    RequestIs(bl, Rest(bl, v, u));
    EndDecides(bl.flags.flipH, AxisX(bl), v);
    EndDecides(bl.flags.flipV, AxisY(bl), u);
  }

  lemma NeedsEnds(bl: Blit, v: nat, u: nat)
    requires Proper(bl) && Shows(bl) && AxisX(bl).from <= v < AxisX(bl).to && AxisY(bl).from <= u < AxisY(bl).to
    requires SubmitsInside(bl)
    ensures AxisX(bl).Valid() && AxisY(bl).Valid()
    ensures var (a, b) := (AxisX(bl), AxisY(bl));
      || a.Width(a.to - v) == 0 || b.Width(b.to - u) == 0 || (a.End(v) <= a.limit && b.End(u) <= b.limit)
  {
    RestIs(bl, v, u);
    RestReads(bl, v, u);
  }

  lemma NeedsVisibleFits(bl: Blit)
    requires Proper(bl) && Draws(bl) && SubmitsInside(bl)
    ensures VisibleFits(bl)
  {
    AxesValid(bl);
    var (a, b) := (AxisX(bl), AxisY(bl));
    assert a.Fits() by {
      forall v: nat | a.from <= v < a.to ensures a.Width(a.to - v) == 0 || a.End(v) <= a.limit {
        NeedsEnds(bl, v, b.from);
      }
    }
    assert b.Fits() by {
      forall u: nat | b.from <= u < b.to ensures b.Width(b.to - u) == 0 || b.End(u) <= b.limit {
        NeedsEnds(bl, a.from, u);
      }
    }
  }

  /**
   What a call submits for the clips that meet its destination reads inside the source
   exactly when nothing is drawn at all, or no clip that runs to the end of the visible
   part of an axis ends past the image.
   */
  lemma SubmitsInsideIff(bl: Blit)
    requires Proper(bl)
    ensures SubmitsInside(bl) <==> (Draws(bl) ==> VisibleFits(bl))
  {
    if SubmitsInside(bl) {
      if Draws(bl) { NeedsVisibleFits(bl); }
    } else {
      var clip :| MeetsBlit(bl, clip) && !Skipped(bl.RequestFor(clip))
        && !Inside(bl.RequestFor(clip).src, bl.srcW, bl.srcH);
      SubmittedInside(bl, clip);
    }
  }

  /** An axis that is visible as a whole ends at its reach, and draws unless the source is empty. */
  lemma WholeVisible(a: Axis)
    requires a.Valid() && a.from == 0 && a.to == a.span
    ensures a.Width(a.to) == a.size && a.End(0) == Reach(a.origin, a.size, a.span)
    ensures a.Fits() && a.size > 0 ==> Reach(a.origin, a.size, a.span) <= a.limit
  {
    WholeAxis(a.origin, a.size, a.span, a.limit);
  }

  predicate InImage(bl: Blit) {
    0 <= bl.dst.l && bl.dst.r <= bl.dstW && 0 <= bl.dst.t && bl.dst.b <= bl.dstH
  }

  lemma ShownWhole(bl: Blit)
    requires Proper(bl) && InImage(bl)
    ensures Shows(bl) && (Draws(bl) <==> bl.src.l < bl.src.r && bl.src.t < bl.src.b)
    ensures Draws(bl) && VisibleFits(bl) ==> StretchFits(bl.flags, bl.dst, bl.src, bl.srcW, bl.srcH)
  {
    assert Visible(bl) == bl.dst;
    AxesValid(bl);
    WholeVisible(AxisX(bl));
    WholeVisible(AxisY(bl));
  }

  /** For a destination inside its image: exactly when the source is empty or both axes reach no further than it. */
  lemma StretchInsideIff(bl: Blit)
    requires Proper(bl) && InImage(bl)
    ensures SubmitsInside(bl) <==>
      bl.src.l == bl.src.r || bl.src.t == bl.src.b || StretchFits(bl.flags, bl.dst, bl.src, bl.srcW, bl.srcH)
  {
    ShownWhole(bl);
    SubmitsInsideIff(bl);
    if StretchFits(bl.flags, bl.dst, bl.src, bl.srcW, bl.srcH) {
      FitsInside(bl);
    }
  }

  /** Reaching no further than the image is enough for every destination, also one that hangs over its image. */
  lemma FitsInside(bl: Blit)
    requires Proper(bl) && StretchFits(bl.flags, bl.dst, bl.src, bl.srcW, bl.srcH)
    ensures SubmitsInside(bl)
  {
    forall clip | MeetsBlit(bl, clip) ensures Inside(bl.RequestFor(clip).src, bl.srcW, bl.srcH) {
      StretchInside(bl.flags, bl.dst, bl.src, bl.srcW, bl.srcH, Intersect(Rect(0, 0, bl.dstW, bl.dstH), clip));
    }
  }

  /** It is not needed there: this one reaches 105 pixels into an image of 100 of which it never shows the end. */
  lemma HangingStretchExample()
    ensures var bl := Blit(Flags(false, false, false), Rect(0, 0, 20, 10), Rect(50, 0, 80, 10), 10, 10, 100, 10);
      Proper(bl) && !StretchFits(bl.flags, bl.dst, bl.src, 100, 10) && SubmitsInside(bl)
  {
    var bl := Blit(Flags(false, false, false), Rect(0, 0, 20, 10), Rect(50, 0, 80, 10), 10, 10, 100, 10);
    assert Reach(50, 30, 20) == 105;
    var (a, b) := (AxisX(bl), AxisY(bl));
    assert a == Axis(0, 10, 50, 30, 20, 100) && b == Axis(0, 10, 0, 10, 10, 10);
    forall v: nat {:trigger a.End(v)} | v < 10 ensures a.End(v) <= 100 {
      assert a.End(v) == 30 * (v + 50) / 20 + 30 * (10 - v) / 20;
    }
    assert VisibleFits(bl);
    SubmitsInsideIff(bl);
  }

  // ----- batches

  function Flat(batches: seq<seq<Request>>): seq<Request> {
    if |batches| == 0 then [] else Flat(batches[..|batches|-1]) + batches[|batches|-1]
  }

  lemma FlatSnoc(batches: seq<seq<Request>>, b: seq<Request>)
    ensures Flat(batches + [b]) == Flat(batches) + b
  {
    assert (batches + [b])[..|batches|] == batches;
  }

  lemma {:induction false} KeptPrefix(bl: Blit, clips: seq<Rect>, i: nat)
    requires (clips != [] ==> Divisible(bl.flags, bl.dst, bl.src)) && i <= |clips|
    ensures bl.Kept(clips[..i]) <= bl.Kept(clips)
    decreases |clips|
  {
    if i < |clips| {
      KeptPrefix(bl, clips[..|clips|-1], i);
      assert clips[..|clips|-1][..i] == clips[..i];
    } else {
      assert clips[..i] == clips;
    }
  }

  /** Batches handed to the driver: full ones that it accepted, and at most one more. */
  ghost predicate Batched(batches: seq<seq<Request>>, status: int, driver: nat -> int) {
    && (forall n :: 0 <= n < |batches| ==> 0 < |batches[n]| <= MAX_COUNT)
    && (forall n :: 0 <= n < |batches| - 1 ==> |batches[n]| == MAX_COUNT && driver(n) == 0)
    && (status == 0 || (|batches| > 0 && status == driver(|batches| - 1)))
  }

  ghost predicate AllAccepted(batches: seq<seq<Request>>, driver: nat -> int) {
    forall n :: 0 <= n < |batches| ==> |batches[n]| == MAX_COUNT && driver(n) == 0
  }

  /** A request that reads inside its source image and writes inside its destination image. */
  predicate Contained(bl: Blit, q: Request) {
    Inside(q.src, bl.srcW, bl.srcH) && Inside(q.dst, bl.dstW, bl.dstH)
  }

  /** With clips that meet the destination of a call that submits inside the source, all it submits is contained. */
  lemma {:induction false} KeptContained(bl: Blit, clips: seq<Rect>)
    requires Proper(bl) && SubmitsInside(bl) && bl.dstW <= MAX_DIMENSION && bl.dstH <= MAX_DIMENSION
    requires forall clip :: clip in clips ==> MeetsBlit(bl, clip)
    ensures forall q :: q in bl.Kept(clips) ==> Contained(bl, q)
  {
    if |clips| > 0 {
      KeptContained(bl, clips[..|clips|-1]);
      assert clips[|clips|-1] in clips;
    }
  }

  /** Hand one batch to the driver. */
  method MsmCopybit(list: seq<Request>, batches: seq<seq<Request>>, driver: nat -> int)
      returns (status: int, batches': seq<seq<Request>>)
    requires 0 < |list| <= MAX_COUNT && AllAccepted(batches, driver)
    ensures status == driver(|batches|) && Flat(batches') == Flat(batches) + list && |batches'| == |batches| + 1
    ensures Batched(batches', status, driver)
    ensures status == 0 && |list| == MAX_COUNT ==> AllAccepted(batches', driver)
  {
    FlatSnoc(batches, list);
    status, batches' := driver(|batches|), batches + [list];
  }

  /**
   Build the requests clip by clip and hand them over twelve at a time; stop at the
   first batch the driver refuses.  `driver` gives the driver's answer to the n-th batch.
   */
  method StretchCopybit(bl: Blit, alpha: int, srcHasAlpha: bool, clips: seq<Rect>, driver: nat -> int)
      returns (status: int, batches: seq<seq<Request>>)
    requires bl.Acceptable(alpha, srcHasAlpha) && clips != [] ==> Divisible(bl.flags, bl.dst, bl.src)
    // what is refused outright
    ensures (alpha < 255 && srcHasAlpha)
        || bl.src.l < 0 || bl.src.t < 0 || bl.src.r < 0 || bl.src.b < 0 || bl.src.r > bl.srcW || bl.src.b > bl.srcH
        || bl.srcW > 4096 || bl.srcH > 4096 || bl.dstW > 4096 || bl.dstH > 4096
      <==> !bl.Acceptable(alpha, srcHasAlpha)
    ensures !bl.Acceptable(alpha, srcHasAlpha) ==> status == -EINVAL && batches == []
    ensures bl.Acceptable(alpha, srcHasAlpha) ==>
      && Batched(batches, status, driver) && Flat(batches) <= bl.Kept(clips)
      && (status == 0 ==> Flat(batches) == bl.Kept(clips))
    ensures Proper(bl) && SubmitsInside(bl) && (forall clip :: clip in clips ==> MeetsBlit(bl, clip)) ==>
      forall q :: q in Flat(batches) ==> Contained(bl, q)
  {
    if !bl.Acceptable(alpha, srcHasAlpha) { return -EINVAL, []; }
    status, batches := SubmitClips(bl, clips, driver);
    AllContained(bl, clips, Flat(batches));
  }

  lemma AllContained(bl: Blit, clips: seq<Rect>, submitted: seq<Request>)
    requires clips != [] ==> Divisible(bl.flags, bl.dst, bl.src)
    requires bl.dstW <= MAX_DIMENSION && bl.dstH <= MAX_DIMENSION
    requires submitted <= bl.Kept(clips)
    ensures Proper(bl) && SubmitsInside(bl) && (forall clip :: clip in clips ==> MeetsBlit(bl, clip)) ==>
      forall q :: q in submitted ==> Contained(bl, q)
  {
    if Proper(bl) && SubmitsInside(bl) && (forall clip :: clip in clips ==> MeetsBlit(bl, clip)) {
      KeptContained(bl, clips);
      forall q | q in submitted ensures q in bl.Kept(clips) {
        var i :| 0 <= i < |submitted| && submitted[i] == q;
        assert bl.Kept(clips)[i] == q;
      }
    }
  }

  /** The loop over the clips. */
  method SubmitClips(bl: Blit, clips: seq<Rect>, driver: nat -> int) returns (status: int, batches: seq<seq<Request>>)
    requires clips != [] ==> Divisible(bl.flags, bl.dst, bl.src)
    ensures Batched(batches, status, driver) && Flat(batches) <= bl.Kept(clips)
    ensures status == 0 ==> Flat(batches) == bl.Kept(clips)
  {
    status, batches := 0, [];
    var list: seq<Request> := [];
    var i := 0;
    while status == 0 && i < |clips|
      invariant i <= |clips| && |list| < MAX_COUNT
      invariant if status == 0 then AllAccepted(batches, driver) else list == [] && Batched(batches, status, driver)
      invariant Flat(batches) + list == bl.Kept(clips[..i])
    {
      status, batches, list := TakeClip(bl, clips, i, list, batches, driver);
      i := i + 1;
    }
    KeptPrefix(bl, clips, i);
    if status == 0 {
      assert clips[..i] == clips;
      if |list| > 0 {
        status, batches := MsmCopybit(list, batches, driver);
      }
    }
  }

  /** One turn of the loop: skip the clip, or queue its request and submit a full batch. */
  method TakeClip(bl: Blit, clips: seq<Rect>, i: nat, list: seq<Request>, batches: seq<seq<Request>>,
      driver: nat -> int)
      returns (status: int, batches': seq<seq<Request>>, list': seq<Request>)
    requires Divisible(bl.flags, bl.dst, bl.src) && i < |clips| && |list| < MAX_COUNT && AllAccepted(batches, driver)
    requires Flat(batches) + list == bl.Kept(clips[..i])
    ensures |list'| < MAX_COUNT && Flat(batches') + list' == bl.Kept(clips[..i+1])
    ensures if status == 0 then AllAccepted(batches', driver) else list' == [] && Batched(batches', status, driver)
  {
    status, batches', list' := 0, batches, list;
    var q := bl.RequestFor(clips[i]);
    assert clips[..i+1][..i] == clips[..i];
    if !Skipped(q) {
      list' := list + [q];
      assert Flat(batches) + list' == bl.Kept(clips[..i+1]);
      if |list'| == MAX_COUNT {
        status, batches' := MsmCopybit(list', batches, driver);
        list' := [];
      }
    }
  }
}
