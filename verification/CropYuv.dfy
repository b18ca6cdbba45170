/**
 Cropping a YUV 4:2:0 picture inside its own buffer.  Rows of the source window
 are moved to a tighter layout; source and destination overlap, so the rows
 after a computed one move upwards and the rows up to it move downwards.
 */
module CropYuv {

  /** One plane's move: `rows` rows of `n` bytes, from stride `w` at `src` to stride `n` at `dst`. */
  datatype Plane = Plane(dst: nat, src: nat, w: nat, n: nat, rows: nat) {
    function Dst(i: nat): nat { dst + i * n }
    function Src(i: nat): nat { src + i * w }

    /** The row at which the copying direction switches. */
    function Position(): nat
      requires n < w && dst > src
    {
      (dst - src) / (w - n)
    }

    /** Rows the code really copies: the downward loop always starts at `Position`. */
    function Copied(): nat
      requires n < w
    {
      if dst > src && Position() >= rows then Position() + 1 else rows
    }

    ghost predicate InBounds(len: nat)
      requires n < w
    {
      forall i: nat {:trigger Dst(i)} {:trigger Src(i)} :: i < Copied() ==> Dst(i) + n <= len && Src(i) + n <= len
    }

    ghost predicate RowDone(before: seq<bv8>, now: seq<bv8>, i: nat) {
      && Dst(i) + n <= |now| == |before| && Src(i) + n <= |before|
      && now[Dst(i)..Dst(i) + n] == before[Src(i)..Src(i) + n]
    }

    ghost predicate RowIntact(before: seq<bv8>, now: seq<bv8>, i: nat) {
      && Src(i) + n <= |now| == |before|
      && now[Src(i)..Src(i) + n] == before[Src(i)..Src(i) + n]
    }

    ghost predicate Done(before: seq<bv8>, now: seq<bv8>, lo: nat, hi: nat) {
      forall i: nat {:trigger RowDone(before, now, i)} :: lo <= i < hi ==> RowDone(before, now, i)
    }

    ghost predicate Intact(before: seq<bv8>, now: seq<bv8>, lo: nat, hi: nat) {
      forall i: nat {:trigger RowIntact(before, now, i)} :: lo <= i < hi ==> RowIntact(before, now, i)
    }

    ghost predicate Outside(before: seq<bv8>, now: seq<bv8>)
      requires n < w
    {
      && |now| == |before|
      && forall a :: 0 <= a < |before| && !(dst <= a < Dst(Copied())) ==> now[a] == before[a]
    }

    /** The destination rows hold the original source window and nothing else changed. */
    ghost predicate Cropped(before: seq<bv8>, now: seq<bv8>)
      requires n < w
    {
      Done(before, now, 0, Copied()) && Outside(before, now)
    }
  }

  function Moved(s: seq<bv8>, d: nat, from: nat, n: nat): (r: seq<bv8>)
    requires d + n <= |s| && from + n <= |s|
    ensures |r| == |s| && r[d..d + n] == s[from..from + n]
    ensures forall a :: 0 <= a < |s| && !(d <= a < d + n) ==> r[a] == s[a]
  {
    s[..d] + s[from..from + n] + s[d + n..]
  }

  method MemMove(image: array<bv8>, d: nat, from: nat, n: nat)
    requires d + n <= image.Length && from + n <= image.Length
    modifies image
    ensures image[..] == Moved(old(image[..]), d, from, n)
  {
    forall k | 0 <= k < n {
      image[d + k] := image[from + k];
    }
    assert forall a :: 0 <= a < image.Length ==> image[a] == Moved(old(image[..]), d, from, n)[a];
  }

  // ----- where rows lie relative to each other

  lemma Times(a: nat, b: nat, c: nat)
    requires a <= b
    ensures a * c <= b * c
  {
  }

  lemma DstApart(p: Plane, i: nat, j: nat)
    requires i < j
    ensures p.Dst(i) + p.n == p.Dst(i + 1) <= p.Dst(j)
  {
    Times(i + 1, j, p.n);
  }

  /** Writing row `i` stays clear of every later source row, once row `i + 1` is no longer ahead of its source. */
  lemma AheadSafe(p: Plane, i: nat, j: nat)
    requires i < j && p.Dst(i + 1) <= p.Src(i + 1)
    ensures p.Dst(i) + p.n <= p.Src(j)
  {
    Times(i + 1, j, p.w);
  }

  /** Writing row `i` stays clear of every earlier source row whose destination lies past it. */
  lemma BehindSafe(p: Plane, i: nat, j: nat)
    requires j < i && p.Src(j) <= p.Dst(j)
    ensures p.Src(j) + p.n <= p.Dst(i)
  {
    Times(j + 1, i, p.n);
  }

  /** Rows up to `Position` move towards higher addresses, rows after it towards lower ones. */
  lemma SwitchRow(p: Plane, i: nat)
    requires p.n < p.w && p.dst > p.src
    ensures i <= p.Position() ==> p.Src(i) <= p.Dst(i)
    ensures i > p.Position() ==> p.Dst(i) <= p.Src(i)
  {
    var g, q := p.w - p.n, p.Position();
    assert q * g <= p.dst - p.src < (q + 1) * g by { DivBounds(p.dst - p.src, g); }
    assert i * p.w == i * p.n + i * g;
    if i <= q { Times(i, q, g); } else { Times(q + 1, i, g); }
  }

  lemma DivBounds(a: nat, g: nat)
    requires g > 0
    ensures a / g * g <= a < (a / g + 1) * g
  {
  }

  lemma ForwardRow(p: Plane, i: nat)
    requires p.n < p.w && p.dst <= p.src
    ensures p.Dst(i) <= p.Src(i)
  {
    Times(p.n, p.w, i);
  }

  /** Every row of an ascending pass has its source at or past its destination. */
  lemma AscendingRow(p: Plane, i: nat)
    requires p.n < p.w && (p.dst > p.src ==> i > p.Position())
    ensures p.Dst(i) <= p.Src(i)
  {
    if p.dst > p.src { SwitchRow(p, i); } else { ForwardRow(p, i); }
  }

  lemma InsideRow(p: Plane, i: nat)
    requires p.n < p.w && i < p.Copied()
    ensures p.dst <= p.Dst(i) && p.Dst(i) + p.n <= p.Dst(p.Copied())
  {
    if i + 1 < p.Copied() { DstApart(p, i, p.Copied()); }
  }

  // ----- one row move

  /** Moving row `i` finishes it and keeps every finished row and every safe pending source row. */
  lemma RowMoved(p: Plane, before: seq<bv8>, now: seq<bv8>, i: nat, j: nat)
    requires p.n < p.w && |now| == |before| && p.RowIntact(before, now, i) && p.Dst(i) + p.n <= |now|
    requires j != i
    ensures var next := Moved(now, p.Dst(i), p.Src(i), p.n);
      && p.RowDone(before, next, i)
      && (p.RowDone(before, now, j) ==> p.RowDone(before, next, j))
      && (p.RowIntact(before, now, j) && (p.Dst(i) + p.n <= p.Src(j) || p.Src(j) + p.n <= p.Dst(i))
          ==> p.RowIntact(before, next, j))
  {
    if i < j { DstApart(p, i, j); } else { DstApart(p, j, i); }
  }

  lemma RowMovedOutside(p: Plane, before: seq<bv8>, now: seq<bv8>, i: nat)
    requires p.n < p.w && i < p.Copied() && p.InBounds(|now|) && p.Outside(before, now)
    ensures p.Dst(i) + p.n <= |now| && p.Src(i) + p.n <= |now|
    ensures p.Outside(before, Moved(now, p.Dst(i), p.Src(i), p.n))
  {
    assert p.Dst(i) + p.n <= |now|;
    InsideRow(p, i);
  }

  lemma UpStep(p: Plane, before: seq<bv8>, now: seq<bv8>, first: nat, i: nat)
    requires p.n < p.w && first <= i < p.rows && p.InBounds(|now|) && p.Outside(before, now)
    requires first == if p.dst > p.src then p.Position() + 1 else 0
    requires p.Done(before, now, first, i) && p.Intact(before, now, 0, first) && p.Intact(before, now, i, p.rows)
    ensures p.Dst(i) + p.n <= |now| && p.Src(i) + p.n <= |now|
    ensures var next := Moved(now, p.Dst(i), p.Src(i), p.n);
      && p.Outside(before, next) && p.Done(before, next, first, i + 1)
      && p.Intact(before, next, 0, first) && p.Intact(before, next, i + 1, p.rows)
  {
    RowMovedOutside(p, before, now, i);
    var next := Moved(now, p.Dst(i), p.Src(i), p.n);
    assert p.RowIntact(before, now, i);
    RowMoved(p, before, now, i, i + 1);
    forall j: nat | first <= j < i ensures p.RowDone(before, next, j) {
      assert p.RowDone(before, now, j);
      RowMoved(p, before, now, i, j);
    }
    forall j: nat | j < first || i < j < p.rows ensures p.RowIntact(before, next, j) {
      assert p.RowIntact(before, now, j);
      UpClear(p, first, i, j);
      RowMoved(p, before, now, i, j);
    }
  }

  /** An ascending move of row `i` is clear of the rows before `first` and of the rows still to come. */
  lemma UpClear(p: Plane, first: nat, i: nat, j: nat)
    requires p.n < p.w && first <= i && (j < first || i < j)
    requires first == if p.dst > p.src then p.Position() + 1 else 0
    ensures p.Dst(i) + p.n <= p.Src(j) || p.Src(j) + p.n <= p.Dst(i)
  {
    if j < first {
      SwitchRow(p, j);
      BehindSafe(p, i, j);
    } else {
      AscendingRow(p, i + 1);
      AheadSafe(p, i, j);
    }
  }

  lemma DownStep(p: Plane, before: seq<bv8>, now: seq<bv8>, i: nat)
    requires p.n < p.w && p.dst > p.src && i <= p.Position() && p.InBounds(|now|) && p.Outside(before, now)
    requires p.Done(before, now, i + 1, p.Copied()) && p.Intact(before, now, 0, i + 1)
    ensures p.Dst(i) + p.n <= |now| && p.Src(i) + p.n <= |now|
    ensures var next := Moved(now, p.Dst(i), p.Src(i), p.n);
      p.Outside(before, next) && p.Done(before, next, i, p.Copied()) && p.Intact(before, next, 0, i)
  {
    RowMovedOutside(p, before, now, i);
    var next := Moved(now, p.Dst(i), p.Src(i), p.n);
    assert p.RowIntact(before, now, i);
    RowMoved(p, before, now, i, i + 1);
    forall j: nat | i < j < p.Copied() ensures p.RowDone(before, next, j) {
      assert p.RowDone(before, now, j);
      RowMoved(p, before, now, i, j);
    }
    forall j: nat | j < i ensures p.RowIntact(before, next, j) {
      assert p.RowIntact(before, now, j);
      SwitchRow(p, j);
      BehindSafe(p, i, j);
      RowMoved(p, before, now, i, j);
    }
  }

  // ----- one plane

  method CropPlane(image: array<bv8>, p: Plane)
    requires p.n < p.w && p.InBounds(image.Length)
    modifies image
    ensures p.Cropped(old(image[..]), image[..])
  {
    ghost var before := image[..];
    forall i: nat | i < p.Copied() ensures p.RowIntact(before, before, i) {
      assert p.Src(i) + p.n <= |before|;
    }
    if p.dst > p.src {
      var position := p.Position();
      MoveUpward(image, p, position + 1, before);
      var i := position + 1;
      while i > 0
        invariant i <= position + 1 && p.Outside(before, image[..])
        invariant p.Done(before, image[..], i, p.Copied()) && p.Intact(before, image[..], 0, i)
      {
        i := i - 1;
        DownStep(p, before, image[..], i);
        MemMove(image, p.Dst(i), p.Src(i), p.n);
      }
    } else {
      MoveUpward(image, p, 0, before);
    }
  }

  /** Ascending rows from `first`; the rows below `first` keep their sources. */
  method MoveUpward(image: array<bv8>, p: Plane, first: nat, ghost before: seq<bv8>)
    requires p.n < p.w && p.InBounds(image.Length) && before == image[..]
    requires first == if p.dst > p.src then p.Position() + 1 else 0
    requires p.Intact(before, before, 0, p.Copied())
    modifies image
    ensures p.Outside(before, image[..])
    ensures p.Done(before, image[..], first, p.rows) && p.Intact(before, image[..], 0, first)
  {
    var i := first;
    while i < p.rows
      invariant first <= i && p.Outside(before, image[..])
      invariant p.Done(before, image[..], first, i) && p.Intact(before, image[..], 0, first)
      invariant p.Intact(before, image[..], i, p.rows)
      invariant i <= p.rows || i == first
    {
      UpStep(p, before, image[..], first, i);
      MemMove(image, p.Dst(i), p.Src(i), p.n);
      i := i + 1;
    }
  }

  // ----- the picture

  datatype Target = MSM7627 | MSM7630 | OtherTarget

  /** Where luma and chroma start in a full-size and in a cropped picture. */
  datatype Layout = Layout(ySrc: nat, yDst: nat, cSrc: nat, cDst: nat)

  function EvenDown(v: nat): nat {
    v - v % 2
  }

  /** On two targets any buffer but the snapshot heap is tightly packed; otherwise the encoder's offsets hold. */
  function LayoutFor(target: Target, name: string, encoder: Layout, w: nat, h: nat, cw: nat, ch: nat): Layout {
    if target != OtherTarget && name != "snapshot camera" then Layout(0, 0, w * h, cw * ch) else encoder
  }

  function Left(w: nat, cw: nat): nat
    requires cw <= w
  {
    EvenDown((w - cw) / 2)
  }

  function Luma(l: Layout, w: nat, h: nat, cw: nat, ch: nat): Plane
    requires cw <= w && ch <= h
  {
    Plane(l.yDst, l.ySrc + w * Left(h, ch) + Left(w, cw), w, cw, ch)
  }

  function Chroma(l: Layout, w: nat, h: nat, cw: nat, ch: nat): Plane
    requires cw <= w && ch <= h
  {
    Plane(l.cDst, l.cSrc + w * (Left(h, ch) / 2) + Left(w, cw), w, cw, ch / 2)
  }

  /** Byte ranges that the copies write, and that the chroma copy still has to read. */
  ghost predicate KeepsApart(y: Plane, c: Plane)
    requires y.n < y.w && c.n < c.w
  {
    && (y.Dst(y.Copied()) <= c.dst || c.Dst(c.Copied()) <= y.dst)
    && forall i: nat {:trigger c.Src(i)} :: i < c.Copied() ==> y.Dst(y.Copied()) <= c.Src(i) || c.Src(i) + c.n <= y.dst
  }

  /** Bytes that neither plane's copies write are as they were. */
  ghost predicate OutsideBoth(y: Plane, c: Plane, before: seq<bv8>, now: seq<bv8>)
    requires y.n < y.w && c.n < c.w
  {
    && |now| == |before|
    && forall a :: 0 <= a < |before| && !(y.dst <= a < y.Dst(y.Copied())) && !(c.dst <= a < c.Dst(c.Copied())) ==>
         now[a] == before[a]
  }

  method CropYuv420(image: array<bv8>, target: Target, name: string, encoder: Layout, w: nat, h: nat, cw: nat, ch: nat)
    requires cw < w && ch <= h
    requires var l := LayoutFor(target, name, encoder, w, h, cw, ch);
      && Luma(l, w, h, cw, ch).InBounds(image.Length) && Chroma(l, w, h, cw, ch).InBounds(image.Length)
      && KeepsApart(Luma(l, w, h, cw, ch), Chroma(l, w, h, cw, ch))
    modifies image
    ensures var l := LayoutFor(target, name, encoder, w, h, cw, ch);
      && Luma(l, w, h, cw, ch).Done(old(image[..]), image[..], 0, Luma(l, w, h, cw, ch).Copied())
      && Chroma(l, w, h, cw, ch).Done(old(image[..]), image[..], 0, Chroma(l, w, h, cw, ch).Copied())
      && OutsideBoth(Luma(l, w, h, cw, ch), Chroma(l, w, h, cw, ch), old(image[..]), image[..])
    ensures var l := LayoutFor(target, name, encoder, w, h, cw, ch);
      var y, c := Luma(l, w, h, cw, ch), Chroma(l, w, h, cw, ch);
      y.dst <= image.Length && c.dst <= image.Length ==> image[..] == PictureAfter(y, c, old(image[..]))
    // byte for byte: the centred window, at the encoder's offsets or tightly packed
    ensures target == OtherTarget || name == "snapshot camera" ==>
      CentreCropped(old(image[..]), image[..], encoder.ySrc, encoder.yDst, encoder.cSrc, encoder.cDst, w, h, cw, ch)
    ensures target != OtherTarget && name != "snapshot camera" ==>
      CentreCropped(old(image[..]), image[..], 0, 0, w * h, cw * ch, w, h, cw, ch)
  {
    var l := LayoutFor(target, name, encoder, w, h, cw, ch);
    var y, c := Luma(l, w, h, cw, ch), Chroma(l, w, h, cw, ch);
    ghost var start := image[..];
    CropPlane(image, y);
    ghost var half := image[..];
    CropPlane(image, c);
    BothPlanes(y, c, start, half, image[..]);
    if y.dst <= image.Length && c.dst <= image.Length {
      CroppedIsAfter(y, start, half);
      CroppedIsAfter(c, half, image[..]);
    }
    DoneIsCentred(l, w, h, cw, ch, start, image[..]);
  }

  /** Byte `k` of row `r` of a plane whose rows are `stride` bytes apart. */
  function At(base: nat, stride: nat, r: nat, k: nat): nat {
    base + stride * r + k
  }

  /** The window of `rows` rows of `width` bytes at column `x0` and row `y0`, now packed at `dst`. */
  ghost predicate WindowAt(before: seq<bv8>, now: seq<bv8>, src: nat, dst: nat, stride: nat, width: nat, rows: nat,
                           x0: nat, y0: nat) {
    forall r: nat, k: nat {:trigger At(dst, width, r, k)} :: r < rows && k < width ==>
      && At(dst, width, r, k) < |now| && At(src, stride, y0 + r, x0 + k) < |before|
      && now[At(dst, width, r, k)] == before[At(src, stride, y0 + r, x0 + k)]
  }

  /** An even offset that leaves as much on either side, up to one pixel pair. */
  predicate Centred(offset: nat, whole: nat, part: nat) {
    offset % 2 == 0 && 2 * offset <= whole - part < 2 * offset + 4
  }

  ghost predicate CentreCropped(before: seq<bv8>, now: seq<bv8>, ySrc: nat, yDst: nat, cSrc: nat, cDst: nat,
                                w: nat, h: nat, cw: nat, ch: nat) {
    exists x0: nat, y0: nat :: Centred(x0, w, cw) && Centred(y0, h, ch)
      && WindowAt(before, now, ySrc, yDst, w, cw, ch, x0, y0)
      && WindowAt(before, now, cSrc, cDst, w, cw, ch / 2, x0, y0 / 2)
  }

  /** There is only one such offset. */
  lemma CentredOnce(a: nat, b: nat, whole: nat, part: nat)
    requires Centred(a, whole, part) && Centred(b, whole, part)
    ensures a == b
  {
  }

  lemma LeftIsCentred(whole: nat, part: nat)
    requires part <= whole
    ensures Centred(Left(whole, part), whole, part)
  {
  }

  lemma DoneIsWindow(p: Plane, before: seq<bv8>, now: seq<bv8>, src: nat, rows: nat, x0: nat, y0: nat)
    requires p.n < p.w && p.src == src + p.w * y0 + x0 && rows <= p.Copied() && p.Done(before, now, 0, p.Copied())
    ensures WindowAt(before, now, src, p.dst, p.w, p.n, rows, x0, y0)
  {
    forall r: nat, k: nat {:trigger At(p.dst, p.n, r, k)} | r < rows && k < p.n
      ensures At(p.dst, p.n, r, k) < |now| && At(src, p.w, y0 + r, x0 + k) < |before|
      ensures now[At(p.dst, p.n, r, k)] == before[At(src, p.w, y0 + r, x0 + k)]
    {
      assert p.RowDone(before, now, r);
      RowStart(p, src, x0, y0, r);
      assert now[p.Dst(r)..p.Dst(r) + p.n][k] == before[p.Src(r)..p.Src(r) + p.n][k];
    }
  }

  lemma RowStart(p: Plane, src: nat, x0: nat, y0: nat, r: nat)
    requires p.src == src + p.w * y0 + x0
    ensures p.Dst(r) == p.dst + p.n * r && p.Src(r) == src + p.w * (y0 + r) + x0
  {
  }

  lemma DoneIsCentred(l: Layout, w: nat, h: nat, cw: nat, ch: nat, before: seq<bv8>, now: seq<bv8>)
    requires cw < w && ch <= h
    requires Luma(l, w, h, cw, ch).Done(before, now, 0, Luma(l, w, h, cw, ch).Copied())
    requires Chroma(l, w, h, cw, ch).Done(before, now, 0, Chroma(l, w, h, cw, ch).Copied())
    ensures CentreCropped(before, now, l.ySrc, l.yDst, l.cSrc, l.cDst, w, h, cw, ch)
  {
    LeftIsCentred(w, cw);
    LeftIsCentred(h, ch);
    DoneIsWindow(Luma(l, w, h, cw, ch), before, now, l.ySrc, ch, Left(w, cw), Left(h, ch));
    DoneIsWindow(Chroma(l, w, h, cw, ch), before, now, l.cSrc, ch / 2, Left(w, cw), Left(h, ch) / 2);
  }

  /** With the planes kept apart, the second crop reads original chroma and spares the cropped luma. */
  lemma BothPlanes(y: Plane, c: Plane, start: seq<bv8>, half: seq<bv8>, end: seq<bv8>)
    requires y.n < y.w && c.n < c.w && y.InBounds(|start|) && c.InBounds(|start|) && KeepsApart(y, c)
    requires y.Cropped(start, half) && c.Cropped(half, end)
    ensures y.Done(start, end, 0, y.Copied()) && c.Done(start, end, 0, c.Copied())
  {
    forall i: nat | i < y.Copied() ensures y.RowDone(start, end, i) {
      assert y.RowDone(start, half, i);
      InsideRow(y, i);
      assert end[y.Dst(i)..y.Dst(i) + y.n] == half[y.Dst(i)..y.Dst(i) + y.n];
    }
    forall i: nat | i < c.Copied() ensures c.RowDone(start, end, i) {
      assert c.RowDone(half, end, i);
      assert y.Dst(y.Copied()) <= c.Src(i) || c.Src(i) + c.n <= y.dst;
      assert half[c.Src(i)..c.Src(i) + c.n] == start[c.Src(i)..c.Src(i) + c.n];
    }
  }

  // ----- what happens past the cropped picture

  /** The first `k` source rows one after the other. */
  ghost function Packed(p: Plane, before: seq<bv8>, k: nat): (r: seq<bv8>)
    requires forall i: nat {:trigger p.Src(i)} :: i < k ==> p.Src(i) + p.n <= |before|
    ensures |r| == k * p.n
  {
    if k == 0 then [] else Packed(p, before, k - 1) + before[p.Src(k - 1)..p.Src(k - 1) + p.n]
  }

  /** The image that the crop of one plane leaves, as a function of the image before. */
  ghost function After(p: Plane, before: seq<bv8>): (r: seq<bv8>)
    requires p.n < p.w && p.InBounds(|before|) && p.Dst(p.Copied()) <= |before|
    ensures |r| == |before|
  {
    before[..p.dst] + Packed(p, before, p.Copied()) + before[p.Dst(p.Copied())..]
  }

  lemma {:induction false} PackedIs(p: Plane, before: seq<bv8>, now: seq<bv8>, k: nat)
    requires forall i: nat {:trigger p.Src(i)} :: i < k ==> p.Src(i) + p.n <= |before|
    requires p.Done(before, now, 0, k) && p.dst <= p.Dst(k) <= |now|
    ensures now[p.dst..p.Dst(k)] == Packed(p, before, k)
  {
    if k > 0 {
      DstApart(p, 0, k);
      DstApart(p, k - 1, k);
      Times(0, k - 1, p.n);
      PackedIs(p, before, now, k - 1);
      assert p.RowDone(before, now, k - 1);
      assert now[p.dst..p.Dst(k)] == now[p.dst..p.Dst(k - 1)] + now[p.Dst(k - 1)..p.Dst(k)];
    }
  }

  lemma LastRow(p: Plane, len: nat)
    requires p.n < p.w && p.InBounds(len) && p.dst <= len
    ensures p.dst <= p.Dst(p.Copied()) <= len
    ensures forall i: nat {:trigger p.Src(i)} :: i < p.Copied() ==> p.Src(i) + p.n <= len
  {
    if p.Copied() > 0 {
      DstApart(p, p.Copied() - 1, p.Copied());
      DstApart(p, 0, p.Copied());
      assert p.Dst(p.Copied() - 1) + p.n <= len;
    }
  }

  /** So that image is the only outcome of a crop. */
  lemma CroppedIsAfter(p: Plane, before: seq<bv8>, now: seq<bv8>)
    requires p.n < p.w && p.InBounds(|before|) && p.dst <= |before| && p.Cropped(before, now)
    ensures p.Dst(p.Copied()) <= |before| && now == After(p, before)
  {
    LastRow(p, |before|);
    PackedIs(p, before, now, p.Copied());
    var k := p.Dst(p.Copied());
    assert now == now[..p.dst] + now[p.dst..k] + now[k..];
    assert now[..p.dst] == before[..p.dst] && now[k..] == before[k..];
  }

  lemma {:induction false} PackedRow(p: Plane, before: seq<bv8>, k: nat, i: nat)
    requires forall i: nat {:trigger p.Src(i)} :: i < k ==> p.Src(i) + p.n <= |before|
    requires i < k
    ensures 0 <= i * p.n && i * p.n + p.n <= |Packed(p, before, k)|
    ensures Packed(p, before, k)[i * p.n..i * p.n + p.n] == before[p.Src(i)..p.Src(i) + p.n]
  {
    Times(0, i, p.n);
    Times(i + 1, k, p.n);
    if i < k - 1 {
      PackedRow(p, before, k - 1, i);
    }
  }

  /** Each copied row of that image is the original source row. */
  lemma AfterRow(p: Plane, before: seq<bv8>, i: nat)
    requires p.n < p.w && p.InBounds(|before|) && p.dst <= |before| && i < p.Copied()
    ensures p.Dst(p.Copied()) <= |before| && p.Dst(i) + p.n <= |before| && p.Src(i) + p.n <= |before|
    ensures After(p, before)[p.Dst(i)..p.Dst(i) + p.n] == before[p.Src(i)..p.Src(i) + p.n]
  {
    LastRow(p, |before|);
    PackedRow(p, before, p.Copied(), i);
    InsideRow(p, i);
    MiddleSlice(before[..p.dst], Packed(p, before, p.Copied()), before[p.Dst(p.Copied())..], i * p.n, p.n);
  }

  lemma MiddleSlice(a: seq<bv8>, b: seq<bv8>, c: seq<bv8>, i: nat, n: nat)
    requires i + n <= |b|
    ensures (a + b + c)[|a| + i..|a| + i + n] == b[i..i + n]
  {
  }

  /** The crop leaves every byte outside the cropped picture as it was. */
  ghost predicate SparesRest(p: Plane, before: seq<bv8>)
    requires p.n < p.w && p.InBounds(|before|) && p.dst <= |before|
  {
    LastRow(p, |before|);
    forall a :: 0 <= a < |before| && !(p.dst <= a < p.Dst(p.rows)) ==> After(p, before)[a] == before[a]
  }

  /** Where the row after the last one would go, and which rows are copied too many. */
  lemma RowPast(p: Plane)
    requires p.n < p.w
    ensures p.Copied() > p.rows <==> p.dst > p.src && p.Dst(p.rows) >= p.Src(p.rows)
    ensures p.Dst(p.rows) > p.Src(p.rows) ==> p.Copied() > p.rows
    ensures p.Dst(p.rows) == p.Src(p.rows) && p.Copied() > p.rows ==> p.Copied() == p.rows + 1
  {
    Times(p.n, p.w, p.rows);
    if p.dst > p.src {
      SwitchRow(p, p.rows);
      SwitchRow(p, p.rows + 1);
    }
  }

  lemma SparesWhenBehind(p: Plane, before: seq<bv8>)
    requires p.n < p.w && p.InBounds(|before|) && p.dst <= |before| && p.Dst(p.rows) <= p.Src(p.rows)
    ensures SparesRest(p, before)
  {
    LastRow(p, |before|);
    RowPast(p);
    if p.Copied() > p.rows {
      AfterRow(p, before, p.rows);
      DstApart(p, p.rows, p.rows + 1);
      var d, after := p.Dst(p.rows), After(p, before);
      forall a | d <= a < d + p.n ensures after[a] == before[a] {
        assert after[a] == after[d..d + p.n][a - d] && before[a] == before[d..d + p.n][a - d];
      }
    }
  }

  /** The whole crop as a function of the image. */
  ghost function PictureAfter(y: Plane, c: Plane, before: seq<bv8>): (r: seq<bv8>)
    requires Croppable(y, c, |before|)
    ensures |r| == |before|
  {
    LastRow(y, |before|);
    LastRow(c, |before|);
    After(c, After(y, before))
  }

  ghost predicate Croppable(y: Plane, c: Plane, len: nat) {
    && y.n < y.w && c.n < c.w && y.InBounds(len) && c.InBounds(len) && y.dst <= len && c.dst <= len && KeepsApart(y, c)
  }

  /** The crop leaves every byte outside the cropped picture as it was. */
  ghost predicate PictureSparesRest(y: Plane, c: Plane, before: seq<bv8>)
    requires Croppable(y, c, |before|)
  {
    forall a :: 0 <= a < |before| && !(y.dst <= a < y.Dst(y.rows)) && !(c.dst <= a < c.Dst(c.rows)) ==>
      PictureAfter(y, c, before)[a] == before[a]
  }

  /** What one plane's crop leaves alone. */
  lemma AfterOutside(p: Plane, before: seq<bv8>, a: nat)
    requires p.n < p.w && p.InBounds(|before|) && p.dst <= |before| && a < |before|
    requires a < p.dst || p.Dst(p.Copied()) <= a
    ensures p.dst <= p.Dst(p.Copied()) <= |before| && After(p, before)[a] == before[a]
  {
    LastRow(p, |before|);
  }

  lemma PictureSpares(y: Plane, c: Plane, before: seq<bv8>)
    requires Croppable(y, c, |before|) && y.Dst(y.rows) <= y.Src(y.rows) && c.Dst(c.rows) <= c.Src(c.rows)
    ensures PictureSparesRest(y, c, before)
  {
    LastRow(y, |before|);
    SparesWhenBehind(y, before);
    SparesWhenBehind(c, After(y, before));
  }

  /** The row too many, and what keeps it away from the other plane. */
  lemma RowTooMany(p: Plane, len: nat)
    requires 0 < p.n < p.w && p.InBounds(len) && p.dst <= len && p.Dst(p.rows) > p.Src(p.rows)
    ensures p.Copied() > p.rows && p.dst <= p.Dst(p.rows) && p.Dst(p.rows) + p.n <= p.Dst(p.Copied()) <= len
    ensures p.Src(p.rows) + p.n <= len
  {
    RowPast(p);
    LastRow(p, len);
    InsideRow(p, p.rows);
  }

  lemma LumaSpoils(y: Plane, c: Plane, len: nat) returns (before: seq<bv8>)
    requires Croppable(y, c, len) && 0 < y.n && y.Dst(y.rows) > y.Src(y.rows)
    ensures |before| == len && !PictureSparesRest(y, c, before)
  {
    RowTooMany(y, len);
    RowsInside(c);
    LastRow(c, len);
    var from, d := y.Src(y.rows), y.Dst(y.rows);
    assert d < c.dst || c.Dst(c.Copied()) <= d;
    before := OneByte(len, from);
    var half := RowCopied(y, before, from);
    AfterOutside(c, half, d);
    assert PictureAfter(y, c, before)[d] == before[from];
  }

  /** An image in which one byte differs from all the others. */
  function OneByte(len: nat, from: nat): (image: seq<bv8>)
    requires from < len
    ensures |image| == len && forall a :: 0 <= a < len ==> image[a] == if a == from then 1 else 0
  {
    seq(len, a => if a == from then 1 else 0)
  }

  /** The byte of the row too many lands where the row goes. */
  lemma RowCopied(p: Plane, before: seq<bv8>, from: nat) returns (after: seq<bv8>)
    requires 0 < p.n < p.w && p.InBounds(|before|) && p.dst <= |before| && p.Dst(p.rows) > p.Src(p.rows) == from
    ensures p.Dst(p.Copied()) <= |before| && after == After(p, before)
    ensures p.Dst(p.rows) < |before| && from < |before| && after[p.Dst(p.rows)] == before[from]
  {
    RowTooMany(p, |before|);
    AfterRow(p, before, p.rows);
    after := After(p, before);
    var d := p.Dst(p.rows);
    assert after[d] == after[d..d + p.n][0] == before[from..from + p.n][0];
  }

  lemma ChromaSpoils(y: Plane, c: Plane, len: nat) returns (before: seq<bv8>)
    requires Croppable(y, c, len) && 0 < c.n && c.Dst(c.rows) > c.Src(c.rows)
    ensures |before| == len && !PictureSparesRest(y, c, before)
  {
    RowTooMany(c, len);
    LastRow(y, len);
    var from, d := c.Src(c.rows), c.Dst(c.rows);
    before := OneByte(len, from);
    var half := After(y, before);
    AfterOutside(y, before, from);
    var end := RowCopied(c, half, from);
    assert PictureAfter(y, c, before)[d] == before[from];
    RowsInside(y);
  }

  lemma RowsInside(p: Plane)
    requires p.n < p.w
    ensures p.Dst(p.rows) <= p.Dst(p.Copied())
  {
    if p.rows < p.Copied() { DstApart(p, p.rows, p.Copied()); }
  }

  /**
   The crop of a picture touches nothing outside the cropped picture, whatever the image,
   exactly when in neither plane the row after the last one would land ahead of its source.
   */
  lemma PictureSparesRestIff(y: Plane, c: Plane, len: nat)
    requires Croppable(y, c, len) && 0 < y.n && 0 < c.n
    ensures (forall before: seq<bv8> :: |before| == len ==> PictureSparesRest(y, c, before))
      <==> y.Dst(y.rows) <= y.Src(y.rows) && c.Dst(c.rows) <= c.Src(c.rows)
  {
    if y.Dst(y.rows) > y.Src(y.rows) {
      var before := LumaSpoils(y, c, len);
    } else if c.Dst(c.rows) > c.Src(c.rows) {
      var before := ChromaSpoils(y, c, len);
    } else {
      forall before: seq<bv8> | |before| == len ensures PictureSparesRest(y, c, before) {
        PictureSpares(y, c, before);
      }
    }
  }

  /** Encoder offsets under which the crop of a 4x4 picture to 2x2 spoils bytes behind its luma. */
  lemma SpoilingLayoutExample() returns (before: seq<bv8>)
    ensures var l := Layout(0, 6, 20, 14); var y, c := Luma(l, 4, 4, 2, 2), Chroma(l, 4, 4, 2, 2);
      Croppable(y, c, 24) && |before| == 24 && !PictureSparesRest(y, c, before)
  {
    before := LumaSpoils(Luma(Layout(0, 6, 20, 14), 4, 4, 2, 2), Chroma(Layout(0, 6, 20, 14), 4, 4, 2, 2), 24);
  }

  /** A tightly packed picture meets every condition of the crop, whatever the two sizes. */
  lemma TightLayoutCrops(w: nat, h: nat, cw: nat, ch: nat, len: nat)
    requires cw < w && ch <= h && w * h + w * (h / 2) <= len
    ensures var l := Layout(0, 0, w * h, cw * ch);
      var y, c := Luma(l, w, h, cw, ch), Chroma(l, w, h, cw, ch);
      && y.Copied() == ch && c.Copied() == ch / 2
      && y.InBounds(len) && c.InBounds(len) && KeepsApart(y, c)
  {
    var l := Layout(0, 0, w * h, cw * ch);
    var y, c, top := Luma(l, w, h, cw, ch), Chroma(l, w, h, cw, ch), Left(h, ch);
    PlaneFits(y, w, cw, Left(w, cw), top, ch, h, 0, len) by { Times(0, w, h / 2); }
    ChromaBehindLuma(w, h, cw, ch);
    PlaneFits(c, w, cw, Left(w, cw), top / 2, ch / 2, h / 2, w * h, len);
    WindowInside(c, w, cw, Left(w, cw), top / 2, ch / 2, h / 2, w * h);
  }

  lemma ChromaBehindLuma(w: nat, h: nat, cw: nat, ch: nat)
    requires cw < w && ch <= h
    ensures var l := Layout(0, 0, w * h, cw * ch);
      && Chroma(l, w, h, cw, ch).dst <= w * h <= Chroma(l, w, h, cw, ch).src
      && Luma(l, w, h, cw, ch).dst == 0 && Luma(l, w, h, cw, ch).Dst(ch) == cw * ch
  {
    AreaMono(cw, w, ch, h);
    PlaneStarts(Layout(0, 0, w * h, cw * ch), w, h, cw, ch);
  }

  lemma PlaneStarts(l: Layout, w: nat, h: nat, cw: nat, ch: nat)
    requires cw < w && ch <= h
    ensures Chroma(l, w, h, cw, ch).dst == l.cDst && l.cSrc <= Chroma(l, w, h, cw, ch).src
    ensures Luma(l, w, h, cw, ch).dst == l.yDst && Luma(l, w, h, cw, ch).Dst(ch) == l.yDst + cw * ch
  {
    Times(0, Left(h, ch) / 2, w);
  }

  lemma PlaneFits(p: Plane, w: nat, cw: nat, left: nat, top: nat, rows: nat, height: nat, base: nat, len: nat)
    requires left + cw <= w && cw < w && top + rows <= height && p.dst <= p.src && base + w * height <= len
    requires p.w == w && p.n == cw && p.rows == rows && p.src == base + w * top + left
    ensures p.Copied() == rows && p.InBounds(len)
  {
    WindowInside(p, w, cw, left, top, rows, height, base);
    forall i: nat | i < rows ensures p.Dst(i) + p.n <= len && p.Src(i) + p.n <= len {
      ForwardRow(p, i);
    }
  }

  lemma AreaMono(cw: nat, w: nat, ch: nat, h: nat)
    requires cw <= w && ch <= h
    ensures cw * ch <= w * h
  {
  }

  /** A window of `rows` rows from row `top` ends inside a plane of `height` rows that starts at `base`. */
  lemma WindowInside(p: Plane, w: nat, cw: nat, left: nat, top: nat, rows: nat, height: nat, base: nat)
    requires left + cw <= w && top + rows <= height
    requires p.w == w && p.n == cw && p.rows == rows && p.src == base + w * top + left
    ensures forall i: nat {:trigger p.Src(i)} :: i < rows ==> base <= p.Src(i) && p.Src(i) + p.n <= base + w * height
  {
    forall i: nat | i < rows ensures base <= p.Src(i) && p.Src(i) + p.n <= base + w * height {
      assert w * top + i * w + w == (top + i + 1) * w;
      Times(top + i + 1, height, w);
    }
  }
}
