/**
 Two independent calculations of video buffer sizes, both in 32-bit arithmetic:
 the one the gralloc module reports and the one its allocator uses.
 */
module BufferSizes {
  import opened Words

  const INT_MAX := 0x7FFF_FFFF

  function Mul(a: uint32, b: uint32): uint32 { a * b % WORD }
  function Plus(a: uint32, b: uint32): uint32 { if a + b < WORD then a + b else a + b - WORD }

  /** Rounding up to a power of two by adding and masking. */
  function Align32(x: uint32): uint32 { Plus(x, 31) / 32 * 32 }
  function Align128(x: uint32): uint32 { Plus(x, 127) / 128 * 128 }
  function Align4K(x: uint32): uint32 { Plus(x, 4095) / 4096 * 4096 }
  function Align8K(x: uint32): uint32 { Plus(x, 8191) / 8192 * 8192 }

  // ----- the reported size

  function ReportedNv21(width: uint32, height: uint32): uint32 {
    if width == 0 || height == 0 then 0 else
    var size := Align4K(Mul(Align32(width), Align32(height)));
    var chromaPitch := Mul(2, Align32(width / 2));
    Align4K(Plus(size, Mul(chromaPitch, Align32(height / 2))))
  }

  function ReportedNv12(width: uint32, height: uint32): uint32 {
    if width == 0 || height == 0 then 0 else
    var pitch := Align128(width);
    var size := Align8K(Mul(pitch, Align32(height)));
    Align8K(Plus(size, Mul(pitch, Align32(height / 2))))
  }

  // ----- the allocated size

  function AllocatedNv21(w: uint32, h: uint32): uint32 {
    Plus(Align4K(Mul(Align32(w), Align32(h))), Align4K(Mul(Mul(2, Align32(w / 2)), Align32(h / 2))))
  }

  function AllocatedNv12(w: uint32, h: uint32): uint32 {
    Plus(Align8K(Mul(Align128(w), Align32(h))), Align4K(Mul(Align128(w), Align32(h / 2))))
  }

  // ----- what the paddings are

  predicate LeastMultiple(r: nat, x: nat, unit: nat)
    requires unit > 0
  {
    r % unit == 0 && x <= r < x + unit
  }

  /** Each padding is the least multiple of its unit that is not smaller, unless that does not fit the word. */
  lemma AlignIs(x: uint32)
    ensures x <= WORD - 32 ==> LeastMultiple(Align32(x), x, 32)
    ensures x <= WORD - 128 ==> LeastMultiple(Align128(x), x, 128)
    ensures x <= WORD - 4096 ==> LeastMultiple(Align4K(x), x, 4096)
    ensures x <= WORD - 8192 ==> LeastMultiple(Align8K(x), x, 8192)
  {
  }

  lemma AreaFits(w: nat, h: nat, pw: nat, ph: nat)
    requires w <= pw && h <= ph
    ensures w * h <= pw * ph
  {
    assert w * h <= pw * h;
    assert pw * h <= pw * ph;
  }

  lemma Exact(a: uint32, b: uint32)
    requires a * b < WORD
    ensures Mul(a, b) == a * b
  {
    Small(a * b);
  }

  lemma Small(p: int)
    requires 0 <= p < WORD
    ensures p % WORD == p
  {
  }

  /** An NV21 buffer whose padded planes fit a signed word holds both planes of the picture. */
  lemma Nv21HoldsPlanes(w: uint32, h: uint32)
    requires 0 < w <= INT_MAX && 0 < h <= INT_MAX
    requires 0 <= Align32(w) * Align32(h) && 0 <= 2 * Align32(w / 2) * Align32(h / 2)
    requires Align32(w) * Align32(h) + 2 * Align32(w / 2) * Align32(h / 2) <= INT_MAX - 8192
    ensures w * h + 2 * (w / 2) * (h / 2) <= ReportedNv21(w, h)
    ensures ReportedNv21(w, h) < Align32(w) * Align32(h) + 2 * Align32(w / 2) * Align32(h / 2) + 8192
  {
    AlignIs(w);
    AlignIs(h);
    AlignIs(w / 2);
    AlignIs(h / 2);
    var y, pitch := Align32(w) * Align32(h), 2 * Align32(w / 2);
    var c := pitch * Align32(h / 2);
    AreaFits(w, h, Align32(w), Align32(h));
    AreaFits(2 * (w / 2), h / 2, pitch, Align32(h / 2));
    Exact(Align32(w), Align32(h));
    Exact(2, Align32(w / 2));
    Exact(pitch, Align32(h / 2));
    TwoPlanes(y, c);
  }

  lemma TwoPlanes(y: nat, c: nat)
    requires y + c <= INT_MAX - 8192
    ensures y + c <= Align4K(Plus(Align4K(y), c)) < y + c + 8192
  {
    AlignIs(y);
    AlignIs(Align4K(y) + c);
  }

  /** A tiled NV12 buffer likewise, in both calculations. */
  lemma Nv12HoldsPlanes(w: uint32, h: uint32)
    requires 0 < w <= INT_MAX && 0 < h <= INT_MAX
    requires 0 <= Align128(w) * Align32(h) && 0 <= Align128(w) * Align32(h / 2)
    requires Align128(w) * Align32(h) + Align128(w) * Align32(h / 2) <= INT_MAX - 16384
    ensures w * h + w * (h / 2) <= AllocatedNv12(w, h) <= ReportedNv12(w, h)
    ensures ReportedNv12(w, h) < Align128(w) * Align32(h) + Align128(w) * Align32(h / 2) + 16384
  {
    AlignIs(w);
    AlignIs(h);
    AlignIs(h / 2);
    var y, c := Align128(w) * Align32(h), Align128(w) * Align32(h / 2);
    AreaFits(w, h, Align128(w), Align32(h));
    AreaFits(w, h / 2, Align128(w), Align32(h / 2));
    Exact(Align128(w), Align32(h));
    Exact(Align128(w), Align32(h / 2));
    TwoTiledPlanes(y, c);
  }

  lemma TwoTiledPlanes(y: nat, c: nat)
    requires y + c <= INT_MAX - 16384
    ensures y + c <= Plus(Align8K(y), Align4K(c)) <= Align8K(Plus(Align8K(y), c)) < y + c + 16384
  {
    AlignIs(y);
    AlignIs(c);
    AlignIs(Align8K(y) + c);
    PadTwo(y, c);
  }

  // ----- agreement

  /** Wrapping keeps multiples of 4096, so padding wraps only past the last one, and then to zero. */
  lemma AlignCases(x: uint32)
    ensures Align4K(x) % 4096 == 0 && Align8K(x) % 8192 == 0
    ensures if x <= WORD - 4096 then x <= Align4K(x) < x + 4096 else Align4K(x) == 0
    ensures if x <= WORD - 8192 then x <= Align8K(x) < x + 8192 else Align8K(x) == 0
  {
  }

  /** A plane of whole units shifts the padding of the next one. */
  lemma ShiftAlign4K(k: nat, c: uint32)
    requires 4096 * k < WORD
    ensures Align4K(Plus(4096 * k, c)) == Plus(4096 * k, Align4K(c))
  {
  }

  lemma ShiftAlign8K(k: nat, c: uint32)
    requires 8192 * k < WORD
    ensures Align8K(Plus(8192 * k, c)) == Plus(8192 * k, Align8K(c))
  {
  }

  lemma ShiftAlign(a: uint32, c: uint32)
    ensures a % 4096 == 0 ==> Align4K(Plus(a, c)) == Plus(a, Align4K(c))
    ensures a % 8192 == 0 ==> Align8K(Plus(a, c)) == Plus(a, Align8K(c))
  {
    if a % 4096 == 0 { ShiftAlign4K(a / 4096, c); }
    if a % 8192 == 0 { ShiftAlign8K(a / 8192, c); }
  }

  /** Padding to 4 KiB first does not change the padding to 8 KiB. */
  lemma AlignTwice(c: uint32)
    ensures Align8K(Align4K(c)) == Align8K(c)
  {
    AlignCases(c);
    AlignCases(Align4K(c));
  }

  /**
   NV21: both calculations agree for every size, even one whose bytes do not fit
   in 32 bits (then both wrap to the same number).
   */
  lemma Nv21Agrees(w: uint32, h: uint32)
    requires 0 < w <= INT_MAX && 0 < h <= INT_MAX
    ensures ReportedNv21(w, h) == AllocatedNv21(w, h)
  {
    var y := Mul(Align32(w), Align32(h));
    AlignCases(y);
    ShiftAlign(Align4K(y), Mul(Mul(2, Align32(w / 2)), Align32(h / 2)));
  }

  /**
   Tiled NV12: the report is the allocated size padded to 8 KiB. It is the larger one
   exactly when that padding does not wrap, so for every size the allocator accepts
   (a positive signed number).
   */
  lemma Nv12RoundsUp(w: uint32, h: uint32)
    requires 0 < w <= INT_MAX && 0 < h <= INT_MAX
    ensures ReportedNv12(w, h) == Align8K(AllocatedNv12(w, h))
    ensures AllocatedNv12(w, h) <= ReportedNv12(w, h) <==> AllocatedNv12(w, h) <= WORD - 8192
    ensures AllocatedNv12(w, h) <= INT_MAX ==> ReportedNv12(w, h) - AllocatedNv12(w, h) in {0, 4096}
  {
    var y, c := Mul(Align128(w), Align32(h)), Mul(Align128(w), Align32(h / 2));
    PadTwo(y, c);
  }

  lemma PadTwo(y: uint32, c: uint32)
    ensures var got := Plus(Align8K(y), Align4K(c));
      && Align8K(Plus(Align8K(y), c)) == Align8K(got)
      && (got <= Align8K(got) <==> got <= WORD - 8192)
      && (got <= INT_MAX ==> Align8K(got) - got in {0, 4096})
  {
    AlignCases(y);
    AlignCases(c);
    PadSecond(Align8K(y), Align4K(c), c);
  }

  lemma PadSecond(a: uint32, b: uint32, c: uint32)
    requires a % 8192 == 0 && b % 4096 == 0 && b == Align4K(c)
    ensures Align8K(Plus(a, c)) == Align8K(Plus(a, b))
    ensures Plus(a, b) <= Align8K(Plus(a, b)) <==> Plus(a, b) <= WORD - 8192
    ensures Plus(a, b) <= INT_MAX ==> Align8K(Plus(a, b)) - Plus(a, b) in {0, 4096}
  {
    ShiftAlign(a, c);
    ShiftAlign(a, b);
    AlignTwice(c);
    PlusMultiples(a, b);
    PadMultiple(Plus(a, b));
  }

  lemma PlusMultiples(a: uint32, b: uint32)
    requires a % 8192 == 0 && b % 4096 == 0
    ensures Plus(a, b) % 4096 == 0
  {
    var p, q := a / 8192, b / 4096;
    assert a == 8192 * p && b == 4096 * q;
    var k := if a + b < WORD then 2 * p + q else 2 * p + q - 1_048_576;
    assert Plus(a, b) == 4096 * k;
  }

  lemma PadMultiple(got: uint32)
    requires got % 4096 == 0
    ensures got <= Align8K(got) <==> got <= WORD - 8192
    ensures got <= INT_MAX ==> Align8K(got) - got in {0, 4096}
  {
  }

  /** They do differ: an 8x8 tiled picture is reported 4 KiB larger than it is allocated. */
  lemma Nv12Example()
    ensures ReportedNv12(8, 8) == AllocatedNv12(8, 8) + 4096
  {
    assert Align128(8) == 128 && Align32(8) == 32 && Align32(4) == 32;
    assert Align8K(4096) == 8192 && Align4K(4096) == 4096;
  }
}
