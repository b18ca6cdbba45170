/**
 The value level of the best-fit heap: what a heap looks like as a sequence of
 chunks, what one allocation and one release do to that sequence, and the
 integer widths the C++ fields impose.  One unit is 32 bytes.
 */
module ChunkSpec {
  import opened Words

  const SIZE_FIELD := 0x1000_0000
  const MEMORY_ALIGN := 32
  const PAGE_SIZE := 4096
  const PAGE_UNITS := 128  // PAGE_SIZE / MEMORY_ALIGN

  /** The largest request whose rounding to units does not wrap a 32-bit word. */
  const MAX_REQUEST := WORD - MEMORY_ALIGN

  type uint28 = x: nat | x < SIZE_FIELD

  datatype Chunk = Chunk(start: uint32, size: uint28, free: bool)

  lemma WholePages(start: int, q: int)
    ensures (start + (-start - 128 * q)) % 128 == 0
  {
    assert start + (-start - 128 * q) == 128 * -q;
  }

  /** Units to skip so that a chunk starting at `start` becomes page aligned. */
  function Padding(start: int): (pad: nat)
    ensures pad < PAGE_UNITS && (start + pad) % PAGE_UNITS == 0
  {
    WholePages(start, (-start) / 128);
    (-start) % 128
  }

  /** Bytes to units, rounding up; the addition wraps at 32 bits. */
  function Units(bytes: uint32): (units: nat)
    ensures bytes <= MAX_REQUEST ==> units * MEMORY_ALIGN - MEMORY_ALIGN < bytes <= units * MEMORY_ALIGN
    ensures units < WORD / MEMORY_ALIGN
  {
    ((bytes + MEMORY_ALIGN - 1) % WORD) / MEMORY_ALIGN
  }

  predicate Fits(c: Chunk, units: nat) {
    c.free && c.size >= units + Padding(c.start)
  }

  /** Among the first `n` chunks, `k` is the first smallest free one that holds the padded request. */
  ghost predicate IsBestAmong(c: seq<Chunk>, units: nat, n: nat, k: nat) {
    && k < n <= |c| && Fits(c[k], units)
    && (forall j :: 0 <= j < n && Fits(c[j], units) ==> c[k].size <= c[j].size)
    && (forall j :: 0 <= j < k && Fits(c[j], units) ==> c[k].size < c[j].size)
  }

  ghost predicate IsBestFit(c: seq<Chunk>, units: nat, k: nat) {
    IsBestAmong(c, units, |c|, k)
  }

  ghost predicate NoneFits(c: seq<Chunk>, units: nat) {
    forall j :: 0 <= j < |c| ==> !Fits(c[j], units)
  }

  // ----- one allocation

  function PadOf(x: Chunk, units: nat): nat {
    if x.size > units then Padding(x.start) else 0
  }

  function AllocatedIn(x: Chunk, units: uint28): Chunk {
    Chunk((x.start + PadOf(x, units)) % WORD, units, false)
  }

  function PadPart(x: Chunk, units: nat): seq<Chunk> {
    if PadOf(x, units) > 0 then [Chunk(x.start, PadOf(x, units), true)] else []
  }

  function TailPart(x: Chunk, units: uint28): seq<Chunk> {
    var tail := x.size - (units + PadOf(x, units));
    if x.size > units && tail > 0
    then [Chunk((AllocatedIn(x, units).start + units) % WORD, tail, true)] else []
  }

  function AllocAt(c: seq<Chunk>, k: nat, units: uint28): seq<Chunk>
    requires k < |c|
  {
    c[..k] + PadPart(c[k], units) + [AllocatedIn(c[k], units)] + TailPart(c[k], units) + c[k+1..]
  }

  function AllocatedIndex(c: seq<Chunk>, k: nat, units: nat): nat
    requires k < |c|
  {
    k + |PadPart(c[k], units)|
  }

  // ----- one release

  /** The chunk a start unit names: the first one with that start. */
  ghost predicate IsFirstAt(c: seq<Chunk>, start: nat, k: nat) {
    k < |c| && c[k].start == start && forall j :: 0 <= j < k ==> c[j].start != start
  }

  datatype Merged = Merged(chunks: seq<Chunk>, survivorFree: bool)

  function SizeSum(a: uint28, b: uint28): uint28 {
    (a + b) % SIZE_FIELD
  }

  /** Chunk `k` folds into its predecessor when that one is free, or when `k` is empty. */
  predicate Folds(c: seq<Chunk>, k: nat)
    requires k < |c|
  {
    k > 0 && (c[k-1].free || c[k].size == 0)
  }

  function FoldBack(c: seq<Chunk>, k: nat): seq<Chunk>
    requires 0 < k < |c|
  {
    c[..k-1] + [c[k-1].(size := SizeSum(c[k-1].size, c[k].size))] + c[k+1..]
  }

  /** The release loop from chunk `k` on, walking right for as long as chunks are free. */
  function MergeFrom(c: seq<Chunk>, k: nat, survivorFree: bool): Merged
    requires k < |c|
    decreases |c| - k
  {
    var c', k', s' := if Folds(c, k) then FoldBack(c, k) else c,
                      if Folds(c, k) then k else k + 1,
                      if Folds(c, k) then c[k-1].free else survivorFree;
    if k' < |c'| && c'[k'].free then MergeFrom(c', k', s') else Merged(c', s')
  }

  function DeallocAt(c: seq<Chunk>, k: nat): Merged
    requires k < |c|
  {
    MergeFrom(c[k := c[k].(free := true)], k, true)
  }
}
