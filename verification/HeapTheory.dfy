/**
 What the best-fit heap keeps over every run: the chunks tile the heap, no two
 free neighbours survive, allocations are page aligned, a release undoes the
 allocation exactly, and releasing everything leaves one free chunk.
 */
module HeapTheory {
  import opened Words
  import opened ChunkSpec

  /** Chunks of positive size laid end to end from `lo` to `hi`. */
  ghost predicate Tiles(c: seq<Chunk>, lo: nat, hi: nat)
    decreases |c|
  {
    if |c| == 0 then lo == hi
    else c[0].start == lo && c[0].size > 0 && Tiles(c[1..], lo + c[0].size, hi)
  }

  ghost predicate Coalesced(c: seq<Chunk>) {
    forall i :: 0 < i < |c| ==> !(c[i-1].free && c[i].free)
  }

  ghost predicate Aligned(c: seq<Chunk>) {
    forall x :: x in c && !x.free ==> x.start % PAGE_UNITS == 0
  }

  ghost predicate HeapInv(c: seq<Chunk>, total: nat) {
    0 < total <= WORD / MEMORY_ALIGN && Tiles(c, 0, total) && Coalesced(c) && Aligned(c)
  }

  ghost function Live(c: seq<Chunk>): set<Chunk> {
    set x | x in c && !x.free
  }

  // ----- tiling as a list property

  ghost function Span(c: seq<Chunk>): nat {
    if |c| == 0 then 0 else c[0].size + Span(c[1..])
  }

  lemma {:induction false} TilesSplit(a: seq<Chunk>, b: seq<Chunk>, lo: nat, hi: nat)
    ensures Tiles(a + b, lo, hi) <==> Tiles(a, lo, lo + Span(a)) && Tiles(b, lo + Span(a), hi)
    decreases |a|
  {
    if |a| == 0 {
      assert a + b == b;
    } else {
      assert (a + b)[1..] == a[1..] + b;
      TilesSplit(a[1..], b, lo + a[0].size, hi);
    }
  }

  lemma {:induction false} TilesSpan(c: seq<Chunk>, lo: nat, hi: nat)
    requires Tiles(c, lo, hi)
    ensures hi == lo + Span(c)
    ensures forall x :: x in c ==> lo <= x.start < x.start + x.size <= hi
    decreases |c|
  {
    if |c| > 0 {
      TilesSpan(c[1..], lo + c[0].size, hi);
      forall x | x in c ensures lo <= x.start < x.start + x.size <= hi {
        assert x == c[0] || x in c[1..];
      }
    }
  }

  /** Chunk `k` starts where the chunks before it end, and both sides tile on their own. */
  lemma TilesAt(c: seq<Chunk>, k: nat, lo: nat, hi: nat)
    requires k < |c| && Tiles(c, lo, hi)
    ensures Tiles(c[..k], lo, c[k].start) && c[k].size > 0
    ensures c[k].start == lo + Span(c[..k]) && Tiles(c[k+1..], c[k].start + c[k].size, hi)
  {
    assert c == c[..k] + c[k..] && c[k..][1..] == c[k+1..];
    TilesSplit(c[..k], c[k..], lo, hi);
  }

  /** No overlaps: of two chunks the earlier one ends before the later one starts. */
  lemma TilesOrdered(c: seq<Chunk>, i: nat, j: nat, lo: nat, hi: nat)
    requires i < j < |c| && Tiles(c, lo, hi)
    ensures c[i].start + c[i].size <= c[j].start
  {
    TilesAt(c, i, lo, hi);
    TilesSpan(c[i+1..], c[i].start + c[i].size, hi);
    assert c[j] == c[i+1..][j-i-1];
  }

  /** No gaps: every unit of the heap lies in some chunk. */
  lemma {:induction false} TilesCover(c: seq<Chunk>, lo: nat, hi: nat, u: nat) returns (k: nat)
    requires Tiles(c, lo, hi) && lo <= u < hi
    ensures k < |c| && c[k].start <= u < c[k].start + c[k].size
    decreases |c|
  {
    if u < lo + c[0].size {
      k := 0;
    } else {
      k := TilesCover(c[1..], lo + c[0].size, hi, u);
      k := k + 1;
    }
  }

  lemma TilesThree(a: seq<Chunk>, b: seq<Chunk>, c: seq<Chunk>, lo: nat, hi: nat)
    ensures Tiles(a + b + c, lo, hi) <==>
      && Tiles(a, lo, lo + Span(a)) && Tiles(b, lo + Span(a), lo + Span(a) + Span(b))
      && Tiles(c, lo + Span(a) + Span(b), hi)
  {
    assert a + b + c == a + (b + c);
    TilesSplit(a, b + c, lo, hi);
    TilesSplit(b, c, lo + Span(a), hi);
  }

  /** A stretch of chunks may be exchanged for any other tiling of the same stretch. */
  lemma TilesReplace(left: seq<Chunk>, mid: seq<Chunk>, mid': seq<Chunk>, right: seq<Chunk>, lo: nat, hi: nat)
    requires Tiles(left + mid + right, lo, hi)
    requires Tiles(mid', lo + Span(left), lo + Span(left) + Span(mid))
    ensures Tiles(left + mid' + right, lo, hi)
  {
    TilesThree(left, mid, right, lo, hi);
    TilesSpan(mid', lo + Span(left), lo + Span(left) + Span(mid));
    TilesThree(left, mid', right, lo, hi);
  }

  lemma SpanOfOne(x: Chunk)
    ensures Span([x]) == x.size
  {
    assert [x][1..] == [];
  }

  lemma SetSizeInv(bytes: nat)
    requires 0 < bytes < WORD && bytes % PAGE_SIZE == 0
    ensures HeapInv([Chunk(0, bytes / MEMORY_ALIGN, true)], bytes / MEMORY_ALIGN)
  {
  }

  // ----- allocation

  ghost function Pieces(x: Chunk, units: uint28): seq<Chunk> {
    PadPart(x, units) + [AllocatedIn(x, units)] + TailPart(x, units)
  }

  lemma AllocAtPieces(c: seq<Chunk>, k: nat, units: uint28)
    requires k < |c|
    ensures AllocAt(c, k, units) == c[..k] + Pieces(c[k], units) + c[k+1..]
    ensures c == c[..k] + [c[k]] + c[k+1..]
  {
  }

  lemma PiecesTile(x: Chunk, units: uint28)
    requires Fits(x, units) && 0 < units && x.start + x.size <= WORD / MEMORY_ALIGN
    ensures Tiles(Pieces(x, units), x.start, x.start + x.size)
    ensures AllocatedIn(x, units).start == x.start + Padding(x.start)
    ensures AllocatedIn(x, units).start % PAGE_UNITS == 0
  {
    var pad, mid, tail := PadPart(x, units), [AllocatedIn(x, units)], TailPart(x, units);
    var p := PadOf(x, units);
    assert pad != [] ==> pad[1..] == [];
    assert tail != [] ==> tail[1..] == [];
    assert mid[1..] == [];
    assert Span(pad) == p && Span(mid) == units;
    assert Tiles(pad, x.start, x.start + p);
    assert Tiles(mid, x.start + p, x.start + p + units);
    assert Tiles(tail, x.start + p + units, x.start + x.size);
    TilesSplit(mid, tail, x.start + p, x.start + x.size);
    TilesSplit(pad, mid + tail, x.start, x.start + x.size);
    assert Pieces(x, units) == pad + (mid + tail);
  }

  /** One allocation keeps the heap whole and hands out exactly one new, page-aligned, enclosed chunk. */
  lemma AllocKeeps(c: seq<Chunk>, k: nat, units: uint28, total: nat)
    requires HeapInv(c, total) && k < |c| && Fits(c[k], units) && 0 < units
    ensures HeapInv(AllocAt(c, k, units), total)
    ensures var x := AllocatedIn(c[k], units);
            && Live(AllocAt(c, k, units)) == Live(c) + {x} && x !in Live(c)
            && x.size == units && x.start % PAGE_UNITS == 0
            && c[k].start <= x.start && x.start + units <= c[k].start + c[k].size <= total
  {
    var c', x := AllocAt(c, k, units), c[k];
    TilesSpan(c, 0, total);
    assert x in c;
    PiecesTile(x, units);
    AllocTiles(c, k, units, total);
    AllocCoalesced(c, k, units);
    AllocLive(c, k, units);
    forall y | y in c' && !y.free ensures y.start % PAGE_UNITS == 0 {
      assert y in Live(c');
    }
    var z := AllocatedIn(x, units);
    if z in Live(c) {
      var i :| 0 <= i < |c| && c[i] == z;
      if i < k { TilesOrdered(c, i, k, 0, total); } else if i > k { TilesOrdered(c, k, i, 0, total); }
    }
  }

  lemma AllocTiles(c: seq<Chunk>, k: nat, units: uint28, total: nat)
    requires Tiles(c, 0, total) && k < |c| && Tiles(Pieces(c[k], units), c[k].start, c[k].start + c[k].size)
    ensures Tiles(AllocAt(c, k, units), 0, total)
  {
    var left, right := c[..k], c[k+1..];
    TilesAt(c, k, 0, total);
    SpanOfOne(c[k]);
    AllocAtPieces(c, k, units);
    TilesReplace(left, [c[k]], Pieces(c[k], units), right, 0, total);
  }

  lemma AllocLive(c: seq<Chunk>, k: nat, units: uint28)
    requires k < |c| && c[k].free
    ensures Live(AllocAt(c, k, units)) == Live(c) + {AllocatedIn(c[k], units)}
  {
  }

  lemma AllocCoalesced(c: seq<Chunk>, k: nat, units: uint28)
    requires Coalesced(c) && k < |c| && c[k].free
    ensures Coalesced(AllocAt(c, k, units))
  {
  }

  // ----- release

  /** First chunk and first chunk past the run that a release of `k` fuses. */
  ghost function RunLo(c: seq<Chunk>, k: nat): nat
    requires k < |c|
  {
    if k > 0 && c[k-1].free then k - 1 else k
  }

  ghost function RunHi(c: seq<Chunk>, k: nat): nat
    requires k < |c|
  {
    if k + 1 < |c| && c[k+1].free then k + 2 else k + 1
  }

  /** The release in one shot: the freed chunk and its free neighbours become one. */
  ghost function Fused(c: seq<Chunk>, k: nat): seq<Chunk>
    requires k < |c|
  {
    var lo, hi := RunLo(c, k), RunHi(c, k);
    c[..lo] + [Chunk(c[lo].start, Span(c[lo..hi]) % SIZE_FIELD, true)] + c[hi..]
  }

  lemma MergeStops(c: seq<Chunk>, k: nat, s: bool)
    requires 0 < k < |c| && c[k-1].free
    requires k + 1 < |c| ==> !c[k+1].free
    ensures MergeFrom(c, k, s) == Merged(FoldBack(c, k), true)
  {
    assert k + 1 < |c| ==> FoldBack(c, k)[k] == c[k+1];
  }

  lemma SpanOfTwo(c: seq<Chunk>, i: nat)
    requires i + 2 <= |c|
    ensures Span(c[i..i+2]) == c[i].size + c[i+1].size
  {
    var two := [c[i], c[i+1]];
    assert c[i..i+2] == two && two[1..] == [c[i+1]];
    assert Span(two) == two[0].size + Span(two[1..]);
    SpanOfOne(c[i+1]);
  }

  /** In a coalesced heap of nonempty chunks the merge loop fuses exactly the free neighbours. */
  lemma DeallocIsFused(c: seq<Chunk>, k: nat)
    requires Coalesced(c) && k < |c| && !c[k].free && forall x :: x in c ==> x.size > 0
    ensures DeallocAt(c, k) == Merged(Fused(c, k), true)
  {
    var f := c[k := c[k].(free := true)];
    assert f[k].size > 0 by { assert c[k] in c; }
    if k > 0 && c[k-1].free {
      LeftFused(c, k, f);
    } else if k + 1 < |c| && c[k+1].free {
      assert k + 2 < |c| ==> f[k+2] == c[k+2] && !c[k+2].free;
      MergeStops(f, k + 1, true);
      SpanOfTwo(c, k);
    } else {
      assert c[k..k+1] == [c[k]];
      SpanOfOne(c[k]);
      assert Fused(c, k) == f;
    }
  }

  lemma LeftFused(c: seq<Chunk>, k: nat, f: seq<Chunk>)
    requires Coalesced(c) && 0 < k < |c| && !c[k].free && c[k-1].free && f == c[k := c[k].(free := true)]
    ensures MergeFrom(f, k, true) == Merged(Fused(c, k), true)
  {
    var c1 := FoldBack(f, k);
    SpanOfTwo(c, k - 1);
    if k + 1 < |c| && c[k+1].free {
      assert c1[k] == c[k+1] && c1[k-1].free;
      assert k + 2 < |c| ==> c1[k+1] == c[k+2] && !c[k+2].free;
      MergeStops(c1, k, true);
      assert c[k-1..k+2][1..] == c[k..k+2];
      SpanOfTwo(c, k);
    } else {
      assert k + 1 < |c| ==> c1[k] == c[k+1];
    }
  }

  /** A release keeps the heap whole and takes away exactly the chunk it names. */
  lemma DeallocKeeps(c: seq<Chunk>, k: nat, total: nat)
    requires HeapInv(c, total) && k < |c| && !c[k].free
    ensures DeallocAt(c, k).survivorFree
    ensures HeapInv(DeallocAt(c, k).chunks, total)
    ensures Live(DeallocAt(c, k).chunks) == Live(c) - {c[k]}
  {
    TilesSpan(c, 0, total);
    DeallocIsFused(c, k);
    FusedTiles(c, k, total);
    FusedCoalesced(c, k);
    FusedLive(c, k, total);
    forall x | x in Fused(c, k) && !x.free ensures x.start % PAGE_UNITS == 0 {
      assert x in Live(Fused(c, k));
    }
  }

  lemma FusedCoalesced(c: seq<Chunk>, k: nat)
    requires Coalesced(c) && k < |c|
    ensures Coalesced(Fused(c, k))
  {
  }

  lemma FusedLive(c: seq<Chunk>, k: nat, total: nat)
    requires k < |c| && !c[k].free && Tiles(c, 0, total)
    ensures Live(Fused(c, k)) == Live(c) - {c[k]}
  {
    var c', lo, hi := Fused(c, k), RunLo(c, k), RunHi(c, k);
    var left, right := c[..lo], c[hi..];
    OthersDiffer(c, k, total);
    forall y | y in Live(c') ensures y in Live(c) && y != c[k] {
      assert y in left || y in right;
      if y in left { var i :| 0 <= i < lo && left[i] == y; assert c[i] == y; }
      else { var i :| 0 <= i < |right| && right[i] == y; assert c[hi+i] == y; }
    }
    forall y | y in Live(c) && y != c[k] ensures y in Live(c') {
      var i :| 0 <= i < |c| && c[i] == y;
      if i < lo { assert c'[i] == y; } else { assert i >= hi && c'[lo+1+i-hi] == y; }
    }
  }

  lemma OthersDiffer(c: seq<Chunk>, k: nat, total: nat)
    requires k < |c| && Tiles(c, 0, total)
    ensures forall i :: 0 <= i < |c| && i != k ==> c[i] != c[k]
  {
    TilesSpan(c, 0, total);
    forall i | 0 <= i < |c| && i != k ensures c[i] != c[k] {
      assert c[i] in c && c[k] in c;
      if i < k { TilesOrdered(c, i, k, 0, total); } else { TilesOrdered(c, k, i, 0, total); }
    }
  }

  lemma FusedTiles(c: seq<Chunk>, k: nat, total: nat)
    requires k < |c| && Tiles(c, 0, total) && total <= WORD / MEMORY_ALIGN
    ensures Tiles(Fused(c, k), 0, total)
  {
    var lo, hi := RunLo(c, k), RunHi(c, k);
    var left, run, right := c[..lo], c[lo..hi], c[hi..];
    assert c == left + run + right;
    RunTiles(left, run, right, total);
    TilesAt(c, lo, 0, total);
    assert run[0] == c[lo];
    var one := [Chunk(c[lo].start, Span(run), true)];
    assert one[1..] == [];
    TilesReplace(left, run, one, right, 0, total);
  }

  lemma RunTiles(left: seq<Chunk>, run: seq<Chunk>, right: seq<Chunk>, total: nat)
    requires Tiles(left + run + right, 0, total) && |run| > 0
    ensures 0 < Span(run) <= total
  {
    assert left + run + right == left + (run + right);
    TilesSplit(left, run + right, 0, total);
    TilesSplit(run, right, Span(left), total);
    TilesSpan(right, Span(left) + Span(run), total);
  }

  // ----- undo, and releasing everything

  /** Releasing the chunk just handed out restores the sequence it was carved from. */
  lemma AllocThenRelease(c: seq<Chunk>, k: nat, units: uint28, total: nat)
    requires HeapInv(c, total) && k < |c| && Fits(c[k], units) && 0 < units
    ensures var c' := AllocAt(c, k, units); var j := AllocatedIndex(c, k, units);
            && j < |c'| && c'[j] == AllocatedIn(c[k], units)
            && DeallocAt(c', j) == Merged(c, true)
  {
    var c', j, x, mid := AllocAt(c, k, units), AllocatedIndex(c, k, units), c[k], Pieces(c[k], units);
    RunIsPieces(c, k, units);
    AllocSizes(c, k, units, total);
    PiecesMeasure(c, k, units, total);
    FusedRun(c', j, c[..k], mid, c[k+1..], x);
    assert c == c[..k] + [x] + c[k+1..];
  }

  lemma AllocSizes(c: seq<Chunk>, k: nat, units: uint28, total: nat)
    requires HeapInv(c, total) && k < |c| && Fits(c[k], units) && 0 < units
    ensures Coalesced(AllocAt(c, k, units)) && forall y :: y in AllocAt(c, k, units) ==> y.size > 0
  {
    AllocKeeps(c, k, units, total);
    TilesSpan(AllocAt(c, k, units), 0, total);
  }

  lemma PiecesMeasure(c: seq<Chunk>, k: nat, units: uint28, total: nat)
    requires HeapInv(c, total) && k < |c| && Fits(c[k], units) && 0 < units
    ensures var mid := Pieces(c[k], units); |mid| > 0 && mid[0].start == c[k].start && Span(mid) == c[k].size
  {
    TilesSpan(c, 0, total);
    assert c[k] in c;
    PiecesTile(c[k], units);
    TilesSpan(Pieces(c[k], units), c[k].start, c[k].start + c[k].size);
  }

  lemma FusedRun(c: seq<Chunk>, j: nat, left: seq<Chunk>, mid: seq<Chunk>, right: seq<Chunk>, x: Chunk)
    requires c == left + mid + right && Coalesced(c) && forall y :: y in c ==> y.size > 0
    requires j < |c| && !c[j].free && RunLo(c, j) == |left| && RunHi(c, j) == |left| + |mid|
    requires |mid| > 0 && mid[0].start == x.start && Span(mid) == x.size && x.free
    ensures DeallocAt(c, j) == Merged(left + [x] + right, true)
  {
    ThreeParts(left, mid, right);
    DeallocIsFused(c, j);
    assert c[|left|] == mid[0] && Chunk(mid[0].start, Span(mid) % SIZE_FIELD, true) == x;
    assert Fused(c, j) == left + [x] + right;
  }

  lemma ThreeParts(a: seq<Chunk>, b: seq<Chunk>, c: seq<Chunk>)
    ensures var s := a + b + c; s[..|a|] == a && s[|a|..|a|+|b|] == b && s[|a|+|b|..] == c
  {
  }

  lemma RunIsPieces(c: seq<Chunk>, k: nat, units: uint28)
    requires Coalesced(c) && k < |c| && c[k].free
    ensures var c' := AllocAt(c, k, units); var j := AllocatedIndex(c, k, units);
            && c' == c[..k] + Pieces(c[k], units) + c[k+1..]
            && j < |c'| && c'[j] == AllocatedIn(c[k], units) && RunLo(c', j) == k
              && RunHi(c', j) == k + |Pieces(c[k], units)|
  {
  }

  /** With nothing live a coalesced heap is one free chunk. */
  lemma NothingLive(c: seq<Chunk>, total: nat)
    requires HeapInv(c, total) && Live(c) == {}
    ensures c == [Chunk(0, total, true)]
  {
    if |c| >= 2 {
      NeighboursLive(c);
      assert false;
    }
    assert Tiles(c[1..], c[0].size, total);
    assert c[0] !in Live(c) && c == [c[0]];
  }

  lemma NeighboursLive(c: seq<Chunk>)
    requires Coalesced(c) && |c| >= 2
    ensures Live(c) != {}
  {
    assert (if c[0].free then c[1] else c[0]) in Live(c);
  }

  ghost function Released(c: seq<Chunk>, x: Chunk): seq<Chunk> {
    if exists k: nat :: k < |c| && c[k] == x then
      (var k: nat :| k < |c| && c[k] == x; DeallocAt(c, k).chunks)
    else c
  }

  ghost function ReleaseAll(c: seq<Chunk>, order: seq<Chunk>): seq<Chunk>
    decreases |order|
  {
    if |order| == 0 then c else ReleaseAll(Released(c, order[0]), order[1..])
  }

  /** Whatever the order in which the live chunks are released, the heap ends as one free chunk. */
  lemma {:induction false} ReleaseAllInAnyOrder(c: seq<Chunk>, order: seq<Chunk>, total: nat)
    requires HeapInv(c, total)
    requires forall x :: x in Live(c) <==> x in order
    requires forall i, j :: 0 <= i < j < |order| ==> order[i] != order[j]
    ensures ReleaseAll(c, order) == [Chunk(0, total, true)]
    decreases |order|
  {
    if |order| == 0 {
      NothingLive(c, total);
    } else {
      var x := order[0];
      assert x in order && x in Live(c);
      var k: nat :| k < |c| && c[k] == x && Released(c, x) == DeallocAt(c, k).chunks;
      DeallocKeeps(c, k, total);
      forall y ensures y in Live(Released(c, x)) <==> y in order[1..] {
        if y in order[1..] { assert y in order && y != x; }
        if y in order && y != x { var i :| 0 <= i < |order| && order[i] == y; assert order[1..][i-1] == y; }
      }
      ReleaseAllInAnyOrder(Released(c, x), order[1..], total);
    }
  }
}
