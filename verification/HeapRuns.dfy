/** The heap over whole runs of allocate and deallocate calls, and the edges of its guarantees. */
module HeapRuns {
  import opened Words
  import opened ChunkSpec
  import opened BestFitHeap
  import opened HeapTheory

  ghost predicate SomeFits(c: seq<Chunk>, units: nat) {
    exists j :: 0 <= j < |c| && Fits(c[j], units)
  }

  /** A free chunk has room for `units` from a page boundary on. */
  ghost predicate HasRoom(c: Chunk, units: nat) {
    c.free && exists u: nat :: u % 128 == 0 && c.start <= u && u + units <= c.start + c.size
  }

  /** The fit test with its padding is the question whether there is room. */
  lemma FitsIsRoom(c: Chunk, units: nat)
    ensures Fits(c, units) <==> HasRoom(c, units)
  {
    var first := c.start + Padding(c.start);
    assert first % 128 == 0 && first < c.start + 128;
    if HasRoom(c, units) {
      var u: nat :| u % 128 == 0 && c.start <= u && u + units <= c.start + c.size;
      NextPage(first, u, c.start);
    }
  }

  lemma NextPage(first: nat, u: nat, start: nat)
    requires first % 128 == 0 && u % 128 == 0 && start <= u && first < start + 128
    ensures first <= u
  {
    assert first == 128 * (first / 128) && u == 128 * (u / 128);
  }

  /**
   Best fit: the range is carved from the first smallest chunk that has room, at its
   first page boundary; and there is no room anywhere exactly when the request fails.
   */
  lemma BestFitMeaning(before: seq<Chunk>, bytes: uint32, after: seq<Chunk>, r: int, total: nat)
    returns (x: Chunk, k: nat)
    requires HeapInv(before, total) && 0 < bytes <= MAX_REQUEST && AllocSpec(before, bytes, after, r)
    ensures (forall j :: 0 <= j < |before| ==> !HasRoom(before[j], (bytes + 31) / 32)) ==>
      after == before && r == -ENOMEM
    ensures (exists j :: 0 <= j < |before| && HasRoom(before[j], (bytes + 31) / 32)) ==>
      && k < |before| && HasRoom(before[k], (bytes + 31) / 32)
      && (forall j :: 0 <= j < |before| && HasRoom(before[j], (bytes + 31) / 32) ==>
            before[k].size < before[j].size || (before[k].size == before[j].size && k <= j))
      && Live(after) == Live(before) + {x} && x !in Live(before) && x.size == (bytes + 31) / 32
      && x.start % 128 == 0 && before[k].start <= x.start < before[k].start + 128
      && x.start + x.size <= before[k].start + before[k].size
  {
    var units := Units(bytes);
    assert units == (bytes + 31) / 32;
    forall j | 0 <= j < |before| ensures Fits(before[j], units) <==> HasRoom(before[j], units) {
      FitsIsRoom(before[j], units);
    }
    x, k := Chunk(0, 0, true), 0;
    if SomeFits(before, units) {
      k :| IsBestFit(before, units, k) && AllocatesAt(before, k, bytes, after, r);
      x := AllocatedIn(before[k], units);
      AllocKeeps(before, k, units, total);
      TilesAt(before, k, 0, total);
      PiecesStart(before[k], units, total);
    }
  }

  /** The request would be placed at 2 GiB or above, where an offset reads as a negative number. */
  predicate High(c: Chunk) {
    (c.start + Padding(c.start)) * MEMORY_ALIGN >= WORD / 2
  }

  /** The best-fitting chunk is a high one, so the range handed out is lost on the caller. */
  ghost predicate LosesRange(c: seq<Chunk>, units: nat) {
    exists k: nat :: IsBestFit(c, units, k) && High(c[k])
  }

  /** The new chunk encloses the request, is page aligned and disjoint from everything live. */
  ghost predicate HandsOut(before: seq<Chunk>, bytes: uint32, after: seq<Chunk>, r: int, total: nat, x: Chunk) {
    && Live(after) == Live(before) + {x} && x !in Live(before)
    && x.start % PAGE_UNITS == 0 && bytes <= x.size * MEMORY_ALIGN < bytes + MEMORY_ALIGN
    && x.start + x.size <= total
    && (forall y :: y in Live(before) ==> y.start + y.size <= x.start || x.start + x.size <= y.start)
    && x.start * MEMORY_ALIGN < WORD && r == Signed(x.start * MEMORY_ALIGN)
  }

  lemma OffsetFits(x: Chunk)
    requires x.start < WORD / MEMORY_ALIGN
    ensures x.start * MEMORY_ALIGN % WORD == x.start * MEMORY_ALIGN
  {
  }

  lemma AllocatedHandsOut(before: seq<Chunk>, k: nat, bytes: uint32, after: seq<Chunk>, r: int, total: nat)
    requires HeapInv(before, total) && 0 < bytes <= MAX_REQUEST
    requires k < |before| && Fits(before[k], Units(bytes)) && AllocatesAt(before, k, bytes, after, r)
    ensures HeapInv(after, total)
    ensures HandsOut(before, bytes, after, r, total, AllocatedIn(before[k], Units(bytes)))
  {
    var units := Units(bytes);
    var x := AllocatedIn(before[k], units);
    AllocKeeps(before, k, units, total);
    LiveDisjoint(after, x, total);
    OffsetFits(x);
  }

  /**
   Allocation succeeds exactly when a free chunk fits the padded request.  It then
   hands out one page-aligned chunk enclosing the request, inside the heap and
   disjoint from everything live; otherwise it changes nothing.
   */
  lemma AllocMeaning(before: seq<Chunk>, bytes: uint32, after: seq<Chunk>, r: int, total: nat)
      returns (x: Chunk)
    requires HeapInv(before, total) && 0 < bytes <= MAX_REQUEST && AllocSpec(before, bytes, after, r)
    ensures HeapInv(after, total)
    ensures !SomeFits(before, Units(bytes)) ==> after == before && r == -ENOMEM
    ensures SomeFits(before, Units(bytes)) ==> HandsOut(before, bytes, after, r, total, x)
    // the answer is a signed word: a success reads as an error exactly from 2 GiB up
    ensures r < 0 <==> !SomeFits(before, Units(bytes)) || LosesRange(before, Units(bytes))
    ensures total * MEMORY_ALIGN <= WORD / 2 ==> !LosesRange(before, Units(bytes))
  {
    x := Chunk(0, 0, true);
    if SomeFits(before, Units(bytes)) {
      var k: nat :| IsBestFit(before, Units(bytes), k) && AllocatesAt(before, k, bytes, after, r);
      AllocatedHandsOut(before, k, bytes, after, r, total);
      x := AllocatedIn(before[k], Units(bytes));
      HighIsNegative(before, bytes, k, total);
    }
  }

  /** Only the heap before the call decides the sign of the answer. */
  lemma HighIsNegative(before: seq<Chunk>, bytes: uint32, k: nat, total: nat)
    requires HeapInv(before, total) && 0 < bytes <= MAX_REQUEST && IsBestFit(before, Units(bytes), k)
    ensures var x := AllocatedIn(before[k], Units(bytes));
      x.start * MEMORY_ALIGN < WORD && (Signed(x.start * MEMORY_ALIGN) < 0 <==> High(before[k]))
    ensures High(before[k]) <==> LosesRange(before, Units(bytes))
    ensures total * MEMORY_ALIGN <= WORD / 2 ==> !High(before[k])
  {
    AllocKeeps(before, k, Units(bytes), total);
    TilesAt(before, k, 0, total);
    PiecesStart(before[k], Units(bytes), total);
    forall j: nat | IsBestFit(before, Units(bytes), j) ensures j == k {
    }
  }

  lemma PiecesStart(x: Chunk, units: uint28, total: nat)
    requires Fits(x, units) && 0 < units && AllocatedIn(x, units).start + units <= total <= WORD / MEMORY_ALIGN
    requires x.start <= AllocatedIn(x, units).start && x.start + x.size <= total
    ensures AllocatedIn(x, units).start == x.start + Padding(x.start) < total
  {
    PiecesTile(x, units);
  }

  lemma LiveDisjoint(c: seq<Chunk>, x: Chunk, total: nat)
    requires Tiles(c, 0, total) && x in Live(c)
    ensures forall y :: y in Live(c) && y != x ==> y.start + y.size <= x.start || x.start + x.size <= y.start
  {
    var i :| 0 <= i < |c| && c[i] == x;
    forall y | y in Live(c) && y != x ensures y.start + y.size <= x.start || x.start + x.size <= y.start {
      var j :| 0 <= j < |c| && c[j] == y;
      if i < j { TilesOrdered(c, i, j, 0, total); } else { TilesOrdered(c, j, i, 0, total); }
    }
  }

  lemma StartsOnce(c: seq<Chunk>, k: nat, total: nat)
    requires Tiles(c, 0, total) && k < |c| && IsFirstAt(c, c[k].start, k)
    ensures forall x :: x in c && x.start == c[k].start ==> x == c[k]
  {
    forall x | x in c && x.start == c[k].start ensures x == c[k] {
      var i :| 0 <= i < |c| && c[i] == x;
      if k < i {
        TilesOrdered(c, k, i, 0, total);
        TilesAt(c, k, 0, total);
      }
    }
  }

  /** A release of a live offset frees exactly that chunk; any other frees nothing, and aborts on a free chunk. */
  lemma DeallocMeaning(before: seq<Chunk>, offset: uint32, after: seq<Chunk>, r: Release, total: nat)
    requires HeapInv(before, total) && DeallocSpec(before, offset, after, r)
    ensures HeapInv(after, total)
    ensures forall x :: x in Live(before) && x.start == offset / MEMORY_ALIGN ==>
      r == Status(0) && Live(after) == Live(before) - {x}
    ensures (forall x :: x in Live(before) ==> x.start != offset / MEMORY_ALIGN) ==>
      after == before && (r == Status(-ENOENT) || r == Fatal)
    ensures r == Fatal <==> exists x :: x in before && x.free && x.start == offset / MEMORY_ALIGN
  {
    var start := offset / MEMORY_ALIGN;
    if j :| 0 <= j < |before| && before[j].start == start {
      var k: nat :| IsFirstAt(before, start, k) &&
         if before[k].free then after == before && r == Fatal
         else after == DeallocAt(before, k).chunks
              && r == (if DeallocAt(before, k).survivorFree then Status(0) else Fatal);
      StartsOnce(before, k, total);
      assert before[k] in before;
      if !before[k].free {
        DeallocKeeps(before, k, total);
        assert before[k] in Live(before);
      }
    }
  }

  datatype Op = AllocOp(bytes: uint32) | FreeOp(offset: uint32)

  ghost predicate Step(before: seq<Chunk>, op: Op, after: seq<Chunk>) {
    match op
    case AllocOp(bytes) => exists r :: AllocSpec(before, bytes, after, r)
    case FreeOp(offset) => exists r :: DeallocSpec(before, offset, after, r)
  }

  ghost predicate IsRun(states: seq<seq<Chunk>>, ops: seq<Op>) {
    |states| == |ops| + 1 && forall i :: 0 <= i < |ops| ==> Step(states[i], ops[i], states[i+1])
  }

  /** From a freshly sized heap, every run of calls keeps tiling, coalescing and alignment. */
  lemma {:induction false} RunKeepsHeap(states: seq<seq<Chunk>>, ops: seq<Op>, size: uint32, i: nat)
    requires IsRun(states, ops) && i < |states|
    requires RoundToPage(size) != 0 && states[0] == [Chunk(0, RoundToPage(size) / MEMORY_ALIGN, true)]
    requires forall op :: op in ops && op.AllocOp? ==> op.bytes <= MAX_REQUEST
    ensures HeapInv(states[i], RoundToPage(size) / MEMORY_ALIGN)
    decreases i
  {
    var total := RoundToPage(size) / MEMORY_ALIGN;
    if i == 0 {
      SetSizeInv(RoundToPage(size));
    } else {
      RunKeepsHeap(states, ops, size, i - 1);
      assert Step(states[i-1], ops[i-1], states[i]);
      match ops[i-1] {
        case AllocOp(bytes) =>
          assert ops[i-1] in ops;
          var r :| AllocSpec(states[i-1], bytes, states[i], r);
          if bytes != 0 {
            var x := AllocMeaning(states[i-1], bytes, states[i], r, total);
          }
        case FreeOp(offset) =>
          var r :| DeallocSpec(states[i-1], offset, states[i], r);
          DeallocMeaning(states[i-1], offset, states[i], r, total);
      }
    }
  }

  /** At the end of any run with nothing left allocated, the heap is one free chunk again. */
  lemma RunEndsWhole(states: seq<seq<Chunk>>, ops: seq<Op>, size: uint32)
    requires IsRun(states, ops) && RoundToPage(size) != 0
    requires states[0] == [Chunk(0, RoundToPage(size) / MEMORY_ALIGN, true)]
    requires forall op :: op in ops && op.AllocOp? ==> op.bytes <= MAX_REQUEST
    requires Live(states[|ops|]) == {}
    ensures states[|ops|] == states[0]
  {
    RunKeepsHeap(states, ops, size, |ops|);
    NothingLive(states[|ops|], RoundToPage(size) / MEMORY_ALIGN);
  }

  // ----- where the guarantee stops

  /**
   Rounding a request above 2^32 - 32 bytes wraps to zero units.  Such a call
   keeps the heap whole exactly when it happens to find no chunk at all.
   */
  lemma WrappedRequest(before: seq<Chunk>, bytes: uint32, after: seq<Chunk>, r: int, total: nat)
    requires HeapInv(before, total) && 0 < bytes && AllocSpec(before, bytes, after, r)
    ensures HeapInv(after, total) <==> bytes <= MAX_REQUEST || !SomeFits(before, 0)
  {
    if bytes <= MAX_REQUEST {
      var x := AllocMeaning(before, bytes, after, r, total);
    } else {
      assert Units(bytes) == 0;
      if SomeFits(before, 0) {
        var k: nat :| IsBestFit(before, 0, k) && AllocatesAt(before, k, bytes, after, r);
        AllocAtPieces(before, k, 0);
        assert Pieces(before[k], 0)[|PadPart(before[k], 0)|] == AllocatedIn(before[k], 0);
        assert AllocatedIn(before[k], 0) in after;
        if HeapInv(after, total) {
          TilesSpan(after, 0, total);
        }
      }
    }
  }

  /** A concrete such request: 2^32 - 1 bytes "succeed" on a one-page heap. */
  lemma WrappedRequestExample()
    ensures var c := [Chunk(0, PAGE_UNITS, true)];
            && HeapInv(c, PAGE_UNITS)
            && AllocSpec(c, WORD - 1, [Chunk(0, 0, false), Chunk(0, PAGE_UNITS, true)], 0)
  {
    var c := [Chunk(0, PAGE_UNITS, true)];
    SetSizeInv(PAGE_SIZE);
    assert IsBestFit(c, 0, 0);
    assert AllocAt(c, 0, 0) == [Chunk(0, 0, false), Chunk(0, PAGE_UNITS, true)];
    assert AllocatesAt(c, 0, WORD - 1, AllocAt(c, 0, 0), 0);
  }

  /** A reservation that reads as a failure: one page above 2 GiB, handed out at offset -2^31. */
  lemma LostRangeExample()
    ensures var c := [Chunk(0, 0x400_0000, false), Chunk(0x400_0000, PAGE_UNITS, true)];
            && HeapInv(c, 0x400_0000 + PAGE_UNITS) && LosesRange(c, Units(PAGE_SIZE))
            && AllocSpec(c, PAGE_SIZE, [c[0], Chunk(0x400_0000, PAGE_UNITS, false)], -0x8000_0000)
  {
    var c := [Chunk(0, 0x400_0000, false), Chunk(0x400_0000, PAGE_UNITS, true)];
    assert c[1..] == [c[1]] && [c[1]][1..] == [];
    assert Units(PAGE_SIZE) == PAGE_UNITS && Padding(0x400_0000) == 0;
    assert IsBestFit(c, PAGE_UNITS, 1) && High(c[1]);
    assert AllocAt(c, 1, PAGE_UNITS) == [c[0], Chunk(0x400_0000, PAGE_UNITS, false)];
    assert AllocatesAt(c, 1, PAGE_SIZE, AllocAt(c, 1, PAGE_UNITS), -0x8000_0000);
  }
}
