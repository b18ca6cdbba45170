/** The best-fit allocator over linked nodes, each operation tied to the chunk-sequence specification. */
module BestFitHeap {
  import opened Words
  import opened ChunkSpec
  import opened HeapNodes

  const EINVAL := 22
  const ENOMEM := 12
  const ENOENT := 2

  /** A 32-bit word read back as a signed number, as an `ssize_t` return is. */
  function Signed(w: uint32): (r: int)
    ensures -0x8000_0000 <= r < 0x8000_0000 && (r == w || r == w - 0x1_0000_0000)
  {
    if w < WORD / 2 then w else w - WORD
  }

  function RoundToPage(size: uint32): (r: uint32)
    ensures r % PAGE_SIZE == 0
    ensures size <= WORD - PAGE_SIZE ==> size <= r < size + PAGE_SIZE
    ensures r == 0 <==> size == 0 || size > WORD - PAGE_SIZE
  {
    ((size + PAGE_SIZE - 1) % WORD) / PAGE_SIZE * PAGE_SIZE
  }

  /** How a release ends: a status code, or the process-aborting assertion. */
  datatype Release = Status(code: int) | Fatal

  /** What an allocation must do to the chunk sequence, and what it answers. */
  ghost predicate AllocSpec(before: seq<Chunk>, bytes: uint32, after: seq<Chunk>, r: int) {
    if bytes == 0 then after == before && r == 0
    else
      || (NoneFits(before, Units(bytes)) && after == before && r == -ENOMEM)
      || (exists k: nat :: IsBestFit(before, Units(bytes), k) && AllocatesAt(before, k, bytes, after, r))
  }

  ghost predicate AllocatesAt(before: seq<Chunk>, k: nat, bytes: uint32, after: seq<Chunk>, r: int)
    requires k < |before|
  {
    && after == AllocAt(before, k, Units(bytes))
    && r == Signed(AllocatedIn(before[k], Units(bytes)).start * MEMORY_ALIGN % WORD)
  }

  /** What a release must do to the chunk sequence, and how it ends. */
  ghost predicate DeallocSpec(before: seq<Chunk>, offset: uint32, after: seq<Chunk>, r: Release) {
    var start := offset / MEMORY_ALIGN;
    || ((forall j :: 0 <= j < |before| ==> before[j].start != start)
        && after == before && r == Status(-ENOENT))
    || (exists k: nat :: IsFirstAt(before, start, k) &&
         if before[k].free then after == before && r == Fatal
         else after == DeallocAt(before, k).chunks
              && r == (if DeallocAt(before, k).survivorFree then Status(0) else Fatal))
  }

  function FrontSplit(c: seq<Chunk>, k: nat, extra: uint28): seq<Chunk>
    requires k < |c|
  {
    c[..k] + [Chunk(c[k].start, extra, true), c[k].(start := (c[k].start + extra) % WORD)] + c[k+1..]
  }

  /** Where everything is after a split. */
  lemma FrontSplitAt(c: seq<Chunk>, k: nat, extra: uint28)
    requires k < |c|
    ensures var r := FrontSplit(c, k, extra);
      && |r| == |c| + 1 && r[k] == Chunk(c[k].start, extra, true)
      && r[k+1] == c[k].(start := (c[k].start + extra) % WORD)
      && (forall i :: 0 <= i < k ==> r[i] == c[i])
      && (forall i :: k + 1 < i < |r| ==> r[i] == c[i-1])
  {
  }

  lemma FoldBackAt(c: seq<Chunk>, k: nat)
    requires 0 < k < |c|
    ensures var r := FoldBack(c, k);
      && |r| == |c| - 1 && r[k-1] == c[k-1].(size := SizeSum(c[k-1].size, c[k].size))
      && (forall i :: 0 <= i < k - 1 ==> r[i] == c[i])
      && (forall i :: k <= i < |r| ==> r[i] == c[i+1])
  {
  }

  function BackSplit(c: seq<Chunk>, k: nat, tailFree: uint28): seq<Chunk>
    requires k < |c|
  {
    c[..k+1] + [Chunk((c[k].start + c[k].size) % WORD, tailFree, true)] + c[k+1..]
  }

  function Mark(c: seq<Chunk>, k: nat, units: uint28): seq<Chunk>
    requires k < |c|
  {
    c[k := Chunk(c[k].start, units, false)]
  }

  function Fronted(c: seq<Chunk>, k: nat, extra: uint28): seq<Chunk>
    requires k < |c|
  {
    if extra > 0 then FrontSplit(c, k, extra) else c
  }

  function Backed(c: seq<Chunk>, k: nat, tailFree: uint28): seq<Chunk>
    requires k < |c|
  {
    if tailFree > 0 then BackSplit(c, k, tailFree) else c
  }

  function Trimmed(c: seq<Chunk>, k: nat, units: uint28, freeSize: uint28): seq<Chunk>
    requires k < |c| && freeSize >= units + Padding(c[k].start)
  {
    var extra := Padding(c[k].start);
    Backed(Fronted(c, k, extra), if extra > 0 then k + 1 else k, freeSize - (units + extra))
  }

  lemma FrontedIs(c: seq<Chunk>, k: nat, units: uint28)
    requires k < |c|
    ensures Fronted(Mark(c, k, units), k, PadOf(c[k], units)) ==
            c[..k] + PadPart(c[k], units) + [AllocatedIn(c[k], units)] + c[k+1..]
  {
    var marked := Mark(c, k, units);
    assert marked[..k] == c[..k] && marked[k+1..] == c[k+1..];
  }

  lemma BackSplitIs(a: seq<Chunk>, x: Chunk, b: seq<Chunk>, tailFree: uint28)
    ensures BackSplit(a + [x] + b, |a|, tailFree) ==
            a + [x] + [Chunk((x.start + x.size) % WORD, tailFree, true)] + b
  {
    var c := a + [x] + b;
    assert c[..|a|+1] == a + [x] && c[|a|+1..] == b;
  }

  /** Marking, then splitting in front, then behind, is the one-shot allocation. */
  lemma SplitsBuildAllocAt(c: seq<Chunk>, k: nat, units: uint28)
    requires k < |c| && Fits(c[k], units)
    ensures AllocAt(c, k, units) ==
            if c[k].size > units then Trimmed(Mark(c, k, units), k, units, c[k].size) else Mark(c, k, units)
  {
    var left, x := c[..k] + PadPart(c[k], units), AllocatedIn(c[k], units);
    FrontedIs(c, k, units);
    BackSplitIs(left, x, c[k+1..], c[k].size - (units + PadOf(c[k], units)));
    assert left + [x] + [] == left + [x];
  }

  class SimpleBestFitAllocator {
    const mList: ChunkList
    var mHeapSize: uint32
    ghost var chunks: seq<Chunk>  // what the list's nodes hold, first to last

    ghost predicate Valid()
      reads this, mList, mList.nodes
    {
      && mList.Linked()
      && |chunks| == |mList.nodes|
      && forall i {:trigger chunks[i]} :: 0 <= i < |chunks| ==>
           && mList.nodes[i].start == chunks[i].start
           && mList.nodes[i].size == chunks[i].size
           && mList.nodes[i].free == chunks[i].free
    }

    constructor ()
      ensures Valid() && chunks == [] && mHeapSize == 0 && fresh(mList)
    {
      mList := new ChunkList();
      mHeapSize, chunks := 0, [];
    }

    method SetSize(size: uint32) returns (r: int)
      requires Valid()
      modifies this, mList, mList.nodes
      ensures Valid() && fresh(set n | n in mList.nodes && n !in old(mList.nodes))
      ensures old(mHeapSize) != 0 ==>
        r == -EINVAL && mHeapSize == old(mHeapSize) && chunks == old(chunks)
      ensures old(mHeapSize) == 0 ==>
        && r == Signed(size) && mHeapSize == RoundToPage(size)
        && chunks == [Chunk(0, RoundToPage(size) / MEMORY_ALIGN, true)] + old(chunks)
    {
      if mHeapSize != 0 { return -EINVAL; }
      mHeapSize := RoundToPage(size);
      var node := new ChunkNode(0, mHeapSize / MEMORY_ALIGN);
      mList.InsertHead(node);
      chunks := [node.Val()] + chunks;
      r := Signed(size);
    }

    method Allocate(size: uint32) returns (r: int)
      requires Valid()
      modifies this, mList, mList.nodes
      ensures Valid() && mHeapSize == old(mHeapSize) && fresh(set n | n in mList.nodes && n !in old(mList.nodes))
      ensures mHeapSize == 0 ==> r == -EINVAL && chunks == old(chunks)
      ensures mHeapSize != 0 ==> AllocSpec(old(chunks), size, chunks, r)
    {
      if mHeapSize == 0 { return -EINVAL; }
      r := Alloc(size);
    }

    /** The scan: remember the first smallest fit, stop early on an exact one. */
    method FindBestFit(units: nat) returns (best: ChunkNode?, ghost k: nat)
      requires Valid()
      ensures best == null ==> NoneFits(chunks, units)
      ensures best != null ==> IsBestFit(chunks, units, k) && best == mList.nodes[k]
    {
      best, k := null, 0;
      var cur := mList.first;
      ghost var i, c := 0, chunks;
      while cur != null
        invariant i <= |c| && cur == (if i < |c| then mList.nodes[i] else null)
        invariant best == null ==> forall j :: 0 <= j < i ==> !Fits(c[j], units)
        invariant best != null ==> IsBestAmong(c, units, i, k) && best == mList.nodes[k]
        decreases |c| - i
      {
        assert cur.Val() == c[i];
        assert best != null ==> best.Val() == c[k];
        if cur.free && cur.size >= units + Padding(cur.start) {
          if best == null || cur.size < best.size {
            best, k := cur, i;
          }
          if cur.size == units {
            return;
          }
        }
        cur := cur.next;
        i := i + 1;
      }
    }

    method Alloc(size: uint32) returns (r: int)
      requires Valid()
      modifies this, mList, mList.nodes
      ensures Valid() && mHeapSize == old(mHeapSize) && fresh(set n | n in mList.nodes && n !in old(mList.nodes))
      ensures AllocSpec(old(chunks), size, chunks, r)
    {
      if size == 0 { return 0; }
      var units := Units(size);
      var chunk, k := FindBestFit(units);
      if chunk == null { return -ENOMEM; }
      Split(chunk, units, k);
      assert IsBestFit(old(chunks), units, k);
      r := Signed(chunk.start * MEMORY_ALIGN % WORD);
    }

    /** Carve the request out of the chosen chunk: pad in front, the rest behind. */
    method Split(chunk: ChunkNode, units: uint28, ghost k: nat)
      requires Valid() && k < |mList.nodes| && mList.nodes[k] == chunk
      requires Fits(chunks[k], units)
      modifies this`chunks, mList, mList.nodes
      ensures Valid() && fresh(set n | n in mList.nodes && n !in old(mList.nodes))
      ensures chunks == AllocAt(old(chunks), k, units)
      ensures chunk.Val() == AllocatedIn(old(chunks)[k], units)
    {
      ghost var c := chunks;
      var freeSize := chunk.size;
      chunk.free := false;
      chunk.size := units;
      chunks := Mark(c, k, units);
      if freeSize > units {
        Trim(chunk, freeSize, k);
      }
      SplitsBuildAllocAt(c, k, units);
    }

    method Trim(chunk: ChunkNode, freeSize: uint28, ghost k: nat)
      requires Valid() && k < |mList.nodes| && mList.nodes[k] == chunk
      requires freeSize >= chunk.size + Padding(chunk.start)
      modifies this`chunks, mList, mList.nodes
      ensures Valid() && fresh(set n | n in mList.nodes && n !in old(mList.nodes))
      ensures chunks == Trimmed(old(chunks), k, old(chunk.size), freeSize)
      ensures chunk.Val() == old(chunks[k]).(start := (old(chunk.start) + Padding(old(chunk.start))) % WORD)
    {
      ghost var c, units := chunks, chunk.size;
      var extra := Padding(chunk.start);
      ghost var j := k;
      if extra != 0 {
        SplitFront(chunk, extra, k);
        j := k + 1;
      }
      assert chunks == Fronted(c, k, extra);
      var tailFree := freeSize - (chunk.size + extra);
      if tailFree > 0 {
        SplitBack(chunk, tailFree, j);
      }
    }

    method SplitFront(chunk: ChunkNode, extra: uint28, ghost k: nat)
      requires Valid() && k < |mList.nodes| && mList.nodes[k] == chunk
      modifies this`chunks, mList, mList.nodes
      ensures Valid() && fresh(set n | n in mList.nodes && n !in old(mList.nodes))
      ensures |mList.nodes| == old(|mList.nodes|) + 1 && mList.nodes[k+1] == chunk
      ensures chunks == FrontSplit(old(chunks), k, extra) && chunk.Val() == chunks[k+1]
    {
      FrontSplitAt(chunks, k, extra);
      var pad := new ChunkNode(chunk.start, extra);
      InsertedAt(mList.nodes, pad, k);
      chunk.start := (chunk.start + extra) % WORD;
      mList.InsertBefore(chunk, pad, k);
      chunks := FrontSplit(chunks, k, extra);
      assert mList.nodes[k] == pad && pad.Val() == chunks[k] && chunk.Val() == chunks[k+1];
      assert forall i {:trigger chunks[i]} :: k + 1 < i < |chunks| ==> mList.nodes[i] == old(mList.nodes)[i-1];
    }

    method SplitBack(chunk: ChunkNode, tailFree: uint28, ghost k: nat)
      requires Valid() && k < |mList.nodes| && mList.nodes[k] == chunk
      modifies this`chunks, mList, mList.nodes
      ensures Valid() && fresh(set n | n in mList.nodes && n !in old(mList.nodes))
      ensures chunks == BackSplit(old(chunks), k, tailFree)
      ensures chunk.Val() == old(chunks[k])
    {
      var tail := new ChunkNode((chunk.start + chunk.size) % WORD, tailFree);
      mList.InsertAfter(chunk, tail, k + 1);
      chunks := BackSplit(chunks, k, tailFree);
    }

    method Deallocate(offset: uint32) returns (r: Release)
      requires Valid()
      modifies this, mList, mList.nodes
      ensures Valid() && mHeapSize == old(mHeapSize) && fresh(set n | n in mList.nodes && n !in old(mList.nodes))
      ensures mHeapSize == 0 ==> r == Status(-EINVAL) && chunks == old(chunks)
      ensures mHeapSize != 0 ==> DeallocSpec(old(chunks), offset, chunks, r)
    {
      if mHeapSize == 0 { return Status(-EINVAL); }
      r := Dealloc(offset);
    }

    method Dealloc(offset: uint32) returns (r: Release)
      requires Valid()
      modifies this`chunks, mList, mList.nodes
      ensures Valid() && fresh(set n | n in mList.nodes && n !in old(mList.nodes))
      ensures DeallocSpec(old(chunks), offset, chunks, r)
    {
      var start := offset / MEMORY_ALIGN;
      var cur := mList.first;
      ghost var i: nat := 0;
      while cur != null
        invariant i <= |mList.nodes| && cur == (if i < |mList.nodes| then mList.nodes[i] else null)
        invariant forall j :: 0 <= j < i ==> chunks[j].start != start
        decreases |mList.nodes| - i
      {
        assert cur.Val() == chunks[i];
        if cur.start == start {
          assert IsFirstAt(chunks, start, i);
          if cur.free { return Fatal; }
          var survivorFree := MergeFreed(cur, i);
          return if survivorFree then Status(0) else Fatal;
        }
        cur := cur.next;
        i := i + 1;
      }
      r := Status(-ENOENT);
    }

    /** Mark a chunk free and fold neighbouring free chunks together. */
    method MergeFreed(node: ChunkNode, ghost k: nat) returns (survivorFree: bool)
      requires Valid() && k < |mList.nodes| && mList.nodes[k] == node
      modifies this`chunks, mList, mList.nodes
      ensures Valid() && forall j :: 0 <= j < |mList.nodes| ==> mList.nodes[j] in old(mList.nodes)
      ensures Merged(chunks, survivorFree) == DeallocAt(old(chunks), k)
    {
      ghost var target := DeallocAt(chunks, k);
      node.free := true;
      chunks := chunks[k := chunks[k].(free := true)];
      var cur: ChunkNode? := node;
      survivorFree := true;
      ghost var i := k;
      var more := true;
      while more
        invariant Valid() && (forall j :: 0 <= j < |mList.nodes| ==> mList.nodes[j] in old(mList.nodes))
        invariant more ==> i < |mList.nodes| && cur == mList.nodes[i]
        invariant more ==> MergeFrom(chunks, i, survivorFree) == target
        invariant !more ==> Merged(chunks, survivorFree) == target
        decreases if more then |mList.nodes| - i else 0
      {
        var n := cur.next;
        survivorFree, i := Fold(cur, survivorFree, i);
        cur := n;
        assert cur != null ==> cur.Val() == chunks[i];
        more := cur != null && cur.free;
      }
    }

    /** One turn of the merge: fold `cur` into its predecessor if that is due. */
    method Fold(cur: ChunkNode, survivorFree: bool, ghost i: nat) returns (survivorFree': bool, ghost i': nat)
      requires Valid() && i < |mList.nodes| && mList.nodes[i] == cur
      modifies this`chunks, mList, mList.nodes
      ensures Valid() && forall j :: 0 <= j < |mList.nodes| ==> mList.nodes[j] in old(mList.nodes)
      ensures chunks == if Folds(old(chunks), i) then FoldBack(old(chunks), i) else old(chunks)
      ensures i' == if Folds(old(chunks), i) then i else i + 1
      ensures survivorFree' == if Folds(old(chunks), i) then old(chunks)[i-1].free else survivorFree
      ensures i' <= |mList.nodes| && old(cur.next) == if i' < |mList.nodes| then mList.nodes[i'] else null
      ensures |mList.nodes| - i' == |old(mList.nodes)| - i - 1
    {
      ghost var c := chunks;
      var p := cur.prev;
      assert cur.Val() == c[i] && (p != null ==> p.Val() == c[i-1]);
      if p != null && (p.free || cur.size == 0) {
        survivorFree', i' := p.free, i;
        Absorb(p, cur, i);
      } else {
        survivorFree', i' := survivorFree, i + 1;
      }
    }

    /** `p` takes over the units of its successor, which leaves the list. */
    method Absorb(p: ChunkNode, cur: ChunkNode, ghost i: nat)
      requires Valid() && 0 < i < |mList.nodes| && mList.nodes[i] == cur && mList.nodes[i-1] == p
      modifies this`chunks, mList, mList.nodes
      ensures Valid() && chunks == FoldBack(old(chunks), i)
      ensures mList.nodes == old(mList.nodes[..i] + mList.nodes[i+1..])
    {
      FoldBackAt(chunks, i);
      assert p.Val() == chunks[i-1] && cur.Val() == chunks[i];
      p.size := SizeSum(p.size, cur.size);
      mList.Remove(cur, i);
      chunks := FoldBack(chunks, i);
      assert mList.nodes[i-1] == p && p.Val() == chunks[i-1];
      assert forall j {:trigger chunks[j]} :: i <= j < |chunks| ==> mList.nodes[j] == old(mList.nodes)[j+1];
    }
  }
}
