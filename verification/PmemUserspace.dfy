/**
 The user-space pmem allocator: it reserves a range in the best-fit heap, then
 opens, connects and maps a sub-heap for it, and rolls back when any of that fails.
 Results of the system calls are parameters.
 */
module PmemUserspace {
  import opened Words
  import opened ChunkSpec
  import opened BestFitHeap
  import opened HeapTheory
  import opened HeapRuns

  const MASTER_FD_INIT := -1
  const LIMP_SIZE: uint32 := 0x80_0000  // 8 MiB

  /** What the calls of one initialisation return. */
  datatype InitDeps = InitDeps(openFd: int, sizeErr: int, totalSize: uint32, mapOk: bool, errno: int) {
    predicate Sane() {
      errno > 0 && 0 < totalSize <= WORD - PAGE_SIZE
    }
    function HeapRequest(): uint32 {
      if sizeErr < 0 then LIMP_SIZE else totalSize
    }
    /** The heap that the first successful opening of the device creates. */
    function FreshHeap(): seq<Chunk> {
      [Chunk(0, RoundToPage(HeapRequest()) / MEMORY_ALIGN, true)]
    }
  }

  /** What opening, connecting and mapping a sub-heap return. */
  datatype SubDeps = SubDeps(openFd: int, connect: int, mapped: int, errno: int) {
    function Outcome(): int {
      if openFd < 0 then openFd else if connect != 0 then connect else mapped
    }
  }

  /** `Aborted` is the heap's assertion against releasing a free chunk. */
  datatype Result = Failed(err: int) | Granted(code: int, offset: nat, fd: int) | Aborted

  function Zeroed(mem: seq<bv8>, offset: nat, size: nat): (r: seq<bv8>)
    requires offset + size <= |mem|
    ensures |r| == |mem|
    ensures forall a :: 0 <= a < |mem| ==> r[a] == if offset <= a < offset + size then 0 else mem[a]
  {
    mem[..offset] + seq(size, _ => 0) + mem[offset + size..]
  }

  /** One buffer request on an initialised heap, on chunk sequences and memory contents. */
  ghost predicate GrantSpec(before: seq<Chunk>, mem: seq<bv8>, size: uint32, deps: SubDeps,
                            after: seq<Chunk>, mem': seq<bv8>, r: Result) {
    exists mid, offset :: AllocSpec(before, size, mid, offset)
      && GrantFrom(mid, offset, mem, size, deps, after, mem', r)
  }

  ghost predicate GrantFrom(mid: seq<Chunk>, offset: int, mem: seq<bv8>, size: uint32, deps: SubDeps,
                            after: seq<Chunk>, mem': seq<bv8>, r: Result) {
    if offset < 0 then
      after == mid && mem' == mem && r == Failed(-ENOMEM)
    else if deps.Outcome() < 0 then
      && offset < WORD && mem' == mem
      && exists rel :: DeallocSpec(mid, offset, after, rel) && r == if rel.Fatal? then Aborted else Failed(-deps.errno)
    else
      after == mid && offset + size <= |mem| && mem' == Zeroed(mem, offset, size)
      && r == Granted(deps.Outcome(), offset, deps.openFd)
  }

  lemma RequestInBounds(before: seq<Chunk>, size: uint32, mid: seq<Chunk>, offset: int, total: nat)
    requires HeapInv(before, total) && size <= MAX_REQUEST && AllocSpec(before, size, mid, offset)
    ensures HeapInv(mid, total)
    ensures offset >= 0 ==> offset + size <= total * MEMORY_ALIGN
  {
    if size > 0 { var x := AllocMeaning(before, size, mid, offset, total); }
  }

  class PmemUserspaceAllocator {
    const heap: SimpleBestFitAllocator
    var masterFd: int
    var mappedBytes: nat
    var mem: seq<bv8>

    ghost predicate Valid()
      reads this, heap, heap.mList, heap.mList.nodes
    {
      && heap.Valid() && |mem| == WORD
      && (heap.mHeapSize == 0 ==> masterFd < 0 && heap.chunks == [])
      && (heap.mHeapSize != 0 ==> HeapInv(heap.chunks, heap.mHeapSize / MEMORY_ALIGN))
    }

    constructor (mem: seq<bv8>)
      requires |mem| == WORD
      ensures Valid() && masterFd == MASTER_FD_INIT && heap.mHeapSize == 0 && this.mem == mem
    {
      heap := new SimpleBestFitAllocator();
      masterFd, mappedBytes, this.mem := MASTER_FD_INIT, 0, mem;
    }

    method InitPmemAreaLocked(deps: InitDeps) returns (err: int)
      requires Valid() && deps.Sane()
      modifies this, heap, heap.mList, heap.mList.nodes
      ensures Valid() && mem == old(mem) && fresh(set n | n in heap.mList.nodes && n !in old(heap.mList.nodes))
      ensures deps.openFd < 0 ==>
        && err == -deps.errno && masterFd == old(masterFd)
        && heap.mHeapSize == old(heap.mHeapSize) && heap.chunks == old(heap.chunks)
      // the first attempt that opens the device fixes the heap size; later ones cannot change it
      ensures deps.openFd >= 0 ==>
        heap.mHeapSize == if old(heap.mHeapSize) != 0 then old(heap.mHeapSize) else RoundToPage(deps.HeapRequest())
      ensures deps.openFd >= 0 && !deps.mapOk ==> err == -deps.errno && masterFd == old(masterFd)
      ensures deps.openFd >= 0 && deps.mapOk ==>
        err == deps.sizeErr && masterFd == deps.openFd && mappedBytes == deps.HeapRequest()
      ensures old(heap.mHeapSize) != 0 ==> heap.chunks == old(heap.chunks)
      ensures deps.openFd >= 0 && old(heap.mHeapSize) == 0 ==> heap.chunks == deps.FreshHeap()
      // without a known size the heap and the mapping are 8 MiB
      ensures deps.openFd >= 0 ==>
        var bytes: uint32 := if deps.sizeErr < 0 then 8 * 1024 * 1024 else deps.totalSize;
        && (old(heap.mHeapSize) == 0 ==>
              heap.mHeapSize == RoundToPage(bytes) && heap.chunks == [Chunk(0, RoundToPage(bytes) / 32, true)])
        && (deps.mapOk ==> mappedBytes == bytes)
      ensures err == 0 ==> masterFd >= 0
    {
      if deps.openFd < 0 { return -deps.errno; }
      err := deps.sizeErr;
      var size := deps.totalSize;
      if err < 0 { size := LIMP_SIZE; }
      ghost var unsized := heap.mHeapSize == 0;
      var _ := heap.SetSize(size);
      if unsized {
        SetSizeInv(RoundToPage(size));
        assert heap.chunks == [Chunk(0, RoundToPage(size) / MEMORY_ALIGN, true)];
      }
      if deps.mapOk {
        masterFd, mappedBytes := deps.openFd, size;
      } else {
        err := -deps.errno;
      }
    }

    method InitPmemArea(deps: InitDeps) returns (err: int)
      requires Valid() && deps.Sane()
      modifies this, heap, heap.mList, heap.mList.nodes
      ensures Valid() && mem == old(mem) && fresh(set n | n in heap.mList.nodes && n !in old(heap.mList.nodes))
      ensures old(heap.mHeapSize) != 0 ==> heap.chunks == old(heap.chunks) && heap.mHeapSize == old(heap.mHeapSize)
      ensures old(heap.mHeapSize) == 0 && err == 0 ==> heap.chunks == deps.FreshHeap()
      ensures old(masterFd) >= 0 ==> err == 0 && masterFd == old(masterFd)
      // a failure sticks, except that exactly -1 reads as "never tried"
      ensures old(masterFd) < 0 && old(masterFd) != MASTER_FD_INIT ==> err == old(masterFd) == masterFd
      // even a mapped area is refused when its size could not be queried
      ensures old(masterFd) == MASTER_FD_INIT ==>
        (err == 0 <==> deps.openFd >= 0 && deps.mapOk && deps.sizeErr == 0)
      ensures err == 0 ==> masterFd >= 0 && heap.mHeapSize != 0
      ensures err != 0 ==> masterFd == err
      ensures old(masterFd) >= 0 ==> mappedBytes == old(mappedBytes) && heap.mHeapSize == old(heap.mHeapSize)
      ensures old(masterFd) == MASTER_FD_INIT && old(heap.mHeapSize) == 0 && err == 0 ==> AreaMapped()
    {
      err := masterFd;
      if err == MASTER_FD_INIT {
        err := InitPmemAreaLocked(deps);
        if err != 0 { masterFd := err; }
      } else if err >= 0 {
        err := 0;
      }
    }

    /** The area is mapped already, or this first attempt maps it and learns its size. */
    static predicate Ready(masterFd: int, init: InitDeps) {
      masterFd >= 0 || (masterFd == MASTER_FD_INIT && init.openFd >= 0 && init.mapOk && init.sizeErr == 0)
    }

    /** The heap lies in the master mapping, whose length the kernel rounds up to pages. */
    predicate AreaMapped()
      reads this, heap
    {
      mappedBytes < WORD && heap.mHeapSize == RoundToPage(mappedBytes)
    }

    method AllocPmemBuffer(size: uint32, init: InitDeps, deps: SubDeps) returns (r: Result)
      requires Valid() && init.Sane() && size <= MAX_REQUEST
      modifies this, heap, heap.mList, heap.mList.nodes
      ensures Valid() && fresh(set n | n in heap.mList.nodes && n !in old(heap.mList.nodes))
      ensures old(masterFd) >= 0 ==> masterFd == old(masterFd) && heap.mHeapSize == old(heap.mHeapSize)
      ensures Ready(old(masterFd), init) ==>
        GrantSpec(if old(heap.mHeapSize) != 0 then old(heap.chunks) else init.FreshHeap(),
                  old(mem), size, deps, heap.chunks, mem, r)
      ensures !Ready(old(masterFd), init) ==> r == Failed(masterFd) && mem == old(mem)
      // the heap is the mapping, unless an earlier attempt sized it and could not map it
      ensures old(masterFd) >= 0 && old(AreaMapped()) ==> AreaMapped()
      ensures old(masterFd) < 0 && old(heap.mHeapSize) == 0 && Ready(old(masterFd), init) ==> AreaMapped()
      ensures r.Granted? ==> r.offset + size <= heap.mHeapSize
    {
      var err := InitPmemArea(init);
      if err != 0 { return Failed(err); }
      r := GrantBuffer(size, deps);
    }

    method GrantBuffer(size: uint32, deps: SubDeps) returns (r: Result)
      requires Valid() && masterFd >= 0 && heap.mHeapSize != 0 && size <= MAX_REQUEST
      modifies this`mem, heap, heap.mList, heap.mList.nodes
      ensures Valid() && heap.mHeapSize == old(heap.mHeapSize)
      ensures fresh(set n | n in heap.mList.nodes && n !in old(heap.mList.nodes))
      ensures GrantSpec(old(heap.chunks), old(mem), size, deps, heap.chunks, mem, r)
      ensures r.Granted? ==> r.offset + size <= heap.mHeapSize
    {
      ghost var before := heap.chunks;
      var offset := heap.Allocate(size);
      ghost var mid, total := heap.chunks, heap.mHeapSize / MEMORY_ALIGN;
      RequestInBounds(before, size, mid, offset, total);
      if offset < 0 {
        r := Failed(-ENOMEM);
      } else {
        if deps.Outcome() < 0 {
          var rel := heap.Deallocate(offset);
          DeallocMeaning(mid, offset, heap.chunks, rel, total);
          r := if rel.Fatal? then Aborted else Failed(-deps.errno);
        } else {
          mem := Zeroed(mem, offset, size);
          r := Granted(deps.Outcome(), offset, deps.openFd);
        }
      }
      assert GrantFrom(mid, offset, old(mem), size, deps, heap.chunks, mem, r);
    }

    /** The outer error code is never assigned, so every call answers 0. */
    method FreePmemBuffer(offset: uint32, fd: int, unmapped: int) returns (err: int)
      requires Valid()
      modifies heap, heap.mList, heap.mList.nodes
      ensures Valid() && err == 0 && heap.mHeapSize == old(heap.mHeapSize)
      ensures fd < 0 || unmapped != 0 || heap.mHeapSize == 0 ==> heap.chunks == old(heap.chunks)
      ensures fd >= 0 && unmapped == 0 && heap.mHeapSize != 0 ==>
        exists rel :: DeallocSpec(old(heap.chunks), offset, heap.chunks, rel)
    {
      err := 0;
      if fd >= 0 && unmapped == 0 {
        var rel := heap.Deallocate(offset);
        if heap.mHeapSize != 0 {
          DeallocMeaning(old(heap.chunks), offset, heap.chunks, rel, heap.mHeapSize / MEMORY_ALIGN);
        }
      }
    }
  }

  // ----- runs of requests and releases

  datatype Buffer = Buffer(offset: nat, size: nat)

  /** A running allocator together with the buffers its clients hold. */
  datatype Pool = Pool(chunks: seq<Chunk>, mem: seq<bv8>, held: set<Buffer>)

  datatype Event =
    | Request(size: uint32, deps: SubDeps)
    | GiveBack(buffer: Buffer, fd: int, unmapped: int)

  ghost predicate PoolStep(s: Pool, e: Event, s': Pool) {
    match e
    case Request(size, deps) =>
      exists r ::
        && GrantSpec(s.chunks, s.mem, size, deps, s'.chunks, s'.mem, r)
        && s'.held == if r.Granted? then s.held + {Buffer(r.offset, size)} else s.held
    case GiveBack(b, fd, unmapped) =>
      && b in s.held && s'.held == s.held - {b} && s'.mem == s.mem
      && if fd >= 0 && unmapped == 0
         then b.offset < WORD && exists rel :: DeallocSpec(s.chunks, b.offset, s'.chunks, rel)
         else s'.chunks == s.chunks
  }

  predicate Apart(a: Buffer, b: Buffer) {
    a.offset + a.size <= b.offset || b.offset + b.size <= a.offset
  }

  ghost predicate Backed(b: Buffer, c: seq<Chunk>) {
    exists x :: x in Live(c) && x.start * MEMORY_ALIGN == b.offset && b.size <= x.size * MEMORY_ALIGN
  }

  /** Every held buffer sits in a live chunk of its own. */
  ghost predicate PoolInv(s: Pool, total: nat) {
    && HeapInv(s.chunks, total) && |s.mem| == WORD
    && (forall b :: b in s.held ==> b.size > 0 && Backed(b, s.chunks))
    && (forall a, b :: a in s.held && b in s.held && a != b ==> a.offset != b.offset)
  }

  /** Held buffers occupy disjoint byte ranges. */
  lemma HeldApart(s: Pool, total: nat, a: Buffer, b: Buffer)
    requires PoolInv(s, total) && a in s.held && b in s.held && a != b
    ensures Apart(a, b)
  {
    var x :| x in Live(s.chunks) && x.start * MEMORY_ALIGN == a.offset && a.size <= x.size * MEMORY_ALIGN;
    var y :| y in Live(s.chunks) && y.start * MEMORY_ALIGN == b.offset && b.size <= y.size * MEMORY_ALIGN;
    LiveDisjoint(s.chunks, x, total);
  }

  /** Rolling back a failed request leaves the chunk list exactly as it was. */
  lemma RollbackRestores(before: seq<Chunk>, size: uint32, mid: seq<Chunk>, offset: uint32, after: seq<Chunk>,
                         rel: Release, total: nat)
    requires HeapInv(before, total) && 0 < size <= MAX_REQUEST
    requires AllocSpec(before, size, mid, offset) && DeallocSpec(mid, offset, after, rel)
    ensures after == before && rel == Status(0)
  {
    var units := Units(size);
    var k: nat :| IsBestFit(before, units, k) && AllocatesAt(before, k, size, mid, offset);
    AllocThenRelease(before, k, units, total);
    AllocatedHandsOut(before, k, size, mid, offset, total);
    OnlyRelease(mid, offset, after, rel, AllocatedIndex(before, k, units), total);
  }

  /** A release of a live chunk's offset releases that chunk. */
  lemma OnlyRelease(mid: seq<Chunk>, offset: uint32, after: seq<Chunk>, rel: Release, j: nat, total: nat)
    requires Tiles(mid, 0, total) && j < |mid| && mid[j].start == offset / MEMORY_ALIGN && !mid[j].free
    requires DeallocSpec(mid, offset, after, rel)
    ensures Merged(after, rel == Status(0)) == DeallocAt(mid, j)
  {
    StartsAtOnly(mid, j, total);
  }

  lemma StartsAtOnly(c: seq<Chunk>, j: nat, total: nat)
    requires Tiles(c, 0, total) && j < |c|
    ensures forall i :: 0 <= i < |c| && c[i].start == c[j].start ==> i == j
  {
    forall i | 0 <= i < |c| && c[i].start == c[j].start ensures i == j {
      if i < j { TilesOrdered(c, i, j, 0, total); TilesAt(c, i, 0, total); }
      if j < i { TilesOrdered(c, j, i, 0, total); TilesAt(c, j, 0, total); }
    }
  }

  /**
   A request either fails and leaves memory untouched, or grants a fresh zeroed
   buffer and leaves the bytes of every other held buffer alone.  A failure also
   leaves the chunks as they were, except exactly when the best fit lies so high
   that its offset reads as an error; then the range is lost.
   */
  lemma RequestKeeps(s: Pool, size: uint32, deps: SubDeps, s': Pool, r: Result, total: nat)
    requires PoolInv(s, total) && 0 < size <= MAX_REQUEST
    requires GrantSpec(s.chunks, s.mem, size, deps, s'.chunks, s'.mem, r)
    requires s'.held == if r.Granted? then s.held + {Buffer(r.offset, size)} else s.held
    ensures PoolInv(s', total) && RequestEnds(s, size, s', r, total)
  {
    var mid, offset :| AllocSpec(s.chunks, size, mid, offset)
      && GrantFrom(mid, offset, s.mem, size, deps, s'.chunks, s'.mem, r);
    var x := AllocMeaning(s.chunks, size, mid, offset, total);
    if offset < 0 {
      Refused(s, size, offset, x, s', total);
    } else if deps.Outcome() < 0 {
      RolledBack(s, size, mid, offset, deps, s', r, total);
    } else {
      GrantKeeps(s, size, mid, offset, x, deps, s', total);
    }
  }

  /**
   A request succeeds exactly when a chunk fits that does not lie too high, the device
   opens, and connecting and mapping do not fail; a positive answer to connecting skips mapping.
   */
  lemma RequestSucceeds(s: Pool, size: uint32, deps: SubDeps, s': Pool, r: Result, total: nat)
    requires PoolInv(s, total) && 0 < size <= MAX_REQUEST
    requires GrantSpec(s.chunks, s.mem, size, deps, s'.chunks, s'.mem, r)
    ensures var room := SomeFits(s.chunks, Units(size)) && !LosesRange(s.chunks, Units(size));
      && (r.Granted? <==>
            room && deps.openFd >= 0 && (deps.connect > 0 || (deps.connect == 0 && deps.mapped >= 0)))
      && (r.Granted? ==> r.fd == deps.openFd && r.code == if deps.connect > 0 then deps.connect else deps.mapped)
      && (!r.Granted? ==> r == Failed(if room then -deps.errno else -ENOMEM))
  {
    var mid, offset :| AllocSpec(s.chunks, size, mid, offset)
      && GrantFrom(mid, offset, s.mem, size, deps, s'.chunks, s'.mem, r);
    var x := AllocMeaning(s.chunks, size, mid, offset, total);
    OutcomeIs(deps);
    if offset >= 0 && deps.Outcome() < 0 {
      FailedSubHeap(s, size, mid, offset, deps, s', r, total);
    }
  }

  lemma OutcomeIs(deps: SubDeps)
    ensures deps.Outcome() >= 0 <==> deps.openFd >= 0 && (deps.connect > 0 || (deps.connect == 0 && deps.mapped >= 0))
  {
  }

  lemma FailedSubHeap(s: Pool, size: uint32, mid: seq<Chunk>, offset: nat, deps: SubDeps, s': Pool, r: Result,
                      total: nat)
    requires HeapInv(s.chunks, total) && 0 < size <= MAX_REQUEST && AllocSpec(s.chunks, size, mid, offset)
    requires deps.Outcome() < 0 && GrantFrom(mid, offset, s.mem, size, deps, s'.chunks, s'.mem, r)
    ensures r == Failed(-deps.errno) && s'.chunks == s.chunks && s'.mem == s.mem
  {
    var rel :| DeallocSpec(mid, offset, s'.chunks, rel) && r == if rel.Fatal? then Aborted else Failed(-deps.errno);
    RollbackRestores(s.chunks, size, mid, offset, s'.chunks, rel, total);
  }

  ghost predicate RequestEnds(s: Pool, size: uint32, s': Pool, r: Result, total: nat) {
    && (r.Granted? ==>
          && Buffer(r.offset, size) !in s.held && r.offset + size <= total * MEMORY_ALIGN <= |s'.mem| == |s.mem|
          && (forall a :: r.offset <= a < r.offset + size ==> s'.mem[a] == 0)
          && (forall b, a :: b in s.held && b.offset <= a < b.offset + b.size && a < |s.mem| ==> s'.mem[a] == s.mem[a]))
    && !r.Aborted? && (r.Failed? ==> s'.mem == s.mem)
    && (r.Failed? ==> (s'.chunks == s.chunks <==> !LosesRange(s.chunks, Units(size))))
    && (LosesRange(s.chunks, Units(size)) ==> r == Failed(-ENOMEM))
  }

  lemma Refused(s: Pool, size: uint32, offset: int, x: Chunk, s': Pool, total: nat)
    requires PoolInv(s, total) && 0 < size <= MAX_REQUEST && HeapInv(s'.chunks, total)
    requires offset < 0 && s'.mem == s.mem && s'.held == s.held
    requires if SomeFits(s.chunks, Units(size)) then HandsOut(s.chunks, size, s'.chunks, offset, total, x)
             else s'.chunks == s.chunks
    requires !SomeFits(s.chunks, Units(size)) || LosesRange(s.chunks, Units(size))
    ensures PoolInv(s', total) && RequestEnds(s, size, s', Failed(-ENOMEM), total)
  {
    StillBacked(s, s'.chunks);
  }

  lemma RolledBack(s: Pool, size: uint32, mid: seq<Chunk>, offset: nat, deps: SubDeps, s': Pool, r: Result, total: nat)
    requires PoolInv(s, total) && 0 < size <= MAX_REQUEST && AllocSpec(s.chunks, size, mid, offset)
    requires deps.Outcome() < 0 && GrantFrom(mid, offset, s.mem, size, deps, s'.chunks, s'.mem, r) && s'.held == s.held
    requires !LosesRange(s.chunks, Units(size))
    ensures PoolInv(s', total) && RequestEnds(s, size, s', r, total)
  {
    FailedSubHeap(s, size, mid, offset, deps, s', r, total);
  }

  lemma GrantKeeps(s: Pool, size: uint32, mid: seq<Chunk>, offset: nat, x: Chunk, deps: SubDeps, s': Pool, total: nat)
    requires PoolInv(s, total) && 0 < size && HeapInv(mid, total) && s'.chunks == mid
    requires offset + size <= |s.mem| && s'.mem == Zeroed(s.mem, offset, size)
    requires HandsOut(s.chunks, size, mid, offset, total, x) && !LosesRange(s.chunks, Units(size))
    requires s'.held == s.held + {Buffer(offset, size)}
    ensures PoolInv(s', total) && RequestEnds(s, size, s', Granted(deps.Outcome(), offset, deps.openFd), total)
  {
    StillBacked(s, mid);
    GrantIsApart(s, mid, x, Buffer(offset, size), total);
    Joins(s, s', Buffer(offset, size), total);
  }

  /**
   A request for no bytes reserves nothing and is granted at offset 0; when its
   mapping fails, the roll-back releases whatever holds offset 0, or aborts.
   */
  lemma ZeroRequest(s: Pool, deps: SubDeps, s': Pool, r: Result, total: nat)
    requires PoolInv(s, total) && GrantSpec(s.chunks, s.mem, 0, deps, s'.chunks, s'.mem, r)
    ensures s'.mem == s.mem && |s.chunks| > 0 && s.chunks[0].start == 0
    ensures deps.Outcome() >= 0 ==> r.Granted? && r.offset == 0 && s'.chunks == s.chunks
    ensures deps.Outcome() < 0 ==>
      if s.chunks[0].free then r.Aborted? && s'.chunks == s.chunks
      else r == Failed(-deps.errno) && Live(s'.chunks) == Live(s.chunks) - {s.chunks[0]}
  {
    if deps.Outcome() < 0 {
      var rel :| DeallocSpec(s.chunks, 0, s'.chunks, rel) && r == if rel.Fatal? then Aborted else Failed(-deps.errno);
      DeallocMeaning(s.chunks, 0, s'.chunks, rel, total);
      assert IsFirstAt(s.chunks, 0, 0);
    }
  }

  /** A buffer apart from every held one may join them. */
  lemma Joins(s: Pool, s': Pool, n: Buffer, total: nat)
    requires PoolInv(s, total) && HeapInv(s'.chunks, total) && |s'.mem| == WORD && s'.held == s.held + {n}
    requires n.size > 0 && Backed(n, s'.chunks) && forall b :: b in s.held ==>
      Backed(b, s'.chunks) && b.offset != n.offset
    ensures PoolInv(s', total)
  {
  }

  lemma StillBacked(s: Pool, mid: seq<Chunk>)
    requires forall b :: b in s.held ==> Backed(b, s.chunks)
    requires Live(s.chunks) <= Live(mid)
    ensures forall b :: b in s.held ==> Backed(b, mid)
  {
  }

  lemma GrantIsApart(s: Pool, mid: seq<Chunk>, x: Chunk, n: Buffer, total: nat)
    requires PoolInv(s, total)
    requires Live(mid) == Live(s.chunks) + {x}
    requires forall y :: y in Live(s.chunks) ==> y.start + y.size <= x.start || x.start + x.size <= y.start
    requires n.offset == x.start * MEMORY_ALIGN && 0 < n.size <= x.size * MEMORY_ALIGN
    ensures Backed(n, mid)
    ensures forall b :: b in s.held ==> Apart(b, n) && b.offset != n.offset
  {
  }

  /** Giving a buffer back frees its range exactly when the unmap succeeded, and touches no other buffer. */
  lemma GiveBackKeeps(s: Pool, b: Buffer, fd: int, unmapped: int, s': Pool, total: nat)
    requires PoolInv(s, total) && PoolStep(s, GiveBack(b, fd, unmapped), s')
    ensures PoolInv(s', total)
    ensures fd >= 0 && unmapped == 0 <==> Live(s'.chunks) != Live(s.chunks)
    ensures forall x :: x in Live(s.chunks) && x.start * MEMORY_ALIGN != b.offset ==> x in Live(s'.chunks)
  {
    if fd >= 0 && unmapped == 0 {
      var rel :| DeallocSpec(s.chunks, b.offset, s'.chunks, rel);
      DeallocMeaning(s.chunks, b.offset, s'.chunks, rel, total);
      var x :| x in Live(s.chunks) && x.start * MEMORY_ALIGN == b.offset && b.size <= x.size * MEMORY_ALIGN;
      assert Live(s'.chunks) == Live(s.chunks) - {x};
      forall o | o in s'.held ensures Backed(o, s'.chunks) {
        var y :| y in Live(s.chunks) && y.start * MEMORY_ALIGN == o.offset && o.size <= y.size * MEMORY_ALIGN;
        assert y in Live(s'.chunks);
      }
    }
  }

  lemma PoolStepKeeps(s: Pool, e: Event, s': Pool, total: nat)
    requires PoolInv(s, total) && PoolStep(s, e, s')
    requires e.Request? ==> 0 < e.size <= MAX_REQUEST
    ensures PoolInv(s', total)
  {
    match e
    case Request(size, deps) =>
      var r :| GrantSpec(s.chunks, s.mem, size, deps, s'.chunks, s'.mem, r)
               && s'.held == if r.Granted? then s.held + {Buffer(r.offset, size)} else s.held;
      RequestKeeps(s, size, deps, s', r, total);
    case GiveBack(b, fd, unmapped) =>
      GiveBackKeeps(s, b, fd, unmapped, s', total);
  }

  ghost predicate IsPoolRun(states: seq<Pool>, events: seq<Event>) {
    |states| == |events| + 1 && forall i :: 0 <= i < |events| ==> PoolStep(states[i], events[i], states[i+1])
  }

  lemma {:induction false} PoolRunInv(states: seq<Pool>, events: seq<Event>, total: nat, i: nat)
    requires IsPoolRun(states, events) && PoolInv(states[0], total) && i < |states|
    requires forall e :: e in events && e.Request? ==> 0 < e.size <= MAX_REQUEST
    ensures PoolInv(states[i], total)
  {
    if i > 0 {
      PoolRunInv(states, events, total, i - 1);
      assert events[i-1] in events && PoolStep(states[i-1], events[i-1], states[i]);
      PoolStepKeeps(states[i-1], events[i-1], states[i], total);
    }
  }

  /** In every run, at every moment, the held buffers are pairwise disjoint. */
  lemma PoolRun(states: seq<Pool>, events: seq<Event>, total: nat, i: nat)
    requires IsPoolRun(states, events) && PoolInv(states[0], total) && i < |states|
    requires forall e :: e in events && e.Request? ==> 0 < e.size <= MAX_REQUEST
    ensures PoolInv(states[i], total)
    ensures forall a, b :: a in states[i].held && b in states[i].held && a != b ==> Apart(a, b)
  {
    PoolRunInv(states, events, total, i);
    forall a, b | a in states[i].held && b in states[i].held && a != b ensures Apart(a, b) {
      HeldApart(states[i], total, a, b);
    }
  }
}
