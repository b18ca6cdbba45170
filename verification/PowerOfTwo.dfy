/** The kernel pmem allocator's rounding of sizes to a power of two. */
module PowerOfTwo {

  /** Smear the highest set bit of x - 1 to the right, then add one. */
  function Clp2(x: bv32): bv32 {
    var a := x - 1;
    var b := a | (a >> 1);
    var c := b | (b >> 2);
    var d := c | (c >> 4);
    var e := d | (d >> 8);
    var f := e | (e >> 16);
    f + 1
  }

  predicate IsPowerOfTwo(p: bv32) {
    p != 0 && p & (p - 1) == 0
  }

  predicate IsLeastPowerFrom(p: bv32, x: bv32) {
    IsPowerOfTwo(p) && x <= p && (p == 1 || p >> 1 < x)
  }

  /** Between 1 and 2^31 the result is the least power of two not below x, and nowhere else. */
  lemma Clp2IsLeast(x: bv32)
    ensures IsLeastPowerFrom(Clp2(x), x) <==> 1 <= x <= 0x8000_0000
  {
  }

  /** No power of two lies between x and the result. */
  lemma Clp2Minimal(x: bv32, p: bv32)
    requires 1 <= x <= 0x8000_0000 && IsPowerOfTwo(p) && x <= p
    ensures Clp2(x) <= p
  {
  }

  lemma Clp2Idempotent(x: bv32)
    ensures Clp2(Clp2(x)) == Clp2(x)
  {
  }

  /** What a request to the kernel allocator yields. */
  datatype Result = Failed(err: int) | Mapped(base: nat, fd: int)

  /** One mapping: its length and its bytes. */
  datatype Mapping = Mapping(length: bv32, bytes: seq<bv8>)

  function Zeros(n: nat): (z: seq<bv8>)
    ensures |z| == n && forall i :: 0 <= i < n ==> z[i] == 0
  {
    seq(n, _ => 0)
  }

  /** Each buffer is its own mapping; `mapped` is the kernel's record by base address. */
  class PmemKernelAllocator {
    var mapped: map<nat, Mapping>

    constructor ()
      ensures mapped == map[]
    {
      mapped := map[];
    }

    /** `base` is the address the mapping call returned, if it succeeded, and `found` the bytes there. */
    method AllocPmemBuffer(size: bv32, fd: int, mapOk: bool, base: nat, found: seq<bv8>, errno: int) returns (r: Result)
      requires mapOk ==> base !in mapped && |found| == Clp2(size) as nat
      modifies this
      ensures fd < 0 || !mapOk ==> r == Failed(-errno) && mapped == old(mapped)
      ensures fd >= 0 && mapOk ==>
        r == Mapped(base, fd) && mapped == old(mapped)[base := Mapping(Clp2(size), Zeros(Clp2(size) as nat))]
    {
      if fd < 0 { return Failed(-errno); }
      var rounded := Clp2(size);
      if !mapOk { return Failed(-errno); }
      mapped := mapped[base := Mapping(rounded, found)];
      mapped := mapped[base := mapped[base].(bytes := Zeros(|found|))];
      r := Mapped(base, fd);
    }

    /** The kernel removes a mapping whole only when it is unmapped with its own length. */
    method FreePmemBuffer(size: bv32, base: nat, unmapOk: bool, errno: int) returns (err: int)
      modifies this
      ensures !unmapOk ==> err == -errno && mapped == old(mapped)
      ensures unmapOk ==> err == 0
      ensures unmapOk && base in old(mapped) && old(mapped)[base].length == Clp2(size) ==>
        mapped == old(mapped) - {base}
    {
      var rounded := Clp2(size);
      if !unmapOk { return -errno; }
      if base in mapped && mapped[base].length == rounded { mapped := mapped - {base}; }
      err := 0;
    }
  }

  /** Freeing with the size that was asked for, or with the rounded size, unmaps exactly what was mapped. */
  method AllocThenFree(a: PmemKernelAllocator, size: bv32, fd: int, base: nat, found: seq<bv8>, errno: int,
      rounded: bool)
    requires fd >= 0 && base !in a.mapped && |found| == Clp2(size) as nat
    modifies a
    ensures a.mapped == old(a.mapped)
  {
    var r := a.AllocPmemBuffer(size, fd, true, base, found, errno);
    Clp2Idempotent(size);
    var err := a.FreePmemBuffer(if rounded then Clp2(size) else size, base, true, errno);
  }
}
