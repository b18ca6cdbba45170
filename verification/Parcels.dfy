/** Parcels as typed items with a read cursor, and the radio messages written to and read from them. */
module Parcels {
  import opened Words

  datatype Item = I32(i: int32) | U8(b: uint8)

  /** The truncating cast from a 32-bit integer to a byte. */
  function ToByte(i: int32): (b: uint8)
    ensures exists k: int :: i == b + 0x100 * k
  {
    assert i == i % 0x100 + 0x100 * (i / 0x100);
    i % 0x100
  }

  function Bytes(bs: seq<uint8>): (r: seq<Item>)
    ensures |r| == |bs| && forall k :: 0 <= k < |bs| ==> r[k] == U8(bs[k])
  {
    seq(|bs|, k requires 0 <= k < |bs| => U8(bs[k]))
  }

  /**
   A reader in mid-message: the items left, the two variables that reads go
   through, and the status of the latest read.  A failed read changes neither
   the variable nor the cursor.
   */
  datatype Reader = Reader(rest: seq<Item>, t: int32, ut: uint8, ok: bool)

  function ReadInt(r: Reader): Reader {
    if |r.rest| > 0 && r.rest[0].I32? then Reader(r.rest[1..], r.rest[0].i, r.ut, true) else r.(ok := false)
  }

  function ReadByte(r: Reader): Reader {
    if |r.rest| > 0 && r.rest[0].U8? then Reader(r.rest[1..], r.t, r.rest[0].b, true) else r.(ok := false)
  }

  /** `n` bytes one at a time; also the values the target array receives. */
  function ReadBytes(r: Reader, n: nat): (x: (Reader, seq<uint8>))
    ensures |x.1| == n
  {
    if n == 0 then (r, [])
    else
      var (r1, bs) := ReadBytes(r, n - 1);
      var r2 := ReadByte(r1);
      (r2, bs + [r2.ut])
  }

  class Parcel {
    var items: seq<Item>
    var pos: nat

    ghost predicate Valid()
      reads this
    {
      pos <= |items|
    }

    ghost function At(t: int32, ut: uint8, ok: bool): Reader
      requires Valid()
      reads this
    {
      Reader(items[pos..], t, ut, ok)
    }

    constructor ()
      ensures Valid() && items == [] && pos == 0
    {
      items, pos := [], 0;
    }

    method WriteInt32(i: int32)
      requires Valid()
      modifies this
      ensures Valid() && items == old(items) + [I32(i)] && pos == old(pos)
    {
      items := items + [I32(i)];
    }

    method Write(b: uint8)
      requires Valid()
      modifies this
      ensures Valid() && items == old(items) + [U8(b)] && pos == old(pos)
    {
      items := items + [U8(b)];
    }

    /** `t` is the variable's value before the read. */
    method ReadInt32(t: int32, ghost r: Reader) returns (ok: bool, t': int32)
      requires Valid() && r.rest == items[pos..] && r.t == t
      modifies this`pos
      ensures Valid() && At(t', r.ut, ok) == ReadInt(r)
    {
      if pos < |items| && items[pos].I32? {
        ok, t' := true, items[pos].i;
        pos := pos + 1;
      } else {
        ok, t' := false, t;
      }
    }

    method Read(ut: uint8, ghost r: Reader) returns (ok: bool, ut': uint8)
      requires Valid() && r.rest == items[pos..] && r.ut == ut
      modifies this`pos
      ensures Valid() && At(r.t, ut', ok) == ReadByte(r)
    {
      if pos < |items| && items[pos].U8? {
        ok, ut' := true, items[pos].b;
        pos := pos + 1;
      } else {
        ok, ut' := false, ut;
      }
    }
  }

  // ----- reading back what was written

  lemma ReadIntBack(r: Reader, i: int32, tail: seq<Item>)
    requires r.rest == [I32(i)] + tail
    ensures ReadInt(r) == Reader(tail, i, r.ut, true)
  {
  }

  lemma ReadByteBack(r: Reader, b: uint8, tail: seq<Item>)
    requires r.rest == [U8(b)] + tail
    ensures ReadByte(r) == Reader(tail, r.t, b, true)
  {
  }

  lemma {:induction false} ReadBytesBack(r: Reader, bs: seq<uint8>, tail: seq<Item>)
    requires r.rest == Bytes(bs) + tail
    ensures var (r', got) := ReadBytes(r, |bs|);
      got == bs && r'.rest == tail && r'.t == r.t && (|bs| > 0 || r.ok ==> r'.ok)
    decreases |bs|
  {
    if |bs| > 0 {
      var n := |bs| - 1;
      var tail' := [U8(bs[n])] + tail;
      assert r.rest == Bytes(bs[..n]) + tail';
      ReadBytesBack(r, bs[..n], tail');
      ReadByteBack(ReadBytes(r, n).0, bs[n], tail);
    }
  }
}
