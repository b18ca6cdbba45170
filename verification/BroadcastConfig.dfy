/**
 Broadcast message configurations: a count, then the entries.  A GSM entry is
 four numbers and a selected flag, a CDMA entry two numbers and the flag; the
 flag travels as a 32-bit number and is cut to a byte on arrival.
 */
module BroadcastConfig {
  import opened Words
  import opened Parcels

  /** One entry; `numbers` has the same length throughout a list. */
  datatype Entry = Entry(numbers: seq<int32>, selected: uint8)

  predicate Uniform(es: seq<Entry>, width: nat) {
    forall i :: 0 <= i < |es| ==> |es[i].numbers| == width
  }

  function Ints(ns: seq<int32>): (r: seq<Item>)
    ensures |r| == |ns| && forall k :: 0 <= k < |ns| ==> r[k] == I32(ns[k])
  {
    seq(|ns|, k requires 0 <= k < |ns| => I32(ns[k]))
  }

  function EncodeEntry(e: Entry): seq<Item> {
    Ints(e.numbers) + [I32(e.selected)]
  }

  function EncodeEntries(es: seq<Entry>): seq<Item> {
    if |es| == 0 then [] else EncodeEntries(es[..|es|-1]) + EncodeEntry(es[|es|-1])
  }

  function Encode(es: seq<Entry>): seq<Item>
    requires |es| < 0x8000_0000
  {
    [I32(|es|)] + EncodeEntries(es)
  }

  method WriteEntry(p: Parcel, e: Entry)
    requires p.Valid()
    modifies p
    ensures p.Valid() && p.pos == old(p.pos) && p.items == old(p.items) + EncodeEntry(e)
  {
    var k := 0;
    while k < |e.numbers|
      invariant k <= |e.numbers| && p.Valid() && p.pos == old(p.pos)
      invariant p.items == old(p.items) + Ints(e.numbers[..k])
    {
      p.WriteInt32(e.numbers[k]);
      assert Ints(e.numbers[..k+1]) == Ints(e.numbers[..k]) + [I32(e.numbers[k])];
      k := k + 1;
    }
    assert e.numbers[..k] == e.numbers;
    p.WriteInt32(e.selected);
  }

  method ResponseBrSmsCnf(p: Parcel, es: seq<Entry>)
    requires p.Valid() && |es| < 0x8000_0000
    modifies p
    ensures p.Valid() && p.pos == old(p.pos) && p.items == old(p.items) + Encode(es)
  {
    p.WriteInt32(|es|);
    var i := 0;
    while i < |es|
      invariant i <= |es| && p.Valid() && p.pos == old(p.pos)
      invariant p.items == old(p.items) + [I32(|es|)] + EncodeEntries(es[..i])
    {
      WriteEntry(p, es[i]);
      assert es[..i+1][..i] == es[..i];
      i := i + 1;
    }
    assert es[..i] == es;
  }

  // ----- reading

  function ReadInts(r: Reader, n: nat): (x: (Reader, seq<int32>))
    ensures |x.1| == n
  {
    if n == 0 then (r, [])
    else
      var (r1, ns) := ReadInts(r, n - 1);
      var r2 := ReadInt(r1);
      (r2, ns + [r2.t])
  }

  function ReadEntry(r: Reader, width: nat): (Reader, Entry) {
    var (r1, ns) := ReadInts(r, width);
    var r2 := ReadInt(r1);
    (r2, Entry(ns, ToByte(r2.t)))
  }

  function ReadEntries(r: Reader, width: nat, num: nat): (Reader, seq<Entry>) {
    if num == 0 then (r, [])
    else
      var (r1, es) := ReadEntries(r, width, num - 1);
      var (r2, e) := ReadEntry(r1, width);
      (r2, es + [e])
  }

  datatype Parsed = Invalid | Config(entries: seq<Entry>)

  /** A bad count is rejected at once, a bad entry only through the status of the last read. */
  function Decode(r: Reader, width: nat): Parsed {
    var r1 := ReadInt(r);
    if !r1.ok then Invalid
    else
      var (r2, es) := ReadEntries(r1, width, if r1.t < 0 then 0 else r1.t);
      if r2.ok then Config(es) else Invalid
  }

  method DispatchEntry(p: Parcel, width: nat, t0: int32, ok0: bool, ghost r: Reader)
      returns (e: Entry, t: int32, ok: bool)
    requires p.Valid() && r == p.At(t0, r.ut, ok0)
    modifies p`pos
    ensures p.Valid() && (p.At(t, r.ut, ok), e) == ReadEntry(r, width)
  {
    var ns: seq<int32> := [];
    t, ok := t0, ok0;
    var k := 0;
    while k < width
      invariant k <= width && p.Valid() && (p.At(t, r.ut, ok), ns) == ReadInts(r, k)
    {
      ok, t := p.ReadInt32(t, ReadInts(r, k).0);
      ns := ns + [t];
      k := k + 1;
    }
    ok, t := p.ReadInt32(t, ReadInts(r, width).0);
    e := Entry(ns, ToByte(t));
  }

  method DispatchBrSmsCnf(p: Parcel, width: nat, t0: int32, ghost ut0: uint8) returns (r: Parsed)
    requires p.Valid()
    modifies p`pos
    ensures p.Valid() && r == Decode(Reader(old(p.items[p.pos..]), t0, ut0, false), width)
  {
    ghost var start := Reader(p.items[p.pos..], t0, ut0, false);
    var ok, num := p.ReadInt32(t0, start);
    if !ok { return Invalid; }
    ghost var first := ReadInt(start);
    var es: seq<Entry> := [];
    var t := num;
    var i: nat := 0;
    while i < num
      invariant i <= num || (i == 0 && num < 0)
      invariant p.Valid() && (p.At(t, ut0, ok), es) == ReadEntries(first, width, i)
    {
      var e;
      e, t, ok := DispatchEntry(p, width, t, ok, ReadEntries(first, width, i).0);
      es := es + [e];
      i := i + 1;
    }
    r := if ok then Config(es) else Invalid;
  }

  // ----- round trip

  lemma {:induction false} IntsBack(r: Reader, ns: seq<int32>, tail: seq<Item>)
    requires r.rest == Ints(ns) + tail
    ensures var (r', got) := ReadInts(r, |ns|); got == ns && r'.rest == tail
    decreases |ns|
  {
    if |ns| > 0 {
      var n := |ns| - 1;
      var tail' := [I32(ns[n])] + tail;
      assert r.rest == Ints(ns[..n]) + tail';
      IntsBack(r, ns[..n], tail');
      ReadIntBack(ReadInts(r, n).0, ns[n], tail);
    }
  }

  lemma Regroup(a: seq<Item>, b: seq<Item>, c: seq<Item>)
    ensures a + b + c == a + (b + c)
  {
  }

  lemma EntryBack(r: Reader, e: Entry, tail: seq<Item>)
    requires r.rest == EncodeEntry(e) + tail
    ensures var (r', got) := ReadEntry(r, |e.numbers|); got == e && r'.rest == tail && r'.ok
  {
    Regroup(Ints(e.numbers), [I32(e.selected)], tail);
    IntsBack(r, e.numbers, [I32(e.selected)] + tail);
    ReadIntBack(ReadInts(r, |e.numbers|).0, e.selected, tail);
  }

  lemma {:induction false} EntriesBack(r: Reader, es: seq<Entry>, width: nat, tail: seq<Item>)
    requires Uniform(es, width) && r.ok && r.rest == EncodeEntries(es) + tail
    ensures var (r', got) := ReadEntries(r, width, |es|); got == es && r'.rest == tail && r'.ok
    decreases |es|
  {
    if |es| > 0 {
      var n := |es| - 1;
      Regroup(EncodeEntries(es[..n]), EncodeEntry(es[n]), tail);
      EntriesBack(r, es[..n], width, EncodeEntry(es[n]) + tail);
      EntryBack(ReadEntries(r, width, n).0, es[n], tail);
      assert es == es[..n] + [es[n]];
    }
  }

  /** Reading undoes writing for every list of entries, GSM and CDMA alike. */
  lemma RoundTrip(es: seq<Entry>, width: nat, r: Reader, tail: seq<Item>)
    requires |es| < 0x8000_0000 && Uniform(es, width) && r.rest == Encode(es) + tail
    ensures Decode(r, width) == Config(es)
  {
    assert r.rest == [I32(|es|)] + (EncodeEntries(es) + tail);
    ReadIntBack(r, |es|, EncodeEntries(es) + tail);
    EntriesBack(ReadInt(r), es, width, tail);
  }

  // ----- any message at all

  predicate StartsWithInts(items: seq<Item>, n: nat) {
    n <= |items| && forall k :: 0 <= k < n ==> items[k].I32?
  }

  /** A number was missing: the latest read failed, and so will every further one. */
  predicate Stuck(r: Reader) {
    !r.ok && !StartsWithInts(r.rest, 1)
  }

  lemma {:induction false} IntsAre(r: Reader, n: nat)
    ensures var (r', ns) := ReadInts(r, n);
      if StartsWithInts(r.rest, n) then
        r'.rest == r.rest[n..] && (r.ok ==> r'.ok) && forall k :: 0 <= k < n ==> ns[k] == r.rest[k].i
      else Stuck(r')
  {
    if n > 0 { IntsAre(r, n - 1); }
  }

  lemma {:induction false} StuckInts(r: Reader, n: nat)
    requires Stuck(r)
    ensures Stuck(ReadInts(r, n).0)
  {
    if n > 0 { StuckInts(r, n - 1); }
  }

  /** The entry of `width` numbers and a flag that begins at item `from`. */
  predicate EntryAt(e: Entry, items: seq<Item>, from: nat, width: nat) {
    && |e.numbers| == width && StartsWithInts(items, from + width + 1)
    && (forall k :: 0 <= k < width ==> e.numbers[k] == items[from + k].i)
    && e.selected == ToByte(items[from + width].i)
  }

  lemma EntryIs(r: Reader, items: seq<Item>, from: nat, width: nat)
    requires StartsWithInts(items, from) && r.ok && r.rest == items[from..]
    ensures var (r', e) := ReadEntry(r, width);
      if StartsWithInts(items, from + width + 1) then
        r'.ok && r'.rest == items[from + width + 1..] && EntryAt(e, items, from, width)
      else Stuck(r')
  {
    IntsAre(r, width);
    if StartsWithInts(r.rest, width) {
      assert forall k :: 0 <= k < width ==> r.rest[k] == items[from + k];
      assert r.rest[width..] == items[from + width..];
    }
    assert StartsWithInts(r.rest, width) ==> StartsWithInts(items, from + width);
    assert StartsWithInts(items, from + width + 1) ==> StartsWithInts(r.rest, width);
  }

  /** Where entry `i` begins. */
  function Place(i: nat, width: nat): (p: nat)
    ensures p >= 1
  {
    if i == 0 then 1 else Place(i - 1, width) + width + 1
  }

  lemma {:induction false} PlaceIs(i: nat, width: nat)
    ensures Place(i, width) == 1 + i * (width + 1)
  {
    if i > 0 { PlaceIs(i - 1, width); }
  }

  lemma {:induction false} EntriesAre(r: Reader, items: seq<Item>, width: nat, num: nat)
    requires StartsWithInts(items, 1) && r.ok && r.rest == items[1..]
    ensures var (r', es) := ReadEntries(r, width, num);
      if StartsWithInts(items, Place(num, width)) then
        && r'.ok && r'.rest == items[Place(num, width)..]
        && |es| == num && forall i :: 0 <= i < num ==> EntryAt(es[i], items, Place(i, width), width)
      else Stuck(r')
  {
    if num > 0 {
      EntriesAre(r, items, width, num - 1);
      var r1 := ReadEntries(r, width, num - 1).0;
      if StartsWithInts(items, Place(num - 1, width)) {
        EntryIs(r1, items, Place(num - 1, width), width);
      } else {
        StuckInts(r1, width);
      }
    }
  }

  /** The count and all the entries it announces are there, each item a number. */
  predicate Complete(items: seq<Item>, width: nat) {
    && StartsWithInts(items, 1)
    && (items[0].i > 0 ==> StartsWithInts(items, 1 + items[0].i * (width + 1)))
  }

  /**
   A message is accepted exactly when it is complete, although most reads go
   unchecked; entry `i` is then the `i`-th group of items behind the count.
   */
  lemma DecodesComplete(r: Reader, width: nat)
    ensures Decode(r, width).Config? <==> Complete(r.rest, width)
    ensures Decode(r, width).Config? ==>
      var (items, es) := (r.rest, Decode(r, width).entries);
      && |es| == (if items[0].i < 0 then 0 else items[0].i)
      && forall i :: 0 <= i < |es| ==> EntryAt(es[i], items, 1 + i * (width + 1), width)
  {
    var r1 := ReadInt(r);
    if r1.ok {
      var num := if r1.t < 0 then 0 else r1.t;
      EntriesAre(r1, r.rest, width, num);
      forall i: nat ensures Place(i, width) == 1 + i * (width + 1) { PlaceIs(i, width); }
    }
  }
}
