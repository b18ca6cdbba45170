/**
 Storing a byte stream in a 32 KiB serial EEPROM behind a 64-byte header, and
 reading it back.  The chip programs within 64-byte pages: a write that runs past
 the end of its page continues at the page's start.
 */
module EepromFile {
  import opened Words

  const BLOCK := 64          // largest transfer, and the chip's page
  const EEPROM_SIZE := 32768
  const HEAD_SIZE := 64      // sizeof(struct mini_inode) with 32-bit time and int

  // ----- addresses

  /** The two address bytes sent before a transfer. */
  function MadeAddress(addr: nat): (b: (uint8, uint8)) {
    (addr % 0x10000 / 0x100 % 0x80, addr % 0x100)
  }

  function DeviceAddress(b: (uint8, uint8)): nat {
    b.0 * 0x100 + b.1
  }

  /** The chip sees the address modulo its size. */
  lemma AddressOnChip(addr: nat)
    ensures DeviceAddress(MadeAddress(addr)) == addr % EEPROM_SIZE
  {
    var q, rest := addr / EEPROM_SIZE, addr % EEPROM_SIZE;
    var hi, low := rest / 0x100, rest % 0x100;
    var half, odd := q / 2, q % 2;
    var page := 0x80 * odd + hi;
    DivModIs(addr, 0x10000, half, 0x100 * page + low);
    DivModIs(0x100 * page + low, 0x100, page, low);
    DivModIs(page, 0x80, odd, hi);
    DivModIs(addr, 0x100, 0x100 * half + page, low);
  }

  lemma DivModIs(a: int, m: int, k: int, r: int)
    requires m > 0 && a == m * k + r && 0 <= r < m
    ensures a / m == k && a % m == r
  {
    var d := a / m - k;
    assert d > 0 ==> m * d >= m;
    assert d < 0 ==> m * d <= -m;
    assert m * d == r - a % m;
  }

  // ----- the chip

  function Cell(a: nat, k: nat): nat {
    a / 64 * 64 + (a % 64 + k) % 64
  }

  /** Memory after programming `data` from address `a`, wrapping inside the page. */
  function Programmed(mem: seq<uint8>, a: nat, data: seq<uint8>): (r: seq<uint8>)
    requires |mem| == EEPROM_SIZE && a < EEPROM_SIZE
    ensures |r| == EEPROM_SIZE
  {
    if |data| == 0 then mem
    else
      var n := |data| - 1;
      Programmed(mem, a, data[..n])[Cell(a, n) := data[n]]
  }

  function Splice(mem: seq<uint8>, a: nat, data: seq<uint8>): seq<uint8>
    requires a + |data| <= |mem|
  {
    mem[..a] + data + mem[a + |data|..]
  }

  predicate PageStart(a: nat) {
    a % 64 == 0
  }

  lemma NextPage(a: nat)
    requires PageStart(a)
    ensures PageStart(a + BLOCK)
  {
  }

  predicate InPage(a: nat, n: nat) {
    a % 64 + n <= 64
  }

  /** A write that stays in its page lands byte for byte. */
  lemma {:induction false} ProgrammedInPage(mem: seq<uint8>, a: nat, data: seq<uint8>)
    requires |mem| == EEPROM_SIZE && a < EEPROM_SIZE && InPage(a, |data|)
    ensures a + |data| <= EEPROM_SIZE && Programmed(mem, a, data) == Splice(mem, a, data)
    decreases |data|
  {
    if |data| > 0 {
      var n := |data| - 1;
      ProgrammedInPage(mem, a, data[..n]);
      assert Cell(a, n) == a + n;
      assert data == data[..n] + [data[n]];
    }
  }

  /** Sequential reading continues past the end at address 0. */
  function Fetched(mem: seq<uint8>, a: nat, n: nat): (r: seq<uint8>)
    requires |mem| == EEPROM_SIZE
    ensures |r| == n && forall k :: 0 <= k < n ==> r[k] == mem[(a + k) % EEPROM_SIZE]
  {
    seq(n, k requires 0 <= k < n => mem[(a + k) % EEPROM_SIZE])
  }

  // ----- the header

  datatype Inode = Inode(timestamp: int32, dataLen: int32, data: seq<uint8>)

  /** Four bytes, the lowest first, as the processor keeps an `int`. */
  function Word(i: int32): (b: seq<uint8>)
    ensures |b| == 4
  {
    var w := i % 0x1_0000_0000;
    [w % 0x100, w / 0x100 % 0x100, w / 0x1_0000 % 0x100, w / 0x100_0000]
  }

  /** The number those bytes stand for, in two's complement. */
  lemma WordIs(i: int32)
    ensures var (b0: int, b1: int, b2: int, b3: int) := (Word(i)[0], Word(i)[1], Word(i)[2], Word(i)[3]);
      b0 + 0x100 * b1 + 0x1_0000 * b2 + 0x100_0000 * b3 == if i < 0 then i + 0x1_0000_0000 else i
  {
    var w := i % 0x1_0000_0000;
    assert w == w % 0x100 + 0x100 * (w / 0x100);
    assert w / 0x100 == w / 0x100 % 0x100 + 0x100 * (w / 0x1_0000);
    assert w / 0x1_0000 == w / 0x1_0000 % 0x100 + 0x100 * (w / 0x100_0000);
  }

  function FromWord(b: seq<uint8>): int32
    requires |b| == 4
  {
    var b0: int, b1: int, b2: int, b3: int := b[0], b[1], b[2], b[3];
    var w := b0 + 0x100 * b1 + 0x1_0000 * b2 + 0x100_0000 * b3;
    if w < 0x8000_0000 then w else w - 0x1_0000_0000
  }

  lemma WordRoundTrip(i: int32)
    ensures FromWord(Word(i)) == i
  {
    WordIs(i);
  }

  function Image(h: Inode): (b: seq<uint8>)
    requires |h.data| == HEAD_SIZE - 8
    ensures |b| == HEAD_SIZE
  {
    Word(h.timestamp) + Word(h.dataLen) + h.data
  }

  function ParseInode(b: seq<uint8>): Inode
    requires |b| == HEAD_SIZE
  {
    Inode(FromWord(b[..4]), FromWord(b[4..8]), b[8..])
  }

  lemma InodeRoundTrip(h: Inode)
    requires |h.data| == HEAD_SIZE - 8
    ensures ParseInode(Image(h)) == h
  {
    WordRoundTrip(h.timestamp);
    WordRoundTrip(h.dataLen);
    assert Image(h)[..4] == Word(h.timestamp) && Image(h)[4..8] == Word(h.dataLen) && Image(h)[8..] == h.data;
  }

  /** The chip holds a file: the header names its length and the bytes follow. */
  ghost predicate Holds(mem: seq<uint8>, content: seq<uint8>) {
    && |mem| == EEPROM_SIZE && HEAD_SIZE + |content| <= EEPROM_SIZE
    && ParseInode(mem[..HEAD_SIZE]).dataLen == |content|
    && mem[HEAD_SIZE..HEAD_SIZE + |content|] == content
  }

  /**
   The tool and its chip.  `answer` gives what each transfer returns: negative when
   it failed and left the chip as it was, else what the driver says of a good one.
   */
  class Eepromer {
    const answer: nat -> int
    var transfers: nat
    var mem: seq<uint8>
    var ind: Inode
    ghost var writes: seq<(nat, nat)>  // address and length of every data block sent

    ghost predicate Valid()
      reads this
    {
      |mem| == EEPROM_SIZE && |ind.data| == HEAD_SIZE - 8
    }

    constructor (mem: seq<uint8>, answer: nat -> int)
      requires |mem| == EEPROM_SIZE
      ensures Valid() && this.mem == mem && this.answer == answer && transfers == 0 && writes == []
    {
      this.mem, this.answer, transfers, writes := mem, answer, 0, [];
      ind := Inode(0, 0, seq(HEAD_SIZE - 8, _ => 0));
    }

    /** The transfers from number `from` on, up to the latest one, all worked. */
    ghost predicate AllWorked(from: nat)
      reads this
    {
      forall k :: from <= k < transfers ==> answer(k) >= 0
    }

    method BlockWrite(addr: nat, buf: array<uint8>, length: nat) returns (err: int)
      requires Valid() && length <= buf.Length
      modifies this`mem, this`writes, this`transfers
      ensures Valid() && transfers == old(transfers) + 1 && writes == old(writes) + [(addr, length)]
      ensures err == if answer(old(transfers)) < 0 then 1 else 0
      ensures mem == if err == 0 then Programmed(old(mem), addr % EEPROM_SIZE, buf[..length]) else old(mem)
    {
      AddressOnChip(addr);
      var status := answer(transfers);
      transfers := transfers + 1;
      writes := writes + [(addr, length)];
      if status < 0 { return 1; }
      mem := Programmed(mem, DeviceAddress(MadeAddress(addr)), buf[..length]);
      err := 0;
    }

    method BlockRead(addr: nat, before: seq<uint8>) returns (ln: int, buf: seq<uint8>)
      requires Valid() && |before| == BLOCK
      modifies this`transfers
      ensures transfers == old(transfers) + 1 && ln == answer(old(transfers))
      ensures buf == if ln >= 0 then Fetched(mem, addr % EEPROM_SIZE, BLOCK) else before
    {
      AddressOnChip(addr);
      ln, buf := answer(transfers), before;
      transfers := transfers + 1;
      if ln >= 0 { buf := Fetched(mem, DeviceAddress(MadeAddress(addr)), BLOCK); }
    }

    method InodeWrite(now: int32, length: int32) returns (err: int)
      requires Valid()
      modifies this`mem, this`ind, this`transfers
      ensures Valid() && transfers == old(transfers) + 1 && ind == old(ind).(timestamp := now, dataLen := length)
      ensures err == if answer(old(transfers)) < 0 then 1 else 0
      ensures mem == if err == 0 then Splice(old(mem), 0, Image(ind)) else old(mem)
    {
      ind := ind.(timestamp := now, dataLen := length);
      var status := answer(transfers);
      transfers := transfers + 1;
      if status < 0 { return 1; }
      ProgrammedInPage(mem, 0, Image(ind));
      mem := Programmed(mem, DeviceAddress(MadeAddress(0)), Image(ind));
      err := 0;
    }

    /** A failed transfer leaves the header that was known before. */
    method InodeRead() returns (ln: int)
      requires Valid()
      modifies this`ind, this`transfers
      ensures Valid() && transfers == old(transfers) + 1 && ln == answer(old(transfers))
      ensures ind == if ln >= 0 then ParseInode(mem[..HEAD_SIZE]) else old(ind)
    {
      ln := answer(transfers);
      transfers := transfers + 1;
      if ln < 0 { return; }
      HeadFetched(mem);
      ind := ParseInode(Fetched(mem, DeviceAddress(MadeAddress(0)), HEAD_SIZE));
    }

    /** Copy standard input to the chip block by block, then write the header; stop at the first failure. */
    method ContentWrite(input: seq<uint8>, now: int32) returns (err: int)
      requires Valid() && |input| < 0x8000_0000
      modifies this
      ensures Valid() && transfers > old(transfers)
      ensures err == (if answer(transfers - 1) < 0 then 1 else 0) && (err == 0 ==> AllWorked(old(transfers)))
      ensures err == 0 && HEAD_SIZE + |input| <= EEPROM_SIZE ==> Holds(mem, input)
      // the chip starts with the time and the length
      ensures err == 0 ==> mem[..4] == Word(now) && mem[4..8] == Word(|input|)
      ensures |old(writes)| <= |writes|
      ensures forall k :: |old(writes)| <= k < |writes| ==> InPage(writes[k].0, writes[k].1)
    {
      var buf := new uint8[BLOCK](_ => 0);
      var addrCnt: nat, i: nat, pos: nat := HEAD_SIZE, 0, 0;
      ghost var log, first := |writes|, transfers;
      while true
        invariant Valid() && fresh(buf) && buf.Length == BLOCK && log == |old(writes)| <= |writes|
        invariant first == old(transfers) <= transfers && AllWorked(first)
        invariant forall k :: log <= k < |writes| ==> InPage(writes[k].0, writes[k].1)
        invariant addrCnt >= HEAD_SIZE && PageStart(addrCnt) && i < BLOCK
        invariant pos == addrCnt - HEAD_SIZE + i <= |input| && buf[..i] == input[pos - i..pos]
        invariant HEAD_SIZE + |input| <= EEPROM_SIZE ==> mem[HEAD_SIZE..addrCnt] == input[..addrCnt - HEAD_SIZE]
        decreases |input| - pos
      {
        if pos == |input| {
          err := FinishFile(input, now, buf, addrCnt, i);
          return;
        }
        OneMore(input, pos, i);
        buf[i] := input[pos];
        pos := pos + 1;
        assert buf[..i+1] == buf[..i] + [input[pos - 1]];
        if i == BLOCK - 1 {
          err := StoreBlock(input, buf, addrCnt, BLOCK);
          if err != 0 { return 1; }
          NextPage(addrCnt);
          addrCnt := addrCnt + BLOCK;
          i := 0;
        } else {
          i := i + 1;
        }
      }
    }

    /** Write `n` buffered bytes at their place in the file. */
    method StoreBlock(input: seq<uint8>, buf: array<uint8>, addrCnt: nat, n: nat) returns (err: int)
      requires Valid() && buf.Length == BLOCK && n <= BLOCK && addrCnt >= HEAD_SIZE && PageStart(addrCnt)
      requires addrCnt - HEAD_SIZE + n <= |input|
      requires buf[..n] == input[addrCnt - HEAD_SIZE..addrCnt - HEAD_SIZE + n]
      requires HEAD_SIZE + |input| <= EEPROM_SIZE ==> mem[HEAD_SIZE..addrCnt] == input[..addrCnt - HEAD_SIZE]
      modifies this`mem, this`writes, this`transfers
      ensures Valid() && InPage(addrCnt, n) && writes == old(writes) + [(addrCnt, n)]
      ensures transfers == old(transfers) + 1 && err == if answer(old(transfers)) < 0 then 1 else 0
      ensures err == 0 && HEAD_SIZE + |input| <= EEPROM_SIZE ==>
        mem[HEAD_SIZE..addrCnt + n] == input[..addrCnt + n - HEAD_SIZE]
    {
      BlockAppended(mem, input, addrCnt, buf[..n]);
      err := BlockWrite(addrCnt, buf, n);
    }

    /** End of input: store whatever is buffered, possibly nothing, and then the header. */
    method FinishFile(input: seq<uint8>, now: int32, buf: array<uint8>, addrCnt: nat, i: nat) returns (err: int)
      requires Valid() && buf.Length == BLOCK && i < BLOCK && addrCnt >= HEAD_SIZE && PageStart(addrCnt)
      requires addrCnt - HEAD_SIZE + i == |input| < 0x8000_0000
      requires buf[..i] == input[addrCnt - HEAD_SIZE..]
      requires HEAD_SIZE + |input| <= EEPROM_SIZE ==> mem[HEAD_SIZE..addrCnt] == input[..addrCnt - HEAD_SIZE]
      modifies this
      ensures Valid() && InPage(addrCnt, i) && writes == old(writes) + [(addrCnt, i)]
      ensures transfers > old(transfers)
      ensures err == (if answer(transfers - 1) < 0 then 1 else 0) && (err == 0 ==> AllWorked(old(transfers)))
      ensures err == 0 && HEAD_SIZE + |input| <= EEPROM_SIZE ==> Holds(mem, input)
      // the chip starts with the time and the length
      ensures err == 0 ==> mem[..4] == Word(now) && mem[4..8] == Word(|input|)
    {
      err := StoreBlock(input, buf, addrCnt, i);
      if err != 0 { return 1; }
      HeaderWritten(mem, input, ind.(timestamp := now, dataLen := addrCnt + i - HEAD_SIZE));
      err := InodeWrite(now, addrCnt + i - HEAD_SIZE);
    }

    /**
     Copy as many bytes as the header says to standard output.  Whether the header
     could be read is not looked at; a block read is taken for failed unless it answers 0.
     */
    method ContentRead() returns (out: seq<uint8>, err: int)
      requires Valid()
      modifies this`ind, this`transfers
      ensures Valid() && transfers > old(transfers)
      ensures ind == if answer(old(transfers)) >= 0 then ParseInode(mem[..HEAD_SIZE]) else old(ind)
      ensures ind.dataLen < 0 ==> err == 0 && out == []
      ensures ind.dataLen >= 0 && answer(old(transfers) + 1) != 0 ==> err == 1 && out == []
      ensures err == 0 ==> forall k :: old(transfers) < k < transfers ==> answer(k) == 0
      ensures err != 0 ==> err == 1 && answer(transfers - 1) != 0
      // what comes out is the stored file, cut short only by a failure
      ensures answer(old(transfers)) >= 0 ==>
        forall content :: Holds(mem, content) ==> out <= content && (err == 0 ==> out == content)
    {
      var _ := InodeRead();
      out := [];
      ghost var first := transfers;
      var buf: seq<uint8> := seq(BLOCK, _ => 0);
      var ln: int;
      var len := ind.dataLen;
      var i: nat := HEAD_SIZE;
      ghost var end, head := HEAD_SIZE + len, ind;
      while i <= HEAD_SIZE + len
        invariant Valid() && i >= HEAD_SIZE && ind == head && |buf| == BLOCK && first <= transfers
        invariant forall k :: first <= k < transfers ==> answer(k) == 0
        invariant transfers == first <==> i == HEAD_SIZE
        invariant (len < 0 ==> i == HEAD_SIZE) && (i == HEAD_SIZE ==> out == [])
        invariant 0 <= len && end <= EEPROM_SIZE ==> out == mem[HEAD_SIZE..if i <= end then i else end]
        decreases HEAD_SIZE + len - i
      {
        ln, buf := BlockRead(i, buf);
        if ln != 0 {
          CutShort(mem, out, i, end);
          return out, 1;
        }
        var k: nat := if HEAD_SIZE + len - i < BLOCK then HEAD_SIZE + len - i else BLOCK;
        if end <= EEPROM_SIZE { FetchedIsStored(mem, i, k); }
        out := out + buf[..k];
        i := i + BLOCK;
      }
      err := 0;
    }
  }

  lemma HeadFetched(mem: seq<uint8>)
    requires |mem| == EEPROM_SIZE
    ensures Fetched(mem, DeviceAddress(MadeAddress(0)), HEAD_SIZE) == mem[..HEAD_SIZE]
  {
    assert MadeAddress(0) == (0, 0);
  }

  /** What was read before a failure is the beginning of the file. */
  lemma CutShort(mem: seq<uint8>, out: seq<uint8>, i: nat, end: int)
    requires |mem| == EEPROM_SIZE && HEAD_SIZE <= i <= end
    requires end <= EEPROM_SIZE ==> out == mem[HEAD_SIZE..i]
    ensures end <= EEPROM_SIZE ==> out <= mem[HEAD_SIZE..end]
  {
  }

  lemma OneMore(input: seq<uint8>, pos: nat, i: nat)
    requires i <= pos < |input|
    ensures input[pos - i..pos + 1] == input[pos - i..pos] + [input[pos]]
  {
  }

  /** What a block read returns of the file, and how it continues what was read before. */
  lemma FetchedIsStored(mem: seq<uint8>, i: nat, k: nat)
    requires |mem| == EEPROM_SIZE && HEAD_SIZE <= i && i + k <= EEPROM_SIZE && k <= BLOCK
    ensures mem[HEAD_SIZE..i] + Fetched(mem, i % EEPROM_SIZE, BLOCK)[..k] == mem[HEAD_SIZE..i + k]
  {
    assert k > 0 ==> Fetched(mem, i % EEPROM_SIZE, BLOCK)[..k] == mem[i..i + k];
  }

  /** One more block extends the stored prefix of the input. */
  lemma BlockAppended(mem: seq<uint8>, input: seq<uint8>, addr: nat, data: seq<uint8>)
    requires |mem| == EEPROM_SIZE && addr >= HEAD_SIZE && PageStart(addr) && |data| <= BLOCK
    requires addr - HEAD_SIZE + |data| <= |input| && data == input[addr - HEAD_SIZE..addr - HEAD_SIZE + |data|]
    requires HEAD_SIZE + |input| <= EEPROM_SIZE ==> mem[HEAD_SIZE..addr] == input[..addr - HEAD_SIZE]
    ensures InPage(addr, |data|)
    ensures HEAD_SIZE + |input| <= EEPROM_SIZE ==>
      Programmed(mem, addr % EEPROM_SIZE, data)[HEAD_SIZE..addr + |data|] == input[..addr + |data| - HEAD_SIZE]
  {
    if HEAD_SIZE + |input| <= EEPROM_SIZE && |data| > 0 {
      OnChip(addr);
      ProgrammedInPage(mem, addr, data);
      SplicedFile(mem, addr, data);
      assert input[..addr + |data| - HEAD_SIZE] == input[..addr - HEAD_SIZE] + data;
    }
  }

  lemma OnChip(addr: nat)
    requires addr < EEPROM_SIZE
    ensures addr % EEPROM_SIZE == addr
  {
  }

  lemma SplicedFile(mem: seq<uint8>, addr: nat, data: seq<uint8>)
    requires HEAD_SIZE <= addr && addr + |data| <= |mem|
    ensures Splice(mem, addr, data)[HEAD_SIZE..addr + |data|] == mem[HEAD_SIZE..addr] + data
  {
  }

  /** The header completes the file. */
  lemma HeaderWritten(mem: seq<uint8>, content: seq<uint8>, h: Inode)
    requires |mem| == EEPROM_SIZE && |h.data| == HEAD_SIZE - 8 && h.dataLen == |content|
    ensures HEAD_SIZE + |content| <= EEPROM_SIZE && mem[HEAD_SIZE..HEAD_SIZE + |content|] == content ==>
      Holds(Splice(mem, 0, Image(h)), content)
    ensures Splice(mem, 0, Image(h))[..4] == Word(h.timestamp) && Splice(mem, 0, Image(h))[4..8] == Word(h.dataLen)
  {
    var r := Splice(mem, 0, Image(h));
    InodeRoundTrip(h);
    assert r[..HEAD_SIZE] == Image(h);
    assert Image(h)[..4] == Word(h.timestamp) && Image(h)[4..8] == Word(h.dataLen);
    assert r[..4] == Image(h)[..4] && r[4..8] == Image(h)[4..8];
    if HEAD_SIZE + |content| <= EEPROM_SIZE {
      assert r[HEAD_SIZE..HEAD_SIZE + |content|] == mem[HEAD_SIZE..HEAD_SIZE + |content|];
    }
  }
}
