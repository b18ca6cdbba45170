/** CDMA short messages: what `responseCdmaSms` writes, `dispatchCdmaSms` reads. */
module CdmaSms {
  import opened Words
  import opened Parcels

  /** The array lengths of the message structure. */
  datatype Limits = Limits(address: nat, subAddress: nat, bearer: nat)

  datatype Message = Message(
    teleservice: int32, servicePresent: uint8, serviceCategory: int32,
    digitMode: int32, numberMode: int32, numberType: int32, numberPlan: int32,
    addressCount: uint8, address: seq<uint8>,
    subType: int32, odd: uint8, subCount: uint8, subAddress: seq<uint8>,
    bearerLen: int32, bearer: seq<uint8>)

  predicate Fits(m: Message, l: Limits) {
    |m.address| == l.address && |m.subAddress| == l.subAddress && |m.bearer| == l.bearer
  }

  /** How many array entries travel: the stated count, cut at the array length, and none if negative. */
  function Sent(count: int, limit: nat): nat {
    if count < 0 then 0 else if count < limit then count else limit
  }

  function Zeros(n: nat): (z: seq<uint8>)
    ensures |z| == n && forall k :: 0 <= k < n ==> z[k] == 0
  {
    seq(n, _ => 0)
  }

  /** An array whose first entries were received and whose rest was cleared beforehand. */
  function Padded(got: seq<uint8>, limit: nat): seq<uint8>
    requires |got| <= limit
  {
    got + Zeros(limit - |got|)
  }

  // ----- writing

  function EncodeHead(m: Message): seq<Item> {
    [I32(m.teleservice), U8(m.servicePresent), I32(m.serviceCategory), I32(m.digitMode),
     I32(m.numberMode), I32(m.numberType), I32(m.numberPlan), U8(m.addressCount)]
  }

  function EncodeSub(m: Message): seq<Item> {
    [I32(m.subType), U8(m.odd), U8(m.subCount)]
  }

  function Encode(m: Message, l: Limits): seq<Item>
    requires Fits(m, l)
  {
    EncodeHead(m) + Bytes(m.address[..Sent(m.addressCount, l.address)])
    + EncodeSub(m) + Bytes(m.subAddress[..Sent(m.subCount, l.subAddress)])
    + [I32(m.bearerLen)] + Bytes(m.bearer[..Sent(m.bearerLen, l.bearer)])
  }

  method WriteBytes(p: Parcel, bs: seq<uint8>, n: nat)
    requires p.Valid() && n <= |bs|
    modifies p
    ensures p.Valid() && p.pos == old(p.pos) && p.items == old(p.items) + Bytes(bs[..n])
  {
    var digitCount := 0;
    while digitCount < n
      invariant digitCount <= n && p.Valid() && p.pos == old(p.pos)
      invariant p.items == old(p.items) + Bytes(bs[..digitCount])
    {
      p.Write(bs[digitCount]);
      assert Bytes(bs[..digitCount + 1]) == Bytes(bs[..digitCount]) + [U8(bs[digitCount])];
      digitCount := digitCount + 1;
    }
  }

  method WriteHead(p: Parcel, m: Message)
    requires p.Valid()
    modifies p
    ensures p.Valid() && p.pos == old(p.pos) && p.items == old(p.items) + EncodeHead(m)
  {
    p.WriteInt32(m.teleservice);
    p.Write(m.servicePresent);
    p.WriteInt32(m.serviceCategory);
    p.WriteInt32(m.digitMode);
    p.WriteInt32(m.numberMode);
    p.WriteInt32(m.numberType);
    p.WriteInt32(m.numberPlan);
    p.Write(m.addressCount);
  }

  /** What the caller passes as the response. */
  datatype Response = Null | Pointer(m: Message)

  const INVALID_RESPONSE := -1

  /** `responseLen` is the length the caller claims, `messageLen` the size of the message structure. */
  method ResponseCdmaSms(p: Parcel, response: Response, responseLen: nat, messageLen: nat, l: Limits)
      returns (status: int)
    requires p.Valid() && messageLen > 0 && (response.Pointer? ==> Fits(response.m, l))
    modifies p
    ensures p.Valid() && p.pos == old(p.pos)
    ensures response.Pointer? && responseLen == messageLen ==>
      status == 0 && p.items == old(p.items) + Encode(response.m, l)
    ensures response.Null? || responseLen != messageLen ==> status == INVALID_RESPONSE && p.items == old(p.items)
  {
    if response.Null? && responseLen != 0 { return INVALID_RESPONSE; }
    if responseLen != messageLen { return INVALID_RESPONSE; }
    WriteMessage(p, response.m, l);
    status := 0;
  }

  method WriteMessage(p: Parcel, m: Message, l: Limits)
    requires p.Valid() && Fits(m, l)
    modifies p
    ensures p.Valid() && p.pos == old(p.pos) && p.items == old(p.items) + Encode(m, l)
  {
    WriteHead(p, m);
    WriteBytes(p, m.address, Sent(m.addressCount, l.address));
    ghost var mid := p.items;
    p.WriteInt32(m.subType);
    p.Write(m.odd);
    p.Write(m.subCount);
    assert p.items == mid + EncodeSub(m);
    WriteBytes(p, m.subAddress, Sent(m.subCount, l.subAddress));
    p.WriteInt32(m.bearerLen);
    WriteBytes(p, m.bearer, Sent(m.bearerLen, l.bearer));
  }

  // ----- reading

  datatype Head = Head(
    teleservice: int32, servicePresent: uint8, serviceCategory: int32,
    digitMode: int32, numberMode: int32, numberType: int32, numberPlan: int32, addressCount: uint8)

  function DecodeHead(r: Reader): (Reader, Head) {
    var r1 := ReadInt(r);
    var r2 := ReadByte(r1);
    var r3 := ReadInt(r2);
    var r4 := ReadInt(r3);
    var r5 := ReadInt(r4);
    var r6 := ReadInt(r5);
    var r7 := ReadInt(r6);
    var r8 := ReadByte(r7);
    (r8, Head(r1.t, r2.ut, r3.t, r4.t, r5.t, r6.t, r7.t, r8.ut))
  }

  /** The whole message and the status of the last read. */
  function Decode(r: Reader, l: Limits): (Reader, Message) {
    var (r1, h) := DecodeHead(r);
    var (r2, address) := ReadBytes(r1, Sent(h.addressCount, l.address));
    var r3 := ReadInt(r2);
    var r4 := ReadByte(r3);
    var r5 := ReadByte(r4);
    var (r6, subAddress) := ReadBytes(r5, Sent(r5.ut, l.subAddress));
    var r7 := ReadInt(r6);
    var (r8, bearer) := ReadBytes(r7, Sent(r7.t, l.bearer));
    (r8, Message(h.teleservice, h.servicePresent, h.serviceCategory, h.digitMode, h.numberMode, h.numberType,
                 h.numberPlan, h.addressCount, Padded(address, l.address), r3.t, r4.ut, r5.ut,
                 Padded(subAddress, l.subAddress), r7.t, Padded(bearer, l.bearer)))
  }

  /** Fill the first `n` entries of a cleared array of length `limit`. */
  method ReadDigits(p: Parcel, n: nat, limit: nat, ut0: uint8, ok0: bool, ghost r: Reader)
      returns (digits: array<uint8>, ut: uint8, ok: bool)
    requires p.Valid() && n <= limit && r == p.At(r.t, ut0, ok0)
    modifies p`pos
    ensures p.Valid() && fresh(digits)
    ensures var (r', got) := ReadBytes(r, n); p.At(r.t, ut, ok) == r' && digits[..] == Padded(got, limit)
  {
    digits := new uint8[limit](_ => 0);
    ut, ok := ut0, ok0;
    var digitCount := 0;
    assert digits[..] == Padded([], limit);
    while digitCount < n
      invariant digitCount <= n && p.Valid() && fresh(digits) && digits.Length == limit
      invariant p.At(r.t, ut, ok) == ReadBytes(r, digitCount).0
      invariant digits[..] == Padded(ReadBytes(r, digitCount).1, limit)
    {
      ghost var got := ReadBytes(r, digitCount).1;
      ok, ut := p.Read(ut, ReadBytes(r, digitCount).0);
      digits[digitCount] := ut;
      assert ReadBytes(r, digitCount + 1).1 == got + [ut];
      assert digits[..] == Padded(got + [ut], limit);
      digitCount := digitCount + 1;
    }
  }

  method DispatchCdmaSms(p: Parcel, l: Limits, t0: int32, ut0: uint8) returns (ok: bool, m: Message)
    requires p.Valid()
    modifies p`pos
    ensures p.Valid()
    ensures var (r, got) := Decode(Reader(old(p.items[p.pos..]), t0, ut0, false), l);
      ok == r.ok && m == got && p.items[p.pos..] == r.rest
  {
    ghost var start := Reader(p.items[p.pos..], t0, ut0, false);
    var t, ut, r := t0, ut0, start;
    ok, t := p.ReadInt32(t, r);   var teleservice := t;      r := ReadInt(r);
    ok, ut := p.Read(ut, r);      var servicePresent := ut;  r := ReadByte(r);
    ok, t := p.ReadInt32(t, r);   var serviceCategory := t;  r := ReadInt(r);
    ok, t := p.ReadInt32(t, r);   var digitMode := t;        r := ReadInt(r);
    ok, t := p.ReadInt32(t, r);   var numberMode := t;       r := ReadInt(r);
    ok, t := p.ReadInt32(t, r);   var numberType := t;       r := ReadInt(r);
    ok, t := p.ReadInt32(t, r);   var numberPlan := t;       r := ReadInt(r);
    ok, ut := p.Read(ut, r);      var addressCount := ut;    r := ReadByte(r);
    var address, subAddress, bearer;
    address, ut, ok := ReadDigits(p, Sent(addressCount, l.address), l.address, ut, ok, r);
    r := ReadBytes(r, Sent(addressCount, l.address)).0;
    ok, t := p.ReadInt32(t, r);   var subType := t;          r := ReadInt(r);
    ok, ut := p.Read(ut, r);      var odd := ut;             r := ReadByte(r);
    ok, ut := p.Read(ut, r);      var subCount := ut;        r := ReadByte(r);
    subAddress, ut, ok := ReadDigits(p, Sent(subCount, l.subAddress), l.subAddress, ut, ok, r);
    r := ReadBytes(r, Sent(subCount, l.subAddress)).0;
    ok, t := p.ReadInt32(t, r);   var bearerLen := t;        r := ReadInt(r);
    bearer, ut, ok := ReadDigits(p, Sent(bearerLen, l.bearer), l.bearer, ut, ok, r);
    m := Message(teleservice, servicePresent, serviceCategory, digitMode, numberMode, numberType, numberPlan,
                 addressCount, address[..], subType, odd, subCount, subAddress[..], bearerLen, bearer[..]);
  }

  // ----- round trip

  /** The message with every array entry past its stated or maximal count cleared. */
  function Cleared(m: Message, l: Limits): Message
    requires Fits(m, l)
  {
    m.(address := Padded(m.address[..Sent(m.addressCount, l.address)], l.address),
       subAddress := Padded(m.subAddress[..Sent(m.subCount, l.subAddress)], l.subAddress),
       bearer := Padded(m.bearer[..Sent(m.bearerLen, l.bearer)], l.bearer))
  }

  lemma HeadBack(r: Reader, m: Message, tail: seq<Item>)
    requires r.rest == EncodeHead(m) + tail
    ensures var (r', h) := DecodeHead(r);
      && r'.rest == tail && r'.ok
      && h == Head(m.teleservice, m.servicePresent, m.serviceCategory, m.digitMode, m.numberMode, m.numberType,
                   m.numberPlan, m.addressCount)
  {
    var e := EncodeHead(m);
    var r1 := ReadInt(r);
    assert r1.rest == e[1..] + tail;
    var r2 := ReadByte(r1);
    assert r2.rest == e[2..] + tail;
    var r3 := ReadInt(r2);
    assert r3.rest == e[3..] + tail;
    var r4 := ReadInt(r3);
    assert r4.rest == e[4..] + tail;
    var r5 := ReadInt(r4);
    assert r5.rest == e[5..] + tail;
    var r6 := ReadInt(r5);
    assert r6.rest == e[6..] + tail;
    var r7 := ReadInt(r6);
    assert r7.rest == e[7..] + tail;
    assert ReadByte(r7).rest == tail;
  }

  lemma DecodesCleared(m: Message, l: Limits, r: Reader, tail: seq<Item>)
    requires Fits(m, l) && r.rest == Encode(m, l) + tail
    ensures var (r', got) := Decode(r, l); r'.ok && got == Cleared(m, l) && r'.rest == tail
  {
    var address := m.address[..Sent(m.addressCount, l.address)];
    var subAddress := m.subAddress[..Sent(m.subCount, l.subAddress)];
    var bearer := m.bearer[..Sent(m.bearerLen, l.bearer)];
    var tail3 := Bytes(bearer) + tail;
    var tail2 := [I32(m.bearerLen)] + tail3;
    var tail1 := [I32(m.subType)] + ([U8(m.odd)] + ([U8(m.subCount)] + (Bytes(subAddress) + tail2)));
    assert r.rest == EncodeHead(m) + (Bytes(address) + tail1);
    HeadBack(r, m, Bytes(address) + tail1);
    var r1 := DecodeHead(r).0;
    ReadBytesBack(r1, address, tail1);
    var r2 := ReadBytes(r1, |address|).0;
    ReadIntBack(r2, m.subType, [U8(m.odd)] + ([U8(m.subCount)] + (Bytes(subAddress) + tail2)));
    ReadByteBack(ReadInt(r2), m.odd, [U8(m.subCount)] + (Bytes(subAddress) + tail2));
    var r5 := ReadByte(ReadByte(ReadInt(r2)));
    ReadByteBack(ReadByte(ReadInt(r2)), m.subCount, Bytes(subAddress) + tail2);
    ReadBytesBack(r5, subAddress, tail2);
    var r6 := ReadBytes(r5, |subAddress|).0;
    ReadIntBack(r6, m.bearerLen, tail3);
    ReadBytesBack(ReadInt(r6), bearer, tail);
  }

  /** Only array entries past the stated count are cleared. */
  lemma ClearedIs(m: Message, l: Limits)
    requires Fits(m, l)
    ensures var got := Cleared(m, l);
      && Fits(got, l) && got.(address := m.address, subAddress := m.subAddress, bearer := m.bearer) == m
      && (forall k :: 0 <= k < l.address ==> got.address[k] == if k < m.addressCount then m.address[k] else 0)
      && (forall k :: 0 <= k < l.subAddress ==> got.subAddress[k] == if k < m.subCount then m.subAddress[k] else 0)
      && (forall k :: 0 <= k < l.bearer ==> got.bearer[k] == if k < m.bearerLen then m.bearer[k] else 0)
  {
  }

  /**
   Reading undoes writing, for every message and also when the stated counts
   exceed the array lengths; only array entries that are not sent come back cleared.
   */
  lemma RoundTrip(m: Message, l: Limits, r: Reader, tail: seq<Item>)
    requires Fits(m, l) && r.rest == Encode(m, l) + tail
    ensures var (r', got) := Decode(r, l);
      && r'.ok && r'.rest == tail && Fits(got, l)
      && got.(address := m.address, subAddress := m.subAddress, bearer := m.bearer) == m
      && (forall k :: 0 <= k < l.address ==> got.address[k] == if k < m.addressCount then m.address[k] else 0)
      && (forall k :: 0 <= k < l.subAddress ==> got.subAddress[k] == if k < m.subCount then m.subAddress[k] else 0)
      && (forall k :: 0 <= k < l.bearer ==> got.bearer[k] == if k < m.bearerLen then m.bearer[k] else 0)
  {
    DecodesCleared(m, l, r, tail);
    ClearedIs(m, l);
  }

  // ----- truncated messages

  /** Reading the same message with its last `d` items missing. */
  predicate Short(q: Reader, r: Reader, d: nat) {
    0 < d <= |r.rest| && q == r.(rest := r.rest[..|r.rest| - d])
  }

  /** Nothing is left and the latest read failed. */
  predicate Dead(q: Reader) {
    q.rest == [] && !q.ok
  }

  /** The truncated reader keeps up with the full one until its items run out. */
  predicate Trails(q: Reader, r: Reader, d: nat) {
    Dead(q) || Short(q, r, d)
  }

  lemma IntTrails(q: Reader, r: Reader, i: int32, tail: seq<Item>, d: nat)
    requires Trails(q, r, d) && r.rest == [I32(i)] + tail
    ensures Trails(ReadInt(q), ReadInt(r), d) && ReadInt(r).rest == tail
  {
  }

  lemma ByteTrails(q: Reader, r: Reader, b: uint8, tail: seq<Item>, d: nat)
    requires Trails(q, r, d) && r.rest == [U8(b)] + tail
    ensures Trails(ReadByte(q), ReadByte(r), d) && ReadByte(r).rest == tail && ReadByte(r).ut == b
  {
  }

  lemma {:induction false} BytesTrail(q: Reader, n: nat, r: Reader, bs: seq<uint8>, tail: seq<Item>, d: nat)
    requires Dead(q) || (Short(q, r, d) && n == |bs|)
    requires r.rest == Bytes(bs) + tail
    ensures Trails(ReadBytes(q, n).0, ReadBytes(r, |bs|).0, d)
    decreases n
  {
    if Dead(q) {
      BytesDead(q, n);
    } else if n > 0 {
      var tail' := [U8(bs[n-1])] + tail;
      assert r.rest == Bytes(bs[..n-1]) + tail';
      BytesTrail(q, n - 1, r, bs[..n-1], tail', d);
      ReadBytesBack(r, bs[..n-1], tail');
      ByteTrails(ReadBytes(q, n - 1).0, ReadBytes(r, n - 1).0, bs[n-1], tail, d);
    }
  }

  lemma {:induction false} BytesDead(q: Reader, n: nat)
    requires Dead(q)
    ensures Dead(ReadBytes(q, n).0)
  {
    if n > 0 { BytesDead(q, n - 1); }
  }

  lemma HeadTrails(q: Reader, r: Reader, m: Message, tail: seq<Item>, d: nat)
    requires Trails(q, r, d) && r.rest == EncodeHead(m) + tail
    ensures Trails(DecodeHead(q).0, DecodeHead(r).0, d)
  {
    var tail7 := [U8(m.addressCount)] + tail;
    var tail6 := [I32(m.numberPlan)] + tail7;
    var tail5 := [I32(m.numberType)] + tail6;
    var tail4 := [I32(m.numberMode)] + tail5;
    var tail3 := [I32(m.digitMode)] + tail4;
    var tail2 := [I32(m.serviceCategory)] + tail3;
    var tail1 := [U8(m.servicePresent)] + tail2;
    assert r.rest == [I32(m.teleservice)] + tail1;
    IntTrails(q, r, m.teleservice, tail1, d);
    var q1, r1 := ReadInt(q), ReadInt(r);
    ByteTrails(q1, r1, m.servicePresent, tail2, d);
    var q2, r2 := ReadByte(q1), ReadByte(r1);
    IntTrails(q2, r2, m.serviceCategory, tail3, d);
    var q3, r3 := ReadInt(q2), ReadInt(r2);
    IntTrails(q3, r3, m.digitMode, tail4, d);
    var q4, r4 := ReadInt(q3), ReadInt(r3);
    IntTrails(q4, r4, m.numberMode, tail5, d);
    var q5, r5 := ReadInt(q4), ReadInt(r4);
    IntTrails(q5, r5, m.numberType, tail6, d);
    var q6, r6 := ReadInt(q5), ReadInt(r5);
    IntTrails(q6, r6, m.numberPlan, tail7, d);
    ByteTrails(ReadInt(q6), ReadInt(r6), m.addressCount, tail, d);
  }

  lemma SubTrails(q: Reader, r: Reader, m: Message, tail: seq<Item>, d: nat)
    requires Trails(q, r, d) && r.rest == EncodeSub(m) + tail
    ensures Trails(ReadByte(ReadByte(ReadInt(q))), ReadByte(ReadByte(ReadInt(r))), d)
    ensures ReadByte(ReadByte(ReadInt(r))).rest == tail && ReadByte(ReadByte(ReadInt(r))).ut == m.subCount
  {
    var tail2 := [U8(m.subCount)] + tail;
    var tail1 := [U8(m.odd)] + tail2;
    assert r.rest == [I32(m.subType)] + tail1;
    IntTrails(q, r, m.subType, tail1, d);
    ByteTrails(ReadInt(q), ReadInt(r), m.odd, tail2, d);
    ByteTrails(ReadByte(ReadInt(q)), ReadByte(ReadInt(r)), m.subCount, tail, d);
  }

  lemma RestTrails(q: Reader, r: Reader, m: Message, l: Limits, subAddress: seq<uint8>, bearer: seq<uint8>, d: nat)
    requires Fits(m, l) && subAddress == m.subAddress[..Sent(m.subCount, l.subAddress)]
    requires bearer == m.bearer[..Sent(m.bearerLen, l.bearer)]
    requires Trails(q, r, d) && r.rest == EncodeSub(m) + (Bytes(subAddress) + ([I32(m.bearerLen)] + Bytes(bearer)))
    ensures var q5 := ReadByte(ReadByte(ReadInt(q)));
      var q7 := ReadInt(ReadBytes(q5, Sent(q5.ut, l.subAddress)).0);
      Dead(ReadBytes(q7, Sent(q7.t, l.bearer)).0)
  {
    var tail := [I32(m.bearerLen)] + Bytes(bearer);
    SubTrails(q, r, m, Bytes(subAddress) + tail, d);
    var q5, r5 := ReadByte(ReadByte(ReadInt(q))), ReadByte(ReadByte(ReadInt(r)));
    BytesTrail(q5, Sent(q5.ut, l.subAddress), r5, subAddress, tail, d);
    ReadBytesBack(r5, subAddress, tail);
    var q6, r6 := ReadBytes(q5, Sent(q5.ut, l.subAddress)).0, ReadBytes(r5, |subAddress|).0;
    IntTrails(q6, r6, m.bearerLen, Bytes(bearer), d);
    BearerDies(ReadInt(q6), ReadInt(r6), m.bearerLen, l, bearer, d);
  }

  lemma BearerDies(q: Reader, r: Reader, len: int32, l: Limits, bearer: seq<uint8>, d: nat)
    requires Trails(q, r, d) && r.rest == Bytes(bearer) && r.t == len && |bearer| == Sent(len, l.bearer)
    ensures Dead(ReadBytes(q, Sent(q.t, l.bearer)).0)
  {
    assert Bytes(bearer) + [] == Bytes(bearer);
    BytesTrail(q, Sent(q.t, l.bearer), r, bearer, [], d);
    ReadBytesBack(r, bearer, []);
  }

  /** A message that lost any number of items at its end is never accepted, although only the last read is checked. */
  lemma TruncatedRejected(m: Message, l: Limits, q: Reader, n: nat)
    requires Fits(m, l) && n < |Encode(m, l)| && q.rest == Encode(m, l)[..n]
    ensures !Decode(q, l).0.ok
  {
    var address := m.address[..Sent(m.addressCount, l.address)];
    var subAddress := m.subAddress[..Sent(m.subCount, l.subAddress)];
    var bearer := m.bearer[..Sent(m.bearerLen, l.bearer)];
    var tail := EncodeSub(m) + (Bytes(subAddress) + ([I32(m.bearerLen)] + Bytes(bearer)));
    var r, d := q.(rest := Encode(m, l)), |Encode(m, l)| - n;
    assert r.rest == EncodeHead(m) + (Bytes(address) + tail);
    HeadTrails(q, r, m, Bytes(address) + tail, d);
    HeadBack(r, m, Bytes(address) + tail);
    var (q1, h) := DecodeHead(q);
    var r1 := DecodeHead(r).0;
    BytesTrail(q1, Sent(h.addressCount, l.address), r1, address, tail, d);
    ReadBytesBack(r1, address, tail);
    RestTrails(ReadBytes(q1, Sent(h.addressCount, l.address)).0, ReadBytes(r1, |address|).0, m, l,
               subAddress, bearer, d);
  }
}
