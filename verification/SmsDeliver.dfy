/**
  Building SMS-DELIVER PDUs (huawei-generic/sms_gsm.c, section 9.2.2.1 of 3GPP TS 23.040): the same
  routine first measures on a rope without data and then writes into exactly that many bytes.
 */
module SmsDeliver {
  import opened Bits
  import opened Options
  import opened Bytes
  import opened Septets
  import opened GsmText
  import opened Ropes
  import opened SmsAddresses

  /** What a PDU is made of besides its text. */
  datatype Envelope = Envelope(sender: Address, timestamp: seq<byte>, ref: nat, count: nat, index: nat) {
    predicate Valid() {
      |sender.data| == MAX_SIZE && sender.len <= 2 * MAX_SIZE && |timestamp| == 7
    }
  }

  // ---------------------------------------------------------------- the bytes of a PDU

  /** Concatenated short messages, 8-bit reference number (section 9.2.3.24.1). */
  function UserHeader(e: Envelope): seq<byte> {
    [5, 0, 3, e.ref % 256, e.count % 256, (e.index % 256 + 1) % 256]
  }

  function Ucs2(text: seq<byte>): (r: seq<byte>)
    ensures |r| == 2 * |text|
  {
    if |text| == 0 then [] else Ucs2(text[..|text| - 1]) + [0, text[|text| - 1]]
  }

  function LengthBytes(length: byte, e: Envelope): (r: seq<byte>)
    ensures |r| == if e.count > 1 then 7 else 1
  {
    [length] + if e.count > 1 then UserHeader(e) else []
  }

  /** Length, user data header if the message has several parts, and the text.  In UCS2 the length
      byte is written twice. */
  function UserData(text: seq<byte>, gsm7: bool, e: Envelope): seq<byte> {
    var several := e.count > 1;
    if gsm7 then
      var vs := TextSeptets(text);
      LengthBytes((|vs| + if several then 7 else 0) % 256, e) + Pack(0, if several then 1 else 0, vs)
    else
      LengthBytes((2 * |text| + if several then 6 else 0) % 256, e) + [2 * |text| % 256] + Ucs2(text)
  }

  function Prefix(gsm7: bool, e: Envelope): seq<byte>
    requires e.Valid()
  {
    [0, if e.count > 1 then 0x60 else 0x20] + AddressField(e.sender) +
    ([0, if gsm7 then 0x00 else 0x09] + e.timestamp)
  }

  function DeliverBytes(text: seq<byte>, gsm7: bool, e: Envelope): seq<byte>
    requires e.Valid()
  {
    Prefix(gsm7, e) + UserData(text, gsm7, e)
  }

  // ---------------------------------------------------------------- appending to a rope

  /** utf8_to_ucs2 on ASCII text. */
  method Utf8ToUcs2(utf8: seq<byte>, dst: array<byte>, base: nat)
    requires Ascii(utf8) && base + 2 * |utf8| <= dst.Length
    modifies dst
    ensures dst[..] == Splice(old(dst[..]), base, Ucs2(utf8))
  {
    hide Splice;
    ghost var was := dst[..];
    SpliceNothing(was, base);
    var p := 0;
    while p < |utf8|
      invariant 0 <= p <= |utf8| && dst[..] == Splice(was, base, Ucs2(utf8[..p]))
    {
      assert utf8[..p + 1][..p] == utf8[..p];
      SpliceTwice(was, base, Ucs2(utf8[..p]), [0, utf8[p]]);
      Store(dst, base + 2 * p, [0, utf8[p]]);
      p := p + 1;
    }
    assert utf8[..|utf8|] == utf8;
  }

  /** Two additions in a row. */
  lemma Chain(was: seq<byte>, at: nat, a: seq<byte>, b: seq<byte>, whole: seq<byte>)
    requires whole == a + b && at + |whole| <= |was|
    ensures Splice(Splice(was, at, a), at + |a|, b) == Splice(was, at, whole)
  {
    SpliceTwice(was, at, a, b);
  }

  /** Three single bytes in a row. */
  method AddThree(rope: Rope, a: byte, b: byte, c: byte)
    requires rope.Valid()
    modifies rope, rope.data
    ensures rope.Appends([a, b, c])
  {
    hide Splice;
    if rope.HasRoom(3) {
      Chain(rope.data[..], rope.pos, [a], [b], [a, b]);
      Chain(rope.data[..], rope.pos, [a, b], [c], [a, b, c]);
    }
    rope.AddC(a);
    rope.AddC(b);
    rope.AddC(c);
  }

  method AddUserHeader(rope: Rope, e: Envelope)
    requires rope.Valid()
    modifies rope, rope.data
    ensures rope.Appends(UserHeader(e))
  {
    hide Splice;
    var last := [e.ref % 256, e.count % 256, (e.index % 256 + 1) % 256];
    if rope.HasRoom(6) {
      Chain(rope.data[..], rope.pos, [5, 0, 3], last, UserHeader(e));
    }
    AddThree(rope, 5, 0, 3);
    AddThree(rope, last[0], last[1], last[2]);
  }

  lemma SpliceIs(s: seq<byte>, t: seq<byte>, at: nat, bytes: seq<byte>)
    requires |s| == |t| && at + |bytes| <= |s| && t[at..at + |bytes|] == bytes
    requires t[..at] == s[..at] && t[at + |bytes|..] == s[at + |bytes|..]
    ensures t == Splice(s, at, bytes)
  {
    assert t == t[..at] + t[at..at + |bytes|] + t[at + |bytes|..];
  }

  lemma ZeroPad(bytes: seq<byte>, at: nat, pad: nat)
    requires pad <= 1 && (pad > 0 ==> at < |bytes| && bytes[at] == 0)
    ensures StartPad(bytes, at, pad) == 0
  {
  }

  /** utf8_to_gsm7 into reserved bytes: it stores exactly the packed septets, no byte around them. */
  method StoreSeptets(text: seq<byte>, block: array<byte>, at: nat, pad: nat)
    requires Ascii(text) && pad <= 1 && at + (pad + 7 * |TextSeptets(text)| + 7) / 8 <= block.Length
    modifies block
    ensures (forall i :: at <= i < block.Length ==> old(block[i]) == 0) ==>
      block[..] == Splice(old(block[..]), at, Pack(0, pad, TextSeptets(text)))
  {
    hide Pack, Pow2, TextSeptets, Splice;
    ghost var before, vs := block[..], TextSeptets(text);
    hide StartPad;
    var r := Utf8ToGsm7(text, block, at, pad);
    if forall i :: at <= i < |before| ==> before[i] == 0 {
      ZeroPad(before, at, pad);
      assert at + pad / 8 == at && pad % 8 == pad;
      SpliceIs(before, block[..], at, Pack(0, pad, vs));
    }
  }

  /** The septets of the text from bit `pad` of the reserved bytes; `count` bytes are reserved and the
      encoder writes exactly those. */
  method AddSeptets(rope: Rope, text: seq<byte>, count: nat, pad: nat)
    requires rope.Valid() && Ascii(text) && pad <= 1 && count == |TextSeptets(text)|
    modifies rope, rope.data
    ensures rope.Appends(Pack(0, pad, TextSeptets(text)))
  {
    hide Pack, Pow2, TextSeptets, Splice;
    ghost var room := rope.HasRoom((pad + 7 * |TextSeptets(text)| + 7) / 8) && rope.Zeroed();
    ghost var was, p0 := if rope.data == null then [] else rope.data[..], rope.pos;
    var dst := rope.Reserve((count * 7 + pad + 7) / 8);
    if dst.Some? {
      var block := rope.data;
      StoreSeptets(text, block, dst.value, pad);
      if room {
        SpliceParts(was, p0, Pack(0, pad, TextSeptets(text)));
        assert block[..] == Splice(was, p0, Pack(0, pad, TextSeptets(text)));
      }
    }
  }

  method AddUcs2(rope: Rope, text: seq<byte>)
    requires rope.Valid() && Ascii(text)
    modifies rope, rope.data
    ensures rope.Appends(Ucs2(text))
  {
    hide Ucs2, Splice;
    var dst := rope.Reserve(2 * |text|);
    if dst.Some? {
      SpliceParts(rope.data[..], dst.value, Ucs2(text));
      Utf8ToUcs2(text, rope.data, dst.value);
    }
  }

  /** The length byte and, for a part of a longer message, the user data header. */
  method AddLength(rope: Rope, length: byte, e: Envelope)
    requires rope.Valid()
    modifies rope, rope.data
    ensures rope.Appends(LengthBytes(length, e))
  {
    hide Splice, UserHeader;
    ghost var header := if e.count > 1 then UserHeader(e) else [];
    if rope.HasRoom(1 + |header|) {
      Chain(rope.data[..], rope.pos, [length], header, LengthBytes(length, e));
      SpliceNothing(Splice(rope.data[..], rope.pos, [length]), rope.pos + 1);
    }
    rope.AddC(length);
    if e.count > 1 {
      AddUserHeader(rope, e);
    }
  }

  method AddGsm7Data(rope: Rope, text: seq<byte>, e: Envelope)
    requires rope.Valid() && Ascii(text)
    modifies rope, rope.data
    ensures rope.Appends(UserData(text, true, e))
  {
    hide Pack, Pow2, TextSeptets, Splice, LengthBytes;
    var count := Utf8ToGsm7Count(text);
    var pad := if e.count > 1 then 1 else 0;
    var length := (count + if e.count > 1 then 7 else 0) % 256;
    if rope.HasRoom(|UserData(text, true, e)|) {
      Chain(rope.data[..], rope.pos, LengthBytes(length, e), Pack(0, pad, TextSeptets(text)), UserData(text, true, e));
    }
    AddLength(rope, length, e);
    AddSeptets(rope, text, count, pad);
  }

  method AddUcs2Data(rope: Rope, text: seq<byte>, e: Envelope)
    requires rope.Valid() && Ascii(text)
    modifies rope, rope.data
    ensures rope.Appends(UserData(text, false, e))
  {
    hide Ucs2, Splice, LengthBytes;
    var count := |text|;
    var length := (2 * count + if e.count > 1 then 6 else 0) % 256;
    var again := 2 * count % 256;
    if rope.HasRoom(|UserData(text, false, e)|) {
      var was, p0 := rope.data[..], rope.pos;
      Chain(was, p0, LengthBytes(length, e), [again], LengthBytes(length, e) + [again]);
      Chain(was, p0, LengthBytes(length, e) + [again], Ucs2(text), UserData(text, false, e));
    }
    AddLength(rope, length, e);
    rope.AddC(again);
    AddUcs2(rope, text);
  }

  method AddUserData(rope: Rope, text: seq<byte>, gsm7: bool, e: Envelope)
    requires rope.Valid() && Ascii(text)
    modifies rope, rope.data
    ensures rope.Appends(UserData(text, gsm7, e))
  {
    if gsm7 {
      AddGsm7Data(rope, text, e);
    } else {
      AddUcs2Data(rope, text, e);
    }
  }

  method AddFirst(rope: Rope, mti: byte)
    requires rope.Valid()
    modifies rope, rope.data
    ensures rope.Appends([0, mti])
  {
    hide Splice;
    if rope.HasRoom(2) {
      Chain(rope.data[..], rope.pos, [0], [mti], [0, mti]);
    }
    rope.AddC(0);
    rope.AddC(mti);
  }

  method AddCodes(rope: Rope, coding: byte, timestamp: seq<byte>)
    requires rope.Valid()
    modifies rope, rope.data
    ensures rope.Appends([0, coding] + timestamp)
  {
    hide Splice;
    if rope.HasRoom(2 + |timestamp|) {
      Chain(rope.data[..], rope.pos, [0], [coding], [0, coding]);
      Chain(rope.data[..], rope.pos, [0, coding], timestamp, [0, coding] + timestamp);
    }
    rope.AddC(0);
    rope.AddC(coding);
    rope.Add(timestamp);
  }

  method AddSender(rope: Rope, mti: byte, e: Envelope)
    requires rope.Valid() && e.Valid()
    modifies rope, rope.data
    ensures rope.Appends([0, mti] + AddressField(e.sender))
  {
    hide Splice, AddressField;
    if rope.HasRoom(2 + |AddressField(e.sender)|) {
      Chain(rope.data[..], rope.pos, [0, mti], AddressField(e.sender), [0, mti] + AddressField(e.sender));
    }
    AddFirst(rope, mti);
    AddAddress(rope, e.sender);
  }

  method AddPrefix(rope: Rope, gsm7: bool, e: Envelope)
    requires rope.Valid() && e.Valid()
    modifies rope, rope.data
    ensures rope.Appends(Prefix(gsm7, e))
  {
    hide Splice, AddressField;
    var mti: byte := if e.count > 1 then 0x60 else 0x20;
    var coding: byte := if gsm7 then 0x00 else 0x09;
    if rope.HasRoom(|Prefix(gsm7, e)|) {
      Chain(rope.data[..], rope.pos, [0, mti] + AddressField(e.sender), [0, coding] + e.timestamp, Prefix(gsm7, e));
    }
    AddSender(rope, mti, e);
    AddCodes(rope, coding, e.timestamp);
  }

  /** gsm_rope_add_sms_deliver_pdu */
  method AddDeliverPdu(rope: Rope, text: seq<byte>, gsm7: bool, e: Envelope)
    requires rope.Valid() && e.Valid() && Ascii(text)
    modifies rope, rope.data
    ensures rope.Appends(DeliverBytes(text, gsm7, e))
  {
    hide Splice, Prefix, UserData;
    if rope.HasRoom(|DeliverBytes(text, gsm7, e)|) {
      Chain(rope.data[..], rope.pos, Prefix(gsm7, e), UserData(text, gsm7, e), DeliverBytes(text, gsm7, e));
    }
    AddPrefix(rope, gsm7, e);
    AddUserData(rope, text, gsm7, e);
  }

  /** The bytes of a PDU record: three pointers. */
  const PDU_RECORD_SIZE: nat := 12

  /** smspdu_create_deliver: measure, allocate that many zeroed bytes, write.  It fails exactly when
      the record or the bytes cannot be allocated. */
  method CreateDeliver(heap: nat -> bool, text: seq<byte>, gsm7: bool, e: Envelope)
    returns (base: Option<seq<byte>>)
    requires e.Valid() && Ascii(text)
    ensures base ==
      if heap(PDU_RECORD_SIZE) && heap(|DeliverBytes(text, gsm7, e)|) then Some(DeliverBytes(text, gsm7, e)) else None
  {
    if !heap(PDU_RECORD_SIZE) { return None; }
    ghost var bytes := DeliverBytes(text, gsm7, e);
    assert |bytes| > 0;
    hide Splice, Prefix, UserData;
    var rope := new Rope(heap);
    AddDeliverPdu(rope, text, gsm7, e);
    assert !rope.error && rope.pos == |bytes|;
    rope.InitAlloc(rope.pos);
    if rope.data == null { return None; }
    ghost var zeros := rope.data[..];
    assert rope.HasRoom(|bytes|) && rope.Zeroed();
    AddDeliverPdu(rope, text, gsm7, e);
    var all := rope.data;
    SpliceParts(zeros, 0, bytes);
    return Some(all[..rope.pos]);
  }
}
