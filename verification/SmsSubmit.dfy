/**
  SMS-SUBMIT PDUs as the phone sends them (huawei-generic/sms_gsm.c, section 9.2.2.2 of
  3GPP TS 23.040): hex digits to bytes and back, and the parser that finds the receiver address and
  the text.
 */
module SmsSubmit {
  import opened Options
  import opened Bytes
  import opened CStrings
  import opened Hex
  import opened GsmDecode
  import opened Ropes
  import opened SmsAddresses
  import SmsDeliver

  // ---------------------------------------------------------------- hex

  /** Digits that smspdu_to_hex writes: whole bytes, the last one possibly beyond `hexlen` by a digit. */
  function HexWritten(base: seq<byte>, hexlen: nat): (n: nat)
    ensures n <= 2 * |base|
  {
    if hexlen > 2 * |base| then 2 * |base| else hexlen + hexlen % 2
  }

  /** The digits of a byte are written exactly if the first of them is below the limit. */
  lemma HexWrittenIff(base: seq<byte>, hexlen: nat, k: nat)
    requires k < |base|
    ensures 2 * k < HexWritten(base, hexlen) <==> 2 * k < hexlen
    ensures 2 * k + 1 < HexWritten(base, hexlen) <==> 2 * k < hexlen
  {
  }

  /** smspdu_to_hex */
  method SmsPduToHex(base: seq<byte>, hex: array<char>, hexlen0: nat) returns (result: nat)
    requires HexWritten(base, hexlen0) <= hex.Length
    modifies hex
    ensures result == 2 * |base|
    ensures var n := HexWritten(base, hexlen0); hex[..n] == HexOf(base)[..n] && hex[n..] == old(hex[n..])
  {
    hide HexOf;
    result := 2 * |base|;
    var hexlen := if hexlen0 > result then result else hexlen0;
    ghost var was := hex[..];
    var nn := 0;
    while 2 * nn < hexlen
      invariant nn <= |base| && 2 * nn <= hexlen + hexlen % 2 <= hex.Length
      invariant forall k :: 0 <= k < 2 * nn ==> hex[k] == HexOf(base)[k]
      invariant forall k :: 2 * nn <= k < hex.Length ==> hex[k] == was[k]
    {
      HexOfAt(base, nn);
      hex[2 * nn] := HEX_DIGITS[base[nn] / 16 % 16];
      hex[2 * nn + 1] := HEX_DIGITS[base[nn] % 16];
      nn := nn + 1;
    }
  }

  /** No terminator is written: the string that is then in the buffer is the digits, and behind them the
      string that was there before.  It is the digits alone exactly when that was empty. */
  lemma DigitsLeftOver(base: seq<byte>, hexlen: nat, before: seq<char>, after: seq<char>)
    requires HexWritten(base, hexlen) <= |before| == |after|
    requires var n := HexWritten(base, hexlen); after[..n] == HexOf(base)[..n] && after[n..] == before[n..]
    ensures var n := HexWritten(base, hexlen);
      CString(after) == HexOf(base)[..n] + CString(before[n..]) &&
      (CString(after) == HexOf(base)[..n] <==> n == |before| || before[n] == '\0')
  {
    hide HexOf;
    var n := HexWritten(base, hexlen);
    forall k | 0 <= k < n
      ensures HexOf(base)[k] != '\0'
    {
      HexOfAt(base, k / 2);
    }
    CStringJoin(HexOf(base)[..n], before[n..]);
    assert after == HexOf(base)[..n] + before[n..];
  }

  lemma {:induction false} CStringJoin(text: string, rest: seq<char>)
    requires forall i :: 0 <= i < |text| ==> text[i] != '\0'
    ensures CString(text + rest) == text + CString(rest)
  {
    if |text| > 0 {
      CStringJoin(text[1..], rest);
      assert (text + rest)[1..] == text[1..] + rest;
    } else {
      assert text + rest == rest;
    }
  }

  // ---------------------------------------------------------------- the PDU

  /** The bytes of a PDU and where its TPDU starts, behind the service centre address. */
  datatype SmsPdu = SmsPdu(base: seq<byte>, tpdu: nat)

  function PduOf(base: seq<byte>): Option<SmsPdu> {
    if |base| == 0 || 1 + base[0] > |base| then None else Some(SmsPdu(base, 1 + base[0] as int))
  }

  /** smspdu_create_from_hex; `heap(n)` says whether an allocation of n bytes succeeds. */
  method CreateFromHex(heap: nat -> bool, hex: string) returns (pdu: Option<SmsPdu>)
    ensures pdu == if heap(SmsDeliver.PDU_RECORD_SIZE) && heap((|hex| + 1) / 2) then PduOf(HexBytes(hex)) else None
  {
    if !heap(SmsDeliver.PDU_RECORD_SIZE) || !heap((|hex| + 1) / 2) { return None; }
    var base := new byte[(|hex| + 1) / 2];
    GsmHexToBytes(hex, base);
    if base.Length == 0 { return None; }
    var cur: nat := 1 + base[0] as int;
    if cur > base.Length { return None; }
    return Some(SmsPdu(base[..], cur));
  }

  predicate IsSubmit(pdu: SmsPdu) { pdu.tpdu < |pdu.base| && pdu.base[pdu.tpdu] % 4 == 1 }

  /** smspdu_get_receiver_address: whether it succeeds, and what it leaves in the record. */
  function Receiver(pdu: SmsPdu, a: Address): (got: Got)
    requires |a.data| == MAX_SIZE
    ensures |got.address.data| == MAX_SIZE && (got.ok ==> got.address.len <= 2 * MAX_SIZE)
  {
    if IsSubmit(pdu) then GetAddress(pdu.base, pdu.tpdu + 2, a) else Got(false, 0, a)
  }

  method ReceiverAddress(pdu: SmsPdu, address: SmsAddress) returns (ok: bool)
    requires address.Valid()
    modifies address, address.data
    ensures var got := Receiver(pdu, old(address.Value())); ok == got.ok && address.Value() == got.address
  {
    ok := false;
    if IsSubmit(pdu) {
      var next;
      ok, next := address.Get(pdu.base, pdu.tpdu + 2);
    }
  }

  datatype Coding = Unknown | Gsm7 | Ucs2

  /** sms_get_coding_scheme (section 5 of 3GPP TS 23.038) */
  function CodingOf(dcs: byte): Coding {
    var group := dcs / 16;
    if group == 0 || group == 2 || group == 3 then Gsm7
    else if group == 1 then if dcs == 0x10 then Gsm7 else if dcs == 0x11 then Ucs2 else Unknown
    else if 4 <= group <= 7 then
      if dcs / 32 % 2 == 1 then Unknown
      else if dcs / 4 % 4 == 0 then Gsm7
      else if dcs / 4 % 4 == 2 then Ucs2
      else Unknown
    else if group == 15 && dcs / 4 % 2 == 0 then Gsm7
    else Unknown
  }

  /** The data coding schemes of septets in section 5 of 3GPP TS 23.038: those of a language, with the
      language in front, of the general group and of the last one, not compressed. */
  predicate Gsm7Scheme(dcs: byte) {
    dcs <= 0x10 || 0x20 <= dcs <= 0x3f || 0x40 <= dcs <= 0x43 || 0x50 <= dcs <= 0x53 ||
    0xf0 <= dcs <= 0xf3 || 0xf8 <= dcs <= 0xfb
  }

  /** The data coding schemes of UCS2. */
  predicate Ucs2Scheme(dcs: byte) { dcs == 0x11 || 0x48 <= dcs <= 0x4b || 0x58 <= dcs <= 0x5b }

  /** The coding is that of section 5, for every data coding scheme. */
  lemma CodingIs(dcs: byte)
    ensures CodingOf(dcs) == if Gsm7Scheme(dcs) then Gsm7 else if Ucs2Scheme(dcs) then Ucs2 else Unknown
  {
  }

  /** Section 4 of 3GPP TS 23.038, which is about short messages: text that is neither compressed nor in
      octets. */
  function MessageCoding(dcs: byte): Coding {
    var alphabet := dcs / 4 % 4;
    if dcs < 0x80 then
      if dcs / 32 % 2 == 1 then Unknown
      else if alphabet == 0 then Gsm7 else if alphabet == 2 then Ucs2 else Unknown
    else if dcs < 0xc0 then Unknown
    else if dcs < 0xe0 then Gsm7
    else if dcs < 0xf0 then Ucs2
    else if alphabet % 2 == 0 then Gsm7 else Unknown
  }

  /** The code reads the scheme of a short message as one of a cell broadcast, which is the same exactly
      for these; 8, the plain scheme of UCS2, is not among them. */
  lemma MessageCodingIff(dcs: byte)
    ensures CodingOf(dcs) == MessageCoding(dcs) <==>
      dcs <= 3 || dcs == 0x10 || 0x14 <= dcs <= 0x17 || 0x1c <= dcs <= 0x1f || 0x40 <= dcs <= 0xbf || 0xf0 <= dcs
    ensures MessageCoding(8) == Ucs2 && CodingOf(8) == Gsm7
  {
    var group, alphabet := dcs / 16, dcs / 4 % 4;
    CodingIs(dcs);
  }

  /** The text of `n` UCS2 characters; None when they run past the bytes. */
  function Ucs2Text(src: seq<byte>, n: nat): Option<seq<byte>> {
    if n == 0 then Some([])
    else if |src| < 2 then None
    else Prepend(Utf8Bytes(256 * src[0] as int + src[1]), Ucs2Text(src[2..], n - 1))
  }

  /** Two bytes for each character, the high one first. */
  function UnitBytes(units: seq<nat>): (r: seq<byte>)
    requires forall i :: 0 <= i < |units| ==> units[i] < 0x10000
    ensures |r| == 2 * |units|
  {
    if |units| == 0 then [] else [units[0] / 256, units[0] % 256] + UnitBytes(units[1..])
  }

  /** UCS2 text becomes the same characters in UTF-8. */
  lemma {:induction false} Ucs2Says(units: seq<nat>, rest: seq<byte>)
    requires forall i :: 0 <= i < |units| ==> units[i] < 0x10000
    ensures var text := Ucs2Text(UnitBytes(units) + rest, |units|);
      text.Some? && ReadUtf8(text.value) == Some(units)
  {
    hide ReadUtf8, Utf8Bytes;
    if |units| == 0 {
      NothingRead();
    } else {
      Ucs2Says(units[1..], rest);
      var src := UnitBytes(units) + rest;
      assert src[2..] == UnitBytes(units[1..]) + rest && 256 * src[0] as int + src[1] == units[0];
      CharacterReads(units[0], Ucs2Text(src[2..], |units| - 1).value);
      assert [units[0]] + units[1..] == units;
    }
  }

  /** ucs2_to_utf8; with a null destination it only counts. */
  method Ucs2ToUtf8(ucs2: seq<byte>, n: nat, buf: array?<byte>, base: nat) returns (ok: bool, result: nat)
    requires buf != null ==> Ucs2Text(ucs2, n).Some? && base + |Ucs2Text(ucs2, n).value| <= buf.Length
    modifies if buf == null then {} else {buf}
    ensures ok <==> Ucs2Text(ucs2, n).Some?
    ensures ok ==> result == |Ucs2Text(ucs2, n).value|
    ensures buf != null ==> buf[..] == Splice(old(buf[..]), base, Ucs2Text(ucs2, n).value)
  {
    hide Splice, Utf8Bytes;
    ghost var was := if buf == null then [] else buf[..];
    if buf != null { SpliceNothing(was, base); }
    ghost var all := Ucs2Text(ucs2, n);
    ghost var out := [];
    if all.Some? { PrependNothing(all.value); }
    var nn := 0;
    result := 0;
    assert ucs2[0..] == ucs2;
    while nn < n
      invariant 0 <= nn <= n && 2 * nn <= |ucs2| && result == |out|
      invariant all == Prepend(out, Ucs2Text(ucs2[2 * nn..], n - nn))
      invariant buf != null ==> base + result <= buf.Length && buf[..] == Splice(was, base, out)
    {
      if 2 * nn + 1 >= |ucs2| { return false, 0; }
      var piece := Utf8Bytes(256 * ucs2[2 * nn] as int + ucs2[2 * nn + 1]);
      assert ucs2[2 * nn..][2..] == ucs2[2 * (nn + 1)..];
      PrependMore(out, piece, Ucs2Text(ucs2[2 * (nn + 1)..], n - nn - 1));
      if buf != null {
        SpliceTwice(was, base, out, piece);
        Store(buf, base + result, piece);
      }
      out := out + piece;
      result := result + |piece|;
      nn := nn + 1;
    }
    PrependNothing(out);
    ok := true;
  }

  /** The text that the user data at `cur` holds; None is the source's -1, or user data that is not
      as long as its length byte says, or that starts with a header. */
  function ReadText(base: seq<byte>, cur: nat, header: bool, coding: Coding): Option<seq<byte>> {
    if cur >= |base| || header then None
    else
      match coding
      case Unknown => None
      case Gsm7 => PackedText(base[cur + 1..], 0, base[cur], false)
      case Ucs2 => Ucs2Text(base[cur + 1..], base[cur] / 2)
  }

  /** utf8_from_gsm7 or ucs2_to_utf8, as the coding says. */
  method TextToUtf8(coding: Coding, src: seq<byte>, length: nat, buf: array?<byte>, base: nat)
    returns (ok: bool, result: nat)
    requires coding != Unknown
    requires buf != null ==>
      var text := if coding == Gsm7 then PackedText(src, 0, length, false) else Ucs2Text(src, length / 2);
      text.Some? && base + |text.value| <= buf.Length
    modifies if buf == null then {} else {buf}
    ensures var text := if coding == Gsm7 then PackedText(src, 0, length, false) else Ucs2Text(src, length / 2);
      ok == text.Some? && (ok ==> result == |text.value|) &&
      (buf != null ==> buf[..] == Splice(old(buf[..]), base, text.value))
  {
    hide PackedText, Ucs2Text, Splice;
    if coding == Gsm7 {
      ok, result := Utf8FromGsm7(src, 0, length, buf, base);
    } else {
      ok, result := Ucs2ToUtf8(src, length / 2, buf, base);
    }
  }

  /** sms_get_text_utf8 on an empty rope: count, reserve exactly that much, write. */
  method GetTextUtf8(base: seq<byte>, cur: nat, header: bool, coding: Coding, rope: Rope) returns (ok: bool)
    requires rope.Valid() && rope.HasRoom(0) && rope.pos == 0
    modifies rope, rope.data
    ensures rope.Valid()
    ensures ok ==> rope.HasRoom(0) && ReadText(base, cur, header, coding) == Some(rope.Content())
    ensures !ok && ReadText(base, cur, header, coding).Some? ==> exists n :: !rope.heap(n)
  {
    hide PackedText, Ucs2Text;
    if cur >= |base| || header || coding == Unknown { return false; }
    var length, src := base[cur], base[cur + 1..];
    var whole, count := TextToUtf8(coding, src, length, null, 0);
    if !whole { return false; }
    var dst := rope.Reserve(count);
    if dst.None? { return false; }
    ghost var was := rope.data[..];
    var block := rope.data;
    whole, count := TextToUtf8(coding, src, length, block, dst.value);
    SpliceParts(was, 0, ReadText(base, cur, header, coding).value);
    return true;
  }

  /** A record that nothing has been stored in. */
  function Blank(): (a: Address)
    ensures |a.data| == MAX_SIZE
  {
    Address(0, 0, [0, 0, 0, 0, 0, 0, 0, 0, 0, 0, 0, 0, 0, 0, 0, 0])
  }

  /** What smspdu_get_text_message finds in a SUBMIT PDU. */
  function SubmitText(pdu: SmsPdu): Option<seq<byte>> {
    if !IsSubmit(pdu) then None
    else
      var got := GetAddress(pdu.base, pdu.tpdu + 2, Blank());
      if !got.ok || got.cur + 1 >= |pdu.base| then None
      else ReadText(pdu.base, got.cur + 2, pdu.base[pdu.tpdu] / 64 % 2 == 1, CodingOf(pdu.base[got.cur + 1]))
  }

  /** smspdu_get_text_message on a SUBMIT PDU, with the bytes it stores. */
  method GetTextMessage(heap: nat -> bool, pdu: SmsPdu) returns (text: Option<seq<byte>>)
    ensures text.Some? ==> text == SubmitText(pdu)
    ensures text.None? && SubmitText(pdu).Some? ==> exists n :: !heap(n)
  {
    hide ReadText, CodingOf, GetAddress, ToStr, Blank;
    if !IsSubmit(pdu) { return None; }
    var address := new SmsAddress();
    GetSame(pdu.base, pdu.tpdu + 2, address.Value(), Blank());
    var ok, cur := address.Get(pdu.base, pdu.tpdu + 2);
    if !ok { return None; }
    if cur + 1 >= |pdu.base| { return None; }
    var rope := new Rope(heap);
    rope.InitAlloc(0);
    ok := GetTextUtf8(pdu.base, cur + 2, pdu.base[pdu.tpdu] / 64 % 2 == 1, CodingOf(pdu.base[cur + 1]), rope);
    if !ok { return None; }
    return Some(rope.data[..rope.pos]);
  }

  /** Success, the cursor and the printed number do not depend on what the record held. */
  lemma GetSame(bytes: seq<byte>, cur: nat, a: Address, b: Address)
    requires |a.data| == MAX_SIZE && |b.data| == MAX_SIZE
    ensures var g, h := GetAddress(bytes, cur, a), GetAddress(bytes, cur, b);
      g.ok == h.ok && g.cur == h.cur &&
      (g.ok ==> ToStr(g.address) == ToStr(h.address))
  {
  }
}
