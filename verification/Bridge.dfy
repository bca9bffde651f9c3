/**
  From GSM to CDMA (gsm_to_cdmapdu in huawei-generic/sms.c): a SUBMIT PDU in hex becomes a CDMA
  message with the same text and number.
 */
module Bridge {
  import opened Options
  import opened Bytes
  import opened CStrings
  import opened Hex
  import opened Septets
  import opened GsmText
  import opened GsmDecode
  import opened SmsAddresses
  import opened SmsSubmit
  import opened CdmaBits
  import opened CdmaSms
  import opened CdmaDecode
  import opened CdmaRoundTrip

  function AsChars(bytes: seq<byte>): (s: string)
    ensures |s| == |bytes|
  {
    seq(|bytes|, i requires 0 <= i < |bytes| => bytes[i] as char)
  }

  // ---------------------------------------------------------------- the conversion

  /** The number that is dialled: CDMA networks want "00" for a leading '+'. */
  function Dialled(no: string): string {
    if |no| > 0 && no[0] == '+' then "00" + no[1..] else no
  }

  /** The number and the text that are encoded; None where the source fails or overruns a buffer. */
  function Converted(msg: string): Option<(string, string)> {
    match PduOf(HexBytes(msg))
    case None => None
    case Some(pdu) =>
      var got := Receiver(pdu, Blank());
      var text := SubmitText(pdu);
      if text.None? || |text.value| >= 256 || !got.ok then None
      else Some((Dialled(ToStr(got.address)), CString(AsChars(text.value))))
  }

  /** memmove by one up, over the whole buffer. */
  method ShiftUp(to: array<char>)
    requires to.Length == 256
    modifies to
    ensures to[1..] == old(to[..255]) && to[0] == old(to[0])
  {
    var i := 255;
    while i > 0
      invariant 0 <= i <= 255
      invariant forall k :: i < k < 256 ==> to[k] == old(to[k - 1])
      invariant forall k :: 0 <= k <= i ==> to[k] == old(to[k])
    {
      to[i] := to[i - 1];
      i := i - 1;
    }
  }

  /** to[0] == '+': move everything up by one and write two zeros. */
  method PlusToZeros(to: array<char>, ghost no: string)
    requires to.Length == 256 && |no| < 255 && to[..|no|] == no && to[|no|] == '\0'
    modifies to
    ensures var d := Dialled(no); to[..|d|] == d && to[|d|] == '\0'
  {
    if to[0] == '+' {
      ghost var was := to[..];
      assert |no| > 0 ==> no[0] == was[0];
      assert |no| > 0;
      ShiftUp(to);
      ghost var up := to[1..];
      assert up[1..|no| + 1] == was[1..|no| + 1] && was[1..|no|] == no[1..];
      to[0] := '0';
      to[1] := '0';
      assert to[2..] == up[1..];
      assert to[..|no| + 1] == "00" + to[2..][..|no| - 1];
    } else {
      assert |no| > 0 ==> no[0] == to[..|no|][0] == to[0];
    }
  }

  /** A string and its terminator stored at the start of a buffer. */
  method StoreString(to: array<char>, s: string)
    requires |s| < to.Length
    modifies to
    ensures to[..|s|] == s && to[|s|] == '\0'
  {
    var k := 0;
    while k < |s|
      invariant 0 <= k <= |s| && to[..k] == s[..k]
    {
      to[k] := s[k];
      k := k + 1;
    }
    to[k] := '\0';
  }

  lemma StringHeld(buffer: seq<char>, s: string)
    requires |s| < |buffer| && buffer[..|s|] == s && buffer[|s|] == '\0' && forall i :: 0 <= i < |s| ==> s[i] != '\0'
    ensures CString(buffer) == s
  {
    hide CString;
    CStringEnds(s, buffer[|s| + 1..]);
    assert buffer == s + ['\0'] + buffer[|s| + 1..];
  }

  /** sms_address_to_str into to[256], and the '+' replaced. */
  method PrintNumber(address: SmsAddress, to: array<char>) returns (no: string)
    requires address.Valid() && address.len <= 32 && to.Length == 256
    modifies to
    ensures no == Dialled(ToStr(address.Value()))
  {
    NoTerminator(address.Value());
    hide ToStr, Dialled, CString;
    var printed := address.Print();
    StoreString(to, printed);
    PlusToZeros(to, printed);
    no := CString(to[..]);
    StringHeld(to[..], Dialled(printed));
  }

  lemma NoTerminator(a: Address)
    requires |a.data| == MAX_SIZE && a.len <= 32
    ensures |ToStr(a)| <= 33 && |Dialled(ToStr(a))| <= 34
    ensures forall i :: 0 <= i < |Dialled(ToStr(a))| ==> Dialled(ToStr(a))[i] != '\0'
  {
  }

  /** The buffer holds the CDMA message with number `to` and text `m`, and its terminator. */
  ghost predicate Encoded(buffer: seq<char>, to: string, m: string) {
    var n := PduLen(to, m);
    |buffer| == 512 && n < 512 && buffer[n] == '\0' && AllHex(buffer[..n]) && PduAt(buffer[..n], to, m)
  }

  /** gsm_to_cdmapdu into the static buffer.  `done` is false where the source goes wrong: no receiver
      address, no text, a text or a message that does not fit its buffer, or no memory. */
  method GsmToCdmaPdu(heap: nat -> bool, msg: string, hexpdu: array<char>) returns (done: bool)
    requires hexpdu.Length == 512
    modifies hexpdu
    ensures done ==> Converted(msg).Some? && Encoded(hexpdu[..], Converted(msg).value.0, Converted(msg).value.1)
    ensures !done ==>
      Converted(msg).None? || PduLen(Converted(msg).value.0, Converted(msg).value.1) >= 512 || exists n :: !heap(n)
  {
    hide HexBytes, GetAddress, SubmitText, ToStr, Dialled, CString, PduAt, Encodes, PduLen;
    var address := new SmsAddress();
    var ok := address.FromStr("000000");
    var pdu := CreateFromHex(heap, msg);
    if pdu.None? { return false; }
    GetSame(pdu.value.base, pdu.value.tpdu + 2, address.Value(), Blank());
    ok := ReceiverAddress(pdu.value, address);
    if !ok { return false; }
    var to := new char[256];
    var no := PrintNumber(address, to);
    var text := GetTextMessage(heap, pdu.value);
    if text.None? || |text.value| >= 256 { return false; }
    var message := CString(AsChars(text.value));
    if PduLen(no, message) >= 512 { return false; }
    CStringSmall(AsChars(text.value));
    EncodeCdmaSms(hexpdu, no, message);
    return true;
  }

  // ---------------------------------------------------------------- SUBMIT PDUs

  /** A SUBMIT TPDU behind its service centre address. */
  datatype Submit = Submit(
    sca: seq<byte>, first: byte, reference: byte, to: Address, pid: byte, dcs: byte, validity: seq<byte>,
    udl: byte, ud: seq<byte>)
  {
    /** Message type SUBMIT, no user data header, a number of 1 to 32 digits, and a validity period of the
        length that its format has (section 9.2.3.3 of 3GPP TS 23.040): none, relative, or one of the others. */
    ghost predicate Valid() {
      |sca| < 256 && first % 4 == 1 && first / 64 % 2 == 0 && |to.data| == MAX_SIZE && 1 <= to.len <= 32 &&
      |validity| == match first / 8 % 4 case 0 => 0 case 2 => 1 case _ => 7
    }

    function Bytes(): seq<byte>
      requires |sca| < 256 && |to.data| == MAX_SIZE && to.len <= 32
    {
      [|sca|] + sca + [first, reference] + AddressField(to) + [pid, dcs] + validity + [udl] + ud
    }
  }

  lemma FieldNibbles(a: Address)
    requires |a.data| == MAX_SIZE && a.len <= 32
    ensures var field := AddressField(a);
      |field| == 2 + (a.len + 1) / 2 && field[0] == a.len && field[1] == a.toa &&
      forall j: nat :: j < a.len ==> Nibble(field[2..], j) == Nibble(a.data, j)
  {
  }

  /** The address field of any number of 1 to 32 digits is read back as that number. */
  lemma FieldReads(a: Address, before: seq<byte>, after: seq<byte>, record: Address)
    requires |a.data| == |record.data| == MAX_SIZE && 1 <= a.len <= 32
    ensures var got := GetAddress(before + AddressField(a) + after, |before|, record);
      got.ok && got.cur == |before| + |AddressField(a)| && ToStr(got.address) == ToStr(a)
  {
    hide AddressField, FillHigh, Nibble;
    FieldNibbles(a);
    var n := (a.len as int + 1) / 2;
    var field := AddressField(a);
    var bytes := before + field + after;
    assert bytes[|before|] == a.len && bytes[|before| + 1] == a.toa;
    assert bytes[|before| + 2..|before| + 2 + n] == field[2..];
    SamePrinted(Address(a.len, a.toa, field[2..] + record.data[n..]), field[2..], a);
  }

  lemma SamePrinted(b: Address, data: seq<byte>, a: Address)
    requires b.len == a.len && b.toa == a.toa && (a.len + 1) / 2 <= |data| && |a.data| == MAX_SIZE && a.len <= 32
    requires data <= b.data && forall j: nat :: j < a.len ==> Nibble(data, j) == Nibble(a.data, j)
    ensures ToStr(b) == ToStr(a)
  {
    forall j: nat | j < a.len
      ensures Nibble(b.data, j) == Nibble(a.data, j)
    {
      assert Nibble(data, j) == Nibble(a.data, j);
    }
  }

  // ---------------------------------------------------------------- what arrives

  /** What the parser finds in a SUBMIT PDU.  A validity period is not skipped but read as the start of the
      user data. */
  lemma SubmitRead(p: Submit)
    requires p.Valid()
    ensures var pdu := SmsPdu(p.Bytes(), 1 + |p.sca|);
      PduOf(p.Bytes()) == Some(pdu) &&
      Receiver(pdu, Blank()).ok && ToStr(Receiver(pdu, Blank()).address) == ToStr(p.to) &&
      SubmitText(pdu) == ReadText(p.validity + [p.udl] + p.ud, 0, false, CodingOf(p.dcs))
  {
    hide AddressField, GetAddress, Blank, ToStr, PackedText, Ucs2Text, CodingOf;
    FieldNibbles(p.to);
    var before, field := [|p.sca|] + p.sca + [p.first, p.reference], AddressField(p.to);
    var data := p.validity + [p.udl] + p.ud;
    var after := [p.pid, p.dcs] + data;
    var b := p.Bytes();
    assert b == before + field + after;
    FieldReads(p.to, before, after, Blank());
    assert b[1 + |p.sca|] == p.first;
    var cur := |before| + |field|;
    assert b[cur + 1] == p.dcs && b[cur + 2..] == data;
    assert b[cur + 2] == data[0] && b[cur + 3..] == data[1..];
  }

  /** A PDU whose text is `text` is converted to that text, up to its first NUL. */
  lemma Converts(msg: string, p: Submit, text: seq<byte>)
    requires p.Valid() && HexBytes(msg) == p.Bytes() && |text| < 256
    requires ReadText(p.validity + [p.udl] + p.ud, 0, false, CodingOf(p.dcs)) == Some(text)
    ensures Converted(msg) == Some((Dialled(ToStr(p.to)), CString(AsChars(text))))
  {
    hide HexBytes, AddressField, ReadText, SubmitText, CodingOf, ToStr, Dialled, CString, GetAddress, Blank;
    SubmitRead(p);
  }

  /** The message that is encoded for a PDU with text `text` decodes to that text exactly when all of
      it is 7-bit and free of NULs, and its number is the one dialled exactly when all digits are decimal. */
  lemma BridgeIff(msg: string, p: Submit, text: seq<byte>, buffer: seq<char>)
    requires p.Valid() && HexBytes(msg) == p.Bytes() && |text| < 256
    requires ReadText(p.validity + [p.udl] + p.ud, 0, false, CodingOf(p.dcs)) == Some(text)
    requires Converted(msg).Some? && Encoded(buffer, Converted(msg).value.0, Converted(msg).value.1)
    ensures var n := PduLen(Converted(msg).value.0, Converted(msg).value.1);
      (Decode(buffer[..n]) == Decoded("000000", AsChars(text), 0, n / 2) <==>
        forall i :: 0 <= i < |text| ==> 0 < text[i] < 128) &&
      (NumberSpec(buffer[..n], 56) == Some(Dialled(ToStr(p.to))) <==>
        forall j: nat :: j < p.to.len ==> Nibble(p.to.data, j) < 10)
  {
    hide *;
    SubmitFits(p);
    Converts(msg, p, text);
    EncodedReads(buffer, Dialled(ToStr(p.to)), CString(AsChars(text)));
    TextKept(text);
    NumberKeptIff(p.to);
  }

  lemma SubmitFits(p: Submit)
    requires p.Valid()
    ensures |p.to.data| == MAX_SIZE && 1 <= p.to.len <= 32 && (p.to.len + 1) / 2 <= |p.to.data|
  {
  }

  lemma EncodedReads(buffer: seq<char>, to: string, m: string)
    requires Encoded(buffer, to, m)
    ensures var n := PduLen(to, m);
      n <= |buffer| && Decode(buffer[..n]) == Decoded("000000", KeptText(m), 0, n / 2) &&
      NumberSpec(buffer[..n], 56) == Some(KeptNumber(to))
  {
    hide PduAt, Decode, NumberSpec, KeptText, KeptNumber;
    RoundTrip(buffer[..PduLen(to, m)], to, m);
  }

  lemma TextKept(text: seq<byte>)
    requires |text| < 256
    ensures KeptText(CString(AsChars(text))) == AsChars(text) <==> forall i :: 0 <= i < |text| ==> 0 < text[i] < 128
  {
    hide KeptText;
    var s := AsChars(text);
    CStringPrefix(s);
    CStringSmall(s);
    CdmaRoundTrip.TextSurvivesIff(CString(s));
    KeptLength(CString(s));
    if forall i :: 0 <= i < |text| ==> 0 < text[i] < 128 {
      CStringEnds(s, []);
    }
    forall i | KeptText(CString(s)) == s && 0 <= i < |text|
      ensures 0 < text[i] < 128
    {
      assert CString(s) == s;
      assert s[i] as int == text[i];
    }
  }

  lemma KeptLength(s: string)
    requires |s| < 256
    ensures |KeptText(s)| == |s|
  {
  }

  /** The printed number, from which the '+' is gone. */
  lemma DialledAt(a: Address)
    requires |a.data| == MAX_SIZE && 1 <= a.len <= 32
    ensures var first, d := if a.toa == TOA_INTERNATIONAL then 2 else 0, Dialled(ToStr(a));
      |d| == first + a.len && (forall j: nat :: j < a.len ==> d[first + j] as int == '0' as int + Nibble(a.data, j)) &&
      forall i :: 0 <= i < first ==> d[i] == '0'
  {
    hide Nibble;
    PrintedFirst(a);
  }

  lemma NumberKeptIff(a: Address)
    requires |a.data| == MAX_SIZE && 1 <= a.len <= 32
    ensures KeptNumber(Dialled(ToStr(a))) == Dialled(ToStr(a)) <==>
      forall j: nat :: j < a.len ==> Nibble(a.data, j) < 10
  {
    hide KeptNumber, Nibble, ToStr, Dialled;
    var first, d := if a.toa == TOA_INTERNATIONAL then 2 else 0, Dialled(ToStr(a));
    DialledAt(a);
    NumberSurvivesIff(d);
    forall j: nat | j < a.len
      ensures DialChar(d[first + j]) <==> Nibble(a.data, j) < 10
    {
    }
    forall i | 0 <= i < |d| && forall j: nat :: j < a.len ==> Nibble(a.data, j) < 10
      ensures DialChar(d[i])
    {
      if i >= first {
        var j: nat := i - first;
        assert Nibble(a.data, j) < 10 && DialChar(d[first + j]);
      }
    }
  }

  lemma PrintedFirst(a: Address)
    requires |a.data| == MAX_SIZE && 1 <= a.len <= 32
    ensures a.toa != TOA_INTERNATIONAL ==> ToStr(a)[0] != '+'
  {
  }

  /** Meaning is preserved: a SUBMIT PDU without validity period and with up to 160 characters of the base
      alphabet becomes a CDMA message with that text and the number dialled, a leading '+' as "00". */
  lemma BridgePreserves(msg: string, p: Submit, text: seq<byte>, buffer: seq<char>)
    requires p.Valid() && HexBytes(msg) == p.Bytes() && forall j: nat :: j < p.to.len ==> Nibble(p.to.data, j) < 10
    requires Gsm7Scheme(p.dcs) && p.validity == [] && BaseText(text) && |text| == p.udl <= 160
    requires IsPacked(p.ud, 0, TextSeptets(text))
    ensures Converted(msg).Some? && Converted(msg).value == (Dialled(ToStr(p.to)), AsChars(text))
    ensures PduLen(Dialled(ToStr(p.to)), AsChars(text)) < 512
    ensures Encoded(buffer, Dialled(ToStr(p.to)), AsChars(text)) ==>
      var n := PduLen(Dialled(ToStr(p.to)), AsChars(text));
      Decode(buffer[..n]) == Decoded("000000", AsChars(text), 0, n / 2) &&
      NumberSpec(buffer[..n], 56) == Some(Dialled(ToStr(p.to)))
  {
    hide *;
    CodingIs(p.dcs);
    Gsm7Text(p, text);
    Arrives(msg, p, text, buffer);
  }

  /** The address of a number: its decimal digits, and whether it is international (section 9.1.2.5). */
  ghost predicate Addresses(a: Address, digits: string, international: bool) {
    |a.data| == MAX_SIZE && a.len == |digits| && (a.toa == 0x91 <==> international) &&
    forall j: nat :: j < |digits| && j < 2 * MAX_SIZE ==>
      '0' <= digits[j] <= '9' && Nibble(a.data, j) == digits[j] as int - '0' as int
  }

  lemma DialsDigits(a: Address, digits: string, international: bool)
    requires Addresses(a, digits, international) && 1 <= |digits| <= 32
    ensures Dialled(ToStr(a)) == (if international then "00" else "") + digits
    ensures forall j: nat :: j < a.len ==> Nibble(a.data, j) < 10
  {
    hide Nibble, ToStr, Dialled;
    DialledAt(a);
    assert TOA_INTERNATIONAL == 0x91;
    var d := Dialled(ToStr(a));
    if international {
      assert d == "00" + digits;
    } else {
      assert d == "" + digits;
    }
  }

  /** The same by the standards alone: a number and user data that packs the septets of a text, in the
      default scheme, arrive as that number, behind "00" if it is international, and that text. */
  lemma BridgeDefault(
    msg: string, p: Submit, digits: string, international: bool, text: seq<byte>, vs: seq<nat>, buffer: seq<char>)
    requires p.Valid() && HexBytes(msg) == p.Bytes() && Addresses(p.to, digits, international)
    requires p.dcs == 0 && p.validity == []
    requires StandardSeptets(text, vs) && |text| == p.udl <= 160 && IsPacked(p.ud, 0, vs)
    requires Converted(msg).Some? ==> Encoded(buffer, Converted(msg).value.0, Converted(msg).value.1)
    ensures var number, m := (if international then "00" else "") + digits, AsChars(text);
      var n := PduLen(number, m);
      Converted(msg) == Some((number, m)) && n < 512 &&
      Decode(buffer[..n]) == Decoded("000000", m, 0, n / 2) && NumberSpec(buffer[..n], 56) == Some(number)
  {
    hide HexBytes, Nibble, CodingOf, IsPacked, TextSeptets, PduLen, Dialled, ToStr, AsChars, Converted, Decode,
      NumberSpec, Encoded, StandardSeptets, BaseText, Addresses;
    NumberFits(p, digits, international);
    DialsDigits(p.to, digits, international);
    SeptetsAre(text, vs);
    BridgePreserves(msg, p, text, buffer);
  }

  lemma NumberFits(p: Submit, digits: string, international: bool)
    requires p.Valid() && Addresses(p.to, digits, international)
    ensures |p.to.data| == MAX_SIZE && 1 <= p.to.len == |digits| <= 32
  {
  }

  /** A relative validity period is taken for the length of the user data: with the shortest one, the text
      that is converted is empty, whatever the message says. */
  lemma ValidityEmpties(msg: string, p: Submit)
    requires p.Valid() && HexBytes(msg) == p.Bytes() && Gsm7Scheme(p.dcs) && p.validity == [0]
    ensures Converted(msg) == Some((Dialled(ToStr(p.to)), ""))
  {
    hide HexBytes, Converted, CodingOf, Gsm7Scheme, Dialled, ToStr;
    CodingIs(p.dcs);
    var data := p.validity + [p.udl] + p.ud;
    assert ReadText(data, 0, false, CodingOf(p.dcs)) == Some([]);
    Converts(msg, p, []);
    assert AsChars([]) == "";
  }

  /** gsm_to_cdmapdu and the decoder one after the other: with memory the conversion does not fail, and
      the text arrives. */
  method Relay(heap: nat -> bool, msg: string, ghost p: Submit, ghost text: seq<byte>, hexpdu: array<char>)
    returns (done: bool, arrived: Decoded)
    requires hexpdu.Length == 512 && forall n :: heap(n)
    requires p.Valid() && HexBytes(msg) == p.Bytes() && forall j: nat :: j < p.to.len ==> Nibble(p.to.data, j) < 10
    requires Gsm7Scheme(p.dcs) && p.validity == [] && BaseText(text) && |text| <= 160 && |text| == p.udl
    requires IsPacked(p.ud, 0, TextSeptets(text))
    modifies hexpdu
    ensures done && arrived == Decoded("000000", AsChars(text), 0, PduLen(Dialled(ToStr(p.to)), AsChars(text)) / 2)
    ensures NumberSpec(CString(hexpdu[..]), 56) == Some(Dialled(ToStr(p.to)))
  {
    hide HexBytes, Nibble, CodingOf, Gsm7Scheme, BaseText, IsPacked, TextSeptets, PduLen, Dialled, ToStr, AsChars,
      Converted, Decode, NumberSpec, Encoded, CString;
    BridgePreserves(msg, p, text, hexpdu[..]);
    done := GsmToCdmaPdu(heap, msg, hexpdu);
    BridgePreserves(msg, p, text, hexpdu[..]);
    EncodedString(hexpdu[..], Dialled(ToStr(p.to)), AsChars(text));
    arrived := DecodeCdmaSms(CString(hexpdu[..]));
  }

  /** The buffer holds the message as a string. */
  lemma EncodedString(buffer: seq<char>, to: string, m: string)
    requires Encoded(buffer, to, m)
    ensures PduLen(to, m) < |buffer| && CString(buffer) == buffer[..PduLen(to, m)]
  {
    hide PduAt, PduLen;
    var n := PduLen(to, m);
    assert forall i :: 0 <= i < n ==> HexChar(buffer[..n][i]);
    StringHeld(buffer, buffer[..n]);
  }

  /** The same for texts of up to 127 7-bit characters in UCS2. */
  lemma BridgePreservesUcs2(msg: string, p: Submit, text: seq<byte>, buffer: seq<char>)
    requires p.Valid() && HexBytes(msg) == p.Bytes() && forall j: nat :: j < p.to.len ==> Nibble(p.to.data, j) < 10
    requires Ucs2Scheme(p.dcs) && (forall i :: 0 <= i < |text| ==> 0 < text[i] < 128) && 2 * |text| == p.udl
    requires p.validity == [] && SmsDeliver.Ucs2(text) <= p.ud
    ensures Converted(msg).Some? && Converted(msg).value == (Dialled(ToStr(p.to)), AsChars(text))
    ensures PduLen(Dialled(ToStr(p.to)), AsChars(text)) < 512
    ensures Encoded(buffer, Dialled(ToStr(p.to)), AsChars(text)) ==>
      var n := PduLen(Dialled(ToStr(p.to)), AsChars(text));
      Decode(buffer[..n]) == Decoded("000000", AsChars(text), 0, n / 2) &&
      NumberSpec(buffer[..n], 56) == Some(Dialled(ToStr(p.to)))
  {
    hide *;
    SchemesDiffer(p.dcs);
    CodingIs(p.dcs);
    Ucs2Reads(p, text);
    Arrives(msg, p, text, buffer);
  }

  lemma SchemesDiffer(dcs: byte)
    ensures !(Gsm7Scheme(dcs) && Ucs2Scheme(dcs))
  {
  }

  lemma Gsm7Text(p: Submit, text: seq<byte>)
    requires CodingOf(p.dcs) == Gsm7 && BaseText(text) && |text| == p.udl && IsPacked(p.ud, 0, TextSeptets(text))
    requires p.validity == []
    ensures ReadText(p.validity + [p.udl] + p.ud, 0, false, CodingOf(p.dcs)) == Some(text)
    ensures forall i :: 0 <= i < |text| ==> 0 < text[i] < 128
  {
    hide TextSeptets, PackedText, SeptetsText, IsPacked, CodingOf;
    BaseTextSeptets(text);
    PackedTextReads(p.ud, 0, TextSeptets(text), false);
    assert (p.validity + [p.udl] + p.ud)[1..] == p.ud;
    forall i | 0 <= i < |text|
      ensures 0 < text[i] < 128
    {
      assert BaseChar(text[i]);
    }
  }

  lemma {:induction false} Ucs2Prefix(text: seq<byte>, ud: seq<byte>)
    requires (forall i :: 0 <= i < |text| ==> 0 < text[i] < 128) && SmsDeliver.Ucs2(text) <= ud
    ensures Ucs2Text(ud, |text|) == Some(text)
  {
    if |text| > 0 {
      Ucs2Front(text);
      assert text == [text[0]] + text[1..];
      assert ud[..2] == SmsDeliver.Ucs2(text)[..2] && ud[2..2 * |text|] == SmsDeliver.Ucs2(text)[2..];
      Ucs2Prefix(text[1..], ud[2..]);
    }
  }

  lemma {:induction false} Ucs2Front(text: seq<byte>)
    requires |text| > 0
    ensures SmsDeliver.Ucs2(text) == [0, text[0]] + SmsDeliver.Ucs2(text[1..])
  {
    if |text| > 1 {
      var init := text[..|text| - 1];
      Ucs2Front(init);
      assert init[1..] == text[1..][..|text| - 2];
    }
  }

  lemma Ucs2Reads(p: Submit, text: seq<byte>)
    requires CodingOf(p.dcs) == Ucs2 && (forall i :: 0 <= i < |text| ==> 0 < text[i] < 128) && 2 * |text| == p.udl
    requires p.validity == [] && SmsDeliver.Ucs2(text) <= p.ud
    ensures ReadText(p.validity + [p.udl] + p.ud, 0, false, CodingOf(p.dcs)) == Some(text)
  {
    hide CodingOf, Ucs2Text, PackedText, SmsDeliver.Ucs2;
    Ucs2Prefix(text, p.ud);
    assert (p.validity + [p.udl] + p.ud)[1..] == p.ud;
  }

  lemma Arrives(msg: string, p: Submit, text: seq<byte>, buffer: seq<char>)
    requires p.Valid() && HexBytes(msg) == p.Bytes() && forall j: nat :: j < p.to.len ==> Nibble(p.to.data, j) < 10
    requires ReadText(p.validity + [p.udl] + p.ud, 0, false, CodingOf(p.dcs)) == Some(text)
    requires |text| <= 160 && forall i :: 0 <= i < |text| ==> 0 < text[i] < 128
    ensures Converted(msg).Some? && Converted(msg).value == (Dialled(ToStr(p.to)), AsChars(text))
    ensures PduLen(Dialled(ToStr(p.to)), AsChars(text)) < 512
    ensures Encoded(buffer, Dialled(ToStr(p.to)), AsChars(text)) ==>
      var n := PduLen(Dialled(ToStr(p.to)), AsChars(text));
      Decode(buffer[..n]) == Decoded("000000", AsChars(text), 0, n / 2) &&
      NumberSpec(buffer[..n], 56) == Some(Dialled(ToStr(p.to)))
  {
    hide HexBytes, ReadText, CodingOf, Converted, Encoded, Decode, NumberSpec, CString;
    Converts(msg, p, text);
    CStringEnds(AsChars(text), []);
    if Encoded(buffer, Dialled(ToStr(p.to)), AsChars(text)) {
      BridgeIff(msg, p, text, buffer);
    }
  }
}
