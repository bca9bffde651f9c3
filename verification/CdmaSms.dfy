/**
  The CDMA point-to-point SMS codec (huawei-generic/sms.c): layout of the transport message of
  3GPP2 C.S0015 section 3.4 and of the bearer data of section 4.5, the encoder that ORs it into a
  buffer of '0' digits, and the decoder that walks both levels of parameters.
 */
module CdmaSms {
  import opened Bits
  import opened CdmaBits

  // ---------------------------------------------------------------- digits and lengths

  /** decode_table[d] */
  function DigitChar(d: nat): char
    requires d < 16
  {
    if 1 <= d <= 9 then ('0' as int + d) as char
    else if d == 10 then '0' else if d == 11 then '*' else if d == 12 then '#' else '.'
  }

  /** The smallest index of a character in decode_table; 0 when it is not there. */
  function DigitCode(c: char): (d: nat)
    ensures d < 16
  {
    if '1' <= c <= '9' then c as int - '0' as int
    else if c == '0' then 10 else if c == '*' then 11 else if c == '#' then 12 else 0
  }

  /** The digits of table 2.7.1.3.2.4-4 of 3GPP2 C.S0005: 1 to 9 are themselves, then come 0, * and #. */
  lemma DigitsAre(d: nat)
    ensures 1 <= d <= 9 ==> DigitChar(d) == "0123456789"[d] && DigitCode("0123456789"[d]) == d
    ensures DigitChar(10) == '0' && DigitChar(11) == '*' && DigitChar(12) == '#'
    ensures DigitCode('0') == 10 && DigitCode('*') == 11 && DigitCode('#') == 12
  {
  }

  /** The characters a number can be made of. */
  predicate DialChar(c: char) {
    '0' <= c <= '9' || c == '*' || c == '#' || c == '.'
  }

  method EncodeDigit(d: char) returns (i: nat)
    ensures i == DigitCode(d)
  {
    i := 0;
    while i < 16
      invariant i <= 16
      invariant forall k: nat :: k < i ==> DigitChar(k) != d
    {
      if DigitChar(i) == d {
        assert 0 < i ==> DigitChar(0) != d;
        return;
      }
      i := i + 1;
    }
    assert DialChar(d) ==> DigitChar(DigitCode(d)) == d;
    i := 0;
  }

  /** Bytes of a number parameter: 10 bits of header and 4 for each digit. */
  function NumberLen(n: nat): nat { (10 + n * 4 + 7) / 8 }

  /** Bytes of the user data subparameter, with its code and length. */
  function UserLen(n: nat): nat { (29 + 7 * n + 7) / 8 }

  /** Bytes of the bearer data: message id, user data, priority and display mode. */
  function BearerLen(n: nat): nat { 5 + UserLen(n) + 6 }

  /** Digits of the whole message. */
  function PduLen(to: string, m: string): nat {
    24 + 2 * NumberLen(|to|) + 2 * BearerLen(|m|)
  }

  function CharSum(m: string): nat {
    if m == "" then 0 else CharSum(m[..|m| - 1]) + m[|m| - 1] as int
  }

  // ---------------------------------------------------------------- layout

  /** No bit from `from` on is set. */
  ghost predicate ZeroFrom(s: seq<char>, from: nat) {
    forall p: nat, k: nat {:trigger GetBits(s, p, k)} :: from <= p && p + k <= 4 * |s| ==> GetBits(s, p, k) == 0
  }

  /** Every field that ends by bit `upto` is the same in both. */
  ghost predicate SameUpTo(s: seq<char>, t: seq<char>, upto: nat) {
    |s| == |t| &&
    forall p: nat, k: nat {:trigger GetBits(t, p, k)} ::
      p + k <= upto && p + k <= 4 * |t| ==> GetBits(t, p, k) == GetBits(s, p, k)
  }

  /** Address parameter of section 3.4.3.3: digit mode and number mode 0, count, digits, padding. */
  ghost predicate NumberAt(s: seq<char>, base: nat, no: string)
  {
    base + 8 * NumberLen(|no|) <= 4 * |s| &&
    GetBits(s, base, 2) == 0 &&
    GetBits(s, base + 2, 8) == |no| % 256 &&
    (forall j {:trigger no[j]} :: 0 <= j < |no| ==> GetBits(s, base + 10 + j * 4, 4) == DigitCode(no[j])) &&
    GetBits(s, base + 10 + |no| * 4, 8 * NumberLen(|no|) - (10 + |no| * 4)) == 0
  }

  /** User data subparameter of section 4.5.2 in 7-bit ASCII. */
  ghost predicate UserDataAt(s: seq<char>, base: nat, m: string)
  {
    base + 8 * UserLen(|m|) <= 4 * |s| &&
    GetBits(s, base, 8) == 1 &&
    GetBits(s, base + 8, 8) == (UserLen(|m|) - 2) % 256 &&
    GetBits(s, base + 16, 5) == 2 &&
    GetBits(s, base + 21, 8) == |m| % 256 &&
    (forall j {:trigger m[j]} :: 0 <= j < |m| ==> GetBits(s, base + 29 + j * 7, 7) == m[j] as int % 128) &&
    GetBits(s, base + 29 + |m| * 7, 8 * UserLen(|m|) - (29 + |m| * 7)) == 0
  }

  /** Message identifier of section 4.5.1: type 2 (submit), the sum of the text as the id. */
  ghost predicate MessageIdAt(s: seq<char>, base: nat, m: string)
  {
    base + 40 <= 4 * |s| &&
    GetBits(s, base, 8) == 0 && GetBits(s, base + 8, 8) == 3 &&
    GetBits(s, base + 16, 4) == 2 && GetBits(s, base + 20, 16) == CharSum(m) % 65536 &&
    GetBits(s, base + 36, 4) == 0
  }

  /** Two more subparameters with a zero byte each: priority (8) and message display mode (13). */
  ghost predicate TailAt(s: seq<char>, base: nat)
  {
    base + 48 <= 4 * |s| &&
    GetBits(s, base, 8) == 8 && GetBits(s, base + 8, 8) == 1 && GetBits(s, base + 16, 8) == 0 &&
    GetBits(s, base + 24, 8) == 13 && GetBits(s, base + 32, 8) == 1 && GetBits(s, base + 40, 8) == 0
  }

  ghost predicate BearerAt(s: seq<char>, base: nat, m: string)
  {
    MessageIdAt(s, base, m) && UserDataAt(s, base + 40, m) && TailAt(s, base + 40 + 8 * UserLen(|m|))
  }

  /** Point-to-point message of section 3.4.2.1 up to the destination address: message type 0,
      teleservice 0x1002. */
  ghost predicate HeaderAt(s: seq<char>)
  {
    40 <= 4 * |s| &&
    GetBits(s, 0, 8) == 0 && GetBits(s, 8, 8) == 0 && GetBits(s, 16, 8) == 2 && GetBits(s, 24, 16) == 0x1002
  }

  /** A parameter: code, length, content elsewhere. */
  ghost predicate ParamAt(s: seq<char>, base: nat, code: nat, len: nat)
  {
    base + 16 <= 4 * |s| && GetBits(s, base, 8) == code && GetBits(s, base + 8, 8) == len % 256
  }

  /** The whole message: header, destination address (4), bearer reply option (6), bearer data (8). */
  ghost predicate PduAt(s: seq<char>, to: string, m: string)
  {
    var reply := 56 + 8 * NumberLen(|to|);
    HeaderAt(s) &&
    ParamAt(s, 40, 4, NumberLen(|to|)) && NumberAt(s, 56, to) &&
    ParamAt(s, reply, 6, 1) && reply + 24 <= 4 * |s| && GetBits(s, reply + 16, 8) == 0 &&
    ParamAt(s, reply + 24, 8, BearerLen(|m|)) && BearerAt(s, reply + 40, m)
  }

  // ---------------------------------------------------------------- encoder

  lemma Literals()
    ensures Pow2(2) == 4 && Pow2(4) == 16 && Pow2(5) == 32 && Pow2(7) == 128 && Pow2(8) == 256
    ensures Pow2(16) == 65536 && Pow2(24) == 16777216
  {
  }

  /** A field of three bytes read byte by byte. */
  lemma ThreeBytes(s: seq<char>, p: nat)
    requires p + 24 <= 4 * |s|
    ensures GetBits(s, p, 24) == GetBits(s, p, 8) * 65536 + GetBits(s, p + 8, 8) * 256 + GetBits(s, p + 16, 8)
    ensures GetBits(s, p, 24) == GetBits(s, p, 8) * 65536 + GetBits(s, p + 8, 16)
    ensures GetBits(s, p, 8) < 256 && GetBits(s, p + 8, 8) < 256 && GetBits(s, p + 16, 8) < 256
    ensures GetBits(s, p + 8, 16) < 65536
  {
    Literals();
    FieldBound(s, p, 8);
    FieldBound(s, p + 8, 8);
    FieldBound(s, p + 16, 8);
    FieldBound(s, p + 8, 16);
    SplitBits(s, p, 8, 16);
    SplitBits(s, p + 8, 8, 8);
  }

  lemma AllZero(s: seq<char>)
    requires forall i :: 0 <= i < |s| ==> s[i] == '0'
    ensures AllHex(s) && ZeroFrom(s, 0)
  {
    forall p: nat, k: nat | p + k <= 4 * |s|
      ensures GetBits(s, p, k) == 0
    {
      ZeroField(s, p, k);
    }
  }

  lemma {:induction false} ZeroField(s: seq<char>, p: nat, k: nat)
    requires p + k <= 4 * |s|
    requires forall i :: 0 <= i < |s| ==> s[i] == '0'
    ensures GetBits(s, p, k) == 0
  {
    if k > 0 {
      ZeroField(s, p, k - 1);
    }
  }

  lemma SplitZero(s: seq<char>)
    requires 4 <= |s| && GetBits(s, 0, 16) == 0
    ensures GetBits(s, 0, 8) == 0 && GetBits(s, 8, 8) == 0
  {
    Literals();
    SplitBits(s, 0, 8, 8);
  }

  /** A field read in a prefix is the field read in the whole. */
  lemma {:induction false} PrefixBits(s: seq<char>, end: nat, p: nat, k: nat)
    requires end <= |s| && p + k <= 4 * end
    ensures GetBits(s[..end], p, k) == GetBits(s, p, k)
  {
    if k > 0 {
      PrefixBits(s, end, p, k - 1);
    }
  }

  lemma CutPdu(s: seq<char>, end: nat, to: string, m: string)
    requires end == PduLen(to, m) && end <= |s| && AllHex(s) && PduAt(s, to, m)
    ensures AllHex(s[..end]) && PduAt(s[..end], to, m)
  {
    hide GetBits;
    forall p: nat, k: nat | p + k <= 4 * end
      ensures GetBits(s[..end], p, k) == GetBits(s, p, k)
    {
      PrefixBits(s, end, p, k);
    }
  }

  /** The loop of the digits: four bits for each, behind the header. */
  method EncodeDigits(msg: array<char>, off: nat, no: string)
    requires 4 * off + 8 * NumberLen(|no|) <= 4 * msg.Length
    requires AllHex(msg[..]) && ZeroFrom(msg[..], 4 * off + 10)
    modifies msg
    ensures AllHex(msg[..]) && SameUpTo(old(msg[..]), msg[..], 4 * off + 10)
    ensures ZeroFrom(msg[..], 4 * off + 10 + |no| * 4)
    ensures forall j {:trigger no[j]} ::
      0 <= j < |no| ==> GetBits(msg[..], 4 * off + 10 + j * 4, 4) == DigitCode(no[j])
  {
    hide GetBits, Pow2;
    Literals();
    var i := 0;
    while i < |no|
      invariant 0 <= i <= |no|
      invariant AllHex(msg[..])
      invariant forall j {:trigger no[j]} ::
        0 <= j < i ==> GetBits(msg[..], 4 * off + 10 + j * 4, 4) == DigitCode(no[j])
      invariant SameUpTo(old(msg[..]), msg[..], 4 * off + 10) && ZeroFrom(msg[..], 4 * off + 10 + i * 4)
    {
      ghost var before := msg[..];
      var d := EncodeDigit(no[i]);
      SetBits(msg, off, 10 + i * 4, 4, d, 16);
      forall j | 0 <= j < i
        ensures GetBits(msg[..], 4 * off + 10 + j * 4, 4) == DigitCode(no[j])
      {
        assert GetBits(before, 4 * off + 10 + j * 4, 4) == DigitCode(no[j]);
      }
      i := i + 1;
    }
  }

  method EncodeNumber(msg: array<char>, off: nat, no: string) returns (len: nat)
    requires 4 * off + 8 * NumberLen(|no|) <= 4 * msg.Length
    requires AllHex(msg[..]) && ZeroFrom(msg[..], 4 * off)
    modifies msg
    ensures len == NumberLen(|no|)
    ensures AllHex(msg[..]) && NumberAt(msg[..], 4 * off, no)
    ensures SameUpTo(old(msg[..]), msg[..], 4 * off) && ZeroFrom(msg[..], 4 * off + 8 * len)
  {
    hide GetBits, Pow2;
    Literals();
    SetBits(msg, off, 0, 2, 0, 4);
    SetBits(msg, off, 2, 8, |no|, 256);
    EncodeDigits(msg, off, no);
    len := (10 + |no| * 4 + 7) / 8;
  }

  /** The loop of the text: seven bits for each character, behind the bits before. */
  method EncodeChars(msg: array<char>, off: nat, data: string) returns (b: nat)
    requires 4 * off + 8 * UserLen(|data|) <= 4 * msg.Length
    requires AllHex(msg[..]) && ZeroFrom(msg[..], 4 * off + 29)
    requires forall i :: 0 <= i < |data| ==> data[i] as int < 256
    modifies msg
    ensures b == 29 + |data| * 7
    ensures AllHex(msg[..]) && SameUpTo(old(msg[..]), msg[..], 4 * off + 29) && ZeroFrom(msg[..], 4 * off + b)
    ensures forall j {:trigger data[j]} ::
      0 <= j < |data| ==> GetBits(msg[..], 4 * off + 29 + j * 7, 7) == data[j] as int % 128
  {
    hide GetBits, Pow2;
    Literals();
    b := 29;
    var i := 0;
    while i < |data|
      invariant 0 <= i <= |data| && b == 29 + i * 7
      invariant AllHex(msg[..])
      invariant forall j {:trigger data[j]} ::
        0 <= j < i ==> GetBits(msg[..], 4 * off + 29 + j * 7, 7) == data[j] as int % 128
      invariant SameUpTo(old(msg[..]), msg[..], 4 * off + 29) && ZeroFrom(msg[..], 4 * off + b)
    {
      SetBits(msg, off, b, 7, data[i] as int, 128);
      b := b + 7;
      i := i + 1;
    }
  }

  /** The user data subparameter, written after the message id; its length byte comes last. */
  method EncodeUserData(msg: array<char>, off: nat, data: string) returns (len: nat)
    requires 4 * off + 8 * UserLen(|data|) <= 4 * msg.Length
    requires AllHex(msg[..]) && ZeroFrom(msg[..], 4 * off)
    requires forall i :: 0 <= i < |data| ==> data[i] as int < 256
    modifies msg
    ensures len == UserLen(|data|)
    ensures AllHex(msg[..]) && UserDataAt(msg[..], 4 * off, data)
    ensures SameUpTo(old(msg[..]), msg[..], 4 * off) && ZeroFrom(msg[..], 4 * off + 8 * len)
  {
    hide GetBits, Pow2;
    Literals();
    SetBits(msg, off, 0, 8, 1, 256);
    SetBits(msg, off, 16, 5, 2, 32);
    SetBits(msg, off, 21, 8, |data|, 256);
    var b := EncodeChars(msg, off, data);
    SetBits(msg, off, 8, 8, (b + 7) / 8 - 2, 256);
    len := (b + 7) / 8;
  }

  method EncodeMessageId(msg: array<char>, off: nat, data: string)
    requires 4 * off + 40 <= 4 * msg.Length
    requires AllHex(msg[..]) && ZeroFrom(msg[..], 4 * off)
    modifies msg
    ensures AllHex(msg[..]) && MessageIdAt(msg[..], 4 * off, data)
    ensures SameUpTo(old(msg[..]), msg[..], 4 * off) && ZeroFrom(msg[..], 4 * off + 40)
  {
    hide GetBits, Pow2;
    Literals();
    var msgid := 0;
    var i := 0;
    while i < |data|
      invariant 0 <= i <= |data| && msgid == CharSum(data[..i])
    {
      assert data[..i + 1][..i] == data[..i];
      msgid := msgid + data[i] as int;
      i := i + 1;
    }
    assert data[..|data|] == data;
    SetBits(msg, off, 0, 8, 0, 256);
    SetBits(msg, off, 8, 8, 3, 256);
    SetBits(msg, off, 16, 4, 2, 16);
    SetBits(msg, off, 20, 16, msgid, 65536);
  }

  method EncodeTail(msg: array<char>, off: nat)
    requires 4 * off + 48 <= 4 * msg.Length
    requires AllHex(msg[..]) && ZeroFrom(msg[..], 4 * off)
    modifies msg
    ensures AllHex(msg[..]) && TailAt(msg[..], 4 * off)
    ensures SameUpTo(old(msg[..]), msg[..], 4 * off) && ZeroFrom(msg[..], 4 * off + 48)
  {
    hide GetBits, Pow2;
    Literals();
    SetBits(msg, off, 0, 24, 0x80100, 16777216);
    ThreeBytes(msg[..], 4 * off);
    SetBits(msg, off, 24, 24, 0x0D0100, 16777216);
    ThreeBytes(msg[..], 4 * off + 24);
  }

  /** What is laid out before `upto` survives any write after it. */
  lemma Survives(s: seq<char>, t: seq<char>, upto: nat)
    requires SameUpTo(s, t, upto)
    ensures forall base: nat, no: string ::
      base + 8 * NumberLen(|no|) <= upto && NumberAt(s, base, no) ==> NumberAt(t, base, no)
    ensures forall base: nat, m: string ::
      base + 8 * UserLen(|m|) <= upto && UserDataAt(s, base, m) ==> UserDataAt(t, base, m)
    ensures forall base: nat, m: string :: base + 40 <= upto && MessageIdAt(s, base, m) ==> MessageIdAt(t, base, m)
    ensures 40 <= upto && HeaderAt(s) ==> HeaderAt(t)
  {
    hide GetBits;
  }

  method EncodeBearerData(msg: array<char>, off: nat, data: string) returns (len: nat)
    requires 4 * off + 8 * BearerLen(|data|) <= 4 * msg.Length
    requires AllHex(msg[..]) && ZeroFrom(msg[..], 4 * off)
    requires forall i :: 0 <= i < |data| ==> data[i] as int < 256
    modifies msg
    ensures len == BearerLen(|data|)
    ensures AllHex(msg[..]) && BearerAt(msg[..], 4 * off, data)
    ensures SameUpTo(old(msg[..]), msg[..], 4 * off) && ZeroFrom(msg[..], 4 * off + 8 * len)
  {
    hide GetBits;
    EncodeMessageId(msg, off, data);
    ghost var s1 := msg[..];
    var userLen := EncodeUserData(msg, off + 10, data);
    ghost var s2 := msg[..];
    Survives(s1, s2, 4 * off + 40);
    var tail := off + 10 + 2 * userLen;
    EncodeTail(msg, tail);
    Survives(s2, msg[..], 4 * tail);
    len := (tail + 12 - off) / 2;
  }

  method EncodeHeader(pdu: array<char>)
    requires pdu.Length == 512
    modifies pdu
    ensures AllHex(pdu[..]) && HeaderAt(pdu[..]) && ZeroFrom(pdu[..], 40)
  {
    hide GetBits, Pow2;
    Literals();
    var i := 0;
    while i < 512
      invariant 0 <= i <= 512
      invariant forall k :: 0 <= k < i ==> pdu[k] == '0'
    {
      pdu[i] := '0';
      i := i + 1;
    }
    AllZero(pdu[..]);
    SetBits(pdu, 0, 0, 16, 0, 65536);
    SplitZero(pdu[..]);
    SetBits(pdu, 0, 16, 24, 0x021002, 16777216);
    ThreeBytes(pdu[..], 16);
  }

  /** The destination address parameter; its length byte is written after its content. */
  method EncodeDestination(pdu: array<char>, off: nat, to: string) returns (len: nat)
    requires 4 * off + 16 + 8 * NumberLen(|to|) <= 4 * pdu.Length
    requires AllHex(pdu[..]) && ZeroFrom(pdu[..], 4 * off)
    modifies pdu
    ensures len == NumberLen(|to|)
    ensures AllHex(pdu[..]) && ParamAt(pdu[..], 4 * off, 4, len) && NumberAt(pdu[..], 4 * off + 16, to)
    ensures SameUpTo(old(pdu[..]), pdu[..], 4 * off) && ZeroFrom(pdu[..], 4 * off + 16 + 8 * len)
  {
    hide GetBits, Pow2;
    Literals();
    SetBits(pdu, off, 0, 8, 4, 256);
    len := EncodeNumber(pdu, off + 4, to);
    SetBits(pdu, off, 8, 8, len, 256);
  }

  /** The bearer reply option and bearer data parameters. */
  method EncodeBearer(pdu: array<char>, off: nat, message: string) returns (len: nat)
    requires 4 * off + 40 + 8 * BearerLen(|message|) <= 4 * pdu.Length
    requires AllHex(pdu[..]) && ZeroFrom(pdu[..], 4 * off)
    requires forall i :: 0 <= i < |message| ==> message[i] as int < 256
    modifies pdu
    ensures len == BearerLen(|message|)
    ensures AllHex(pdu[..]) && ParamAt(pdu[..], 4 * off, 6, 1) && GetBits(pdu[..], 4 * off + 16, 8) == 0
    ensures ParamAt(pdu[..], 4 * off + 24, 8, len) && BearerAt(pdu[..], 4 * off + 40, message)
    ensures SameUpTo(old(pdu[..]), pdu[..], 4 * off)
  {
    hide GetBits, Pow2;
    Literals();
    SetBits(pdu, off, 0, 24, 0x060100, 16777216);
    ThreeBytes(pdu[..], 4 * off);
    SetBits(pdu, off + 6, 0, 8, 8, 256);
    len := EncodeBearerData(pdu, off + 10, message);
    SetBits(pdu, off + 6, 8, 8, len, 256);
  }

  /** encode_cdma_sms: the first PduLen digits of the buffer hold the message, a NUL follows. */
  method EncodeCdmaSms(pdu: array<char>, to: string, message: string)
    requires pdu.Length == 512 && PduLen(to, message) < 512
    requires forall i :: 0 <= i < |message| ==> message[i] as int < 256
    modifies pdu
    ensures AllHex(pdu[..PduLen(to, message)]) && PduAt(pdu[..PduLen(to, message)], to, message)
    ensures pdu[PduLen(to, message)] == '\0'
  {
    hide GetBits;
    EncodeHeader(pdu);
    ghost var s1 := pdu[..];
    var length := EncodeDestination(pdu, 10, to);
    ghost var s2 := pdu[..];
    Survives(s1, s2, 40);
    var reply := 14 + 2 * length;
    length := EncodeBearer(pdu, reply, message);
    ghost var full := pdu[..];
    Survives(s2, full, 4 * reply);
    var end := reply + 10 + 2 * length;
    pdu[end] := '\0';
    assert pdu[..end] == full[..end];
    CutPdu(full, end, to, message);
  }
}
