/** Bytes written as hex digits. */
module Hex {
  import opened Bytes

  /** gsm_hexchar_to_int0 (huawei-generic/gsm.c) and char2nib (huawei-generic/misc.c). */
  function HexValue(c: char): (v: nat)
    ensures v < 16
  {
    if '0' <= c <= '9' then c as int - '0' as int
    else if 'a' <= c <= 'f' then 10 + c as int - 'a' as int
    else if 'A' <= c <= 'F' then 10 + c as int - 'A' as int
    else 0
  }

  /** The bytes written in hex; the low half of an odd last one is zero. */
  function HexBytes(hex: string): (bytes: seq<byte>)
    ensures |bytes| == (|hex| + 1) / 2
  {
    if |hex| == 0 then []
    else if |hex| == 1 then [16 * HexValue(hex[0])]
    else [16 * HexValue(hex[0]) + HexValue(hex[1])] + HexBytes(hex[2..])
  }

  lemma {:induction false} HexByteAt(hex: string, k: nat)
    requires k < (|hex| + 1) / 2
    ensures HexBytes(hex)[k] == 16 * HexValue(hex[2 * k]) + if 2 * k + 1 < |hex| then HexValue(hex[2 * k + 1]) else 0
  {
    hide HexValue;
    if k > 0 {
      HexByteAt(hex[2..], k - 1);
    }
  }

  /** gsm_hex_to_bytes */
  method GsmHexToBytes(hex: string, dst: array<byte>)
    requires dst.Length == (|hex| + 1) / 2
    modifies dst
    ensures dst[..] == HexBytes(hex)
  {
    hide HexValue, HexBytes;
    var nn := 0;
    while nn < |hex| / 2
      invariant 0 <= nn <= |hex| / 2
      invariant forall k :: 0 <= k < nn ==> dst[k] == HexBytes(hex)[k]
    {
      HexByteAt(hex, nn);
      dst[nn] := 16 * HexValue(hex[2 * nn]) + HexValue(hex[2 * nn + 1]);
      nn := nn + 1;
    }
    if |hex| % 2 == 1 {
      HexByteAt(hex, nn);
      dst[nn] := 16 * HexValue(hex[2 * nn]);
    }
  }

  const HEX_DIGITS := "0123456789ABCDEF"

  /** The upper case digits of some bytes. */
  function HexOf(bytes: seq<byte>): (hex: string)
    ensures |hex| == 2 * |bytes|
  {
    if |bytes| == 0 then ""
    else [HEX_DIGITS[bytes[0] / 16], HEX_DIGITS[bytes[0] % 16]] + HexOf(bytes[1..])
  }

  lemma {:induction false} HexOfAt(bytes: seq<byte>, k: nat)
    requires k < |bytes|
    ensures HexOf(bytes)[2 * k] == HEX_DIGITS[bytes[k] / 16] && HexOf(bytes)[2 * k + 1] == HEX_DIGITS[bytes[k] % 16]
  {
    if k > 0 {
      HexOfAt(bytes[1..], k - 1);
    }
  }

  lemma HexDigitValue(v: nat)
    requires v < 16
    ensures HexValue(HEX_DIGITS[v]) == v
  {
    assert HEX_DIGITS[v] == if v < 10 then ('0' as int + v) as char else ('A' as int + v - 10) as char;
  }

  /** Bytes printed in hex are read back. */
  lemma {:induction false} HexRoundTrip(bytes: seq<byte>)
    ensures HexBytes(HexOf(bytes)) == bytes
  {
    if |bytes| > 0 {
      hide HexValue;
      HexRoundTrip(bytes[1..]);
      HexDigitValue(bytes[0] / 16);
      HexDigitValue(bytes[0] % 16);
      assert HexOf(bytes)[2..] == HexOf(bytes[1..]);
    }
  }

  /** A digit for a value, in upper or lower case. */
  predicate IsDigitFor(c: char, v: nat) {
    v < 16 && (c == "0123456789abcdef"[v] || c == "0123456789ABCDEF"[v])
  }

  lemma DigitForValue(c: char, v: nat)
    requires IsDigitFor(c, v)
    ensures HexValue(c) == v
  {
    var lower, upper := "0123456789abcdef", "0123456789ABCDEF";
    assert v < 10 ==> lower[v] as int == upper[v] as int == '0' as int + v;
    assert v >= 10 ==> lower[v] as int == 'a' as int + v - 10 && upper[v] as int == 'A' as int + v - 10;
  }

  /** Any digits for the two halves of each byte, in either case and also mixed, are read as the bytes. */
  lemma HexReads(hex: string, bytes: seq<byte>)
    requires |hex| == 2 * |bytes|
    requires forall k :: 0 <= k < |bytes| ==>
      IsDigitFor(hex[2 * k], bytes[k] / 16) && IsDigitFor(hex[2 * k + 1], bytes[k] % 16)
    ensures HexBytes(hex) == bytes
  {
    hide HexValue, HexBytes, IsDigitFor;
    forall k | 0 <= k < |bytes|
      ensures HexBytes(hex)[k] == bytes[k]
    {
      HexByteAt(hex, k);
      DigitForValue(hex[2 * k], bytes[k] / 16);
      DigitForValue(hex[2 * k + 1], bytes[k] % 16);
    }
  }
}
