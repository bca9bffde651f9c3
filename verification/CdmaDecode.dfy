/**
  decode_cdma_sms (huawei-generic/sms.c) and what it makes of an encoded message.

  The decoder checks nothing: it trusts the counts and lengths it reads.  `None` and `Undefined`
  stand for the inputs on which it would read past the end of the digit string or not advance.
 */
module CdmaDecode {
  import opened Bits
  import opened Options
  import opened CdmaBits
  import opened CdmaSms

  /** `from` and `message` are the characters stored before the terminator; `stop` is the byte index
      at which the walk over the parameters ended. */
  datatype Decoded = Undefined | Decoded(from: string, message: string, vm: nat, stop: int)

  // ---------------------------------------------------------------- what is decoded

  /** `n` characters, each from a field of `width` bits, the fields `step` bits apart. */
  function Chars(s: string, pos: nat, step: nat, width: nat, n: nat): Option<string>
    decreases n
  {
    if n == 0 then Some("")
    else if pos + width > 4 * |s| then None
    else
      match Chars(s, pos + step, step, width, n - 1)
      case None => None
      case Some(rest) => Some([(GetBits(s, pos, width) % 256) as char] + rest)
  }

  /** The digits of an address parameter. */
  function Digits(s: string, pos: nat, n: nat): Option<string>
    decreases n
  {
    if n == 0 then Some("")
    else if pos + 4 > 4 * |s| then None
    else
      match Digits(s, pos + 4, n - 1)
      case None => None
      case Some(rest) => Some([DigitChar(GetBits(s, pos, 4) % 16)] + rest)
  }

  function NumberSpec(s: string, base: nat): Option<string> {
    if base + 10 > 4 * |s| then None else Digits(s, base + 10, GetBits(s, base + 2, 8))
  }

  /** The byte written with the two digits from `d`. */
  function ByteAt(s: string, d: nat): int
    requires d + 2 <= |s|
  {
    Hex2Int(s[d]) * 16 + Hex2Int(s[d + 1])
  }

  /** The text of a user data subparameter whose content starts at digit `d`, by its encoding. */
  function UserText(s: string, d: nat): Option<string> {
    if 4 * d + 13 > 4 * |s| then None
    else
      var encoding := GetBits(s, 4 * d, 5);
      var n := GetBits(s, 4 * d + 5, 8);
      if encoding == 2 || encoding == 3 then Chars(s, 4 * d + 13, 7, 7, n)
      else if encoding == 8 || encoding == 0 then Chars(s, 4 * d + 13, 8, 8, n)
      else if encoding == 4 then Chars(s, 4 * d + 8 + 13, 16, 8, n)
      else Some("bad SMS encoding")
  }

  datatype Bearer = Bearer(text: Option<string>, vm: nat, stop: int)

  /** The walk over the subparameters of bearer data that starts at digit `d`: the text appended so
      far (nothing stored yet is None) and the voice mail flags. */
  function BearerSpec(s: string, d: nat, length: int, i: nat, text: Option<string>, vm: nat): Option<Bearer>
    decreases length - i
  {
    if i >= length then Some(Bearer(text, vm, i))
    else if d + 2 * i + 4 > |s| then None
    else
      var code, sub := ByteAt(s, d + 2 * i), ByteAt(s, d + 2 * i + 2);
      if sub + 2 <= 0 then None
      else if code == 1 then
        match UserText(s, d + 2 * i + 4)
        case None => None
        case Some(t) => BearerSpec(s, d, length, i + sub + 2, Some(Stored(text, "") + t), vm)
      else if code == 11 && sub == 1 then
        if d + 2 * i + 6 > |s| then None
        else
          var msgs := Hex2Int(s[d + 2 * i + 4]) + 16 * Hex2Int(s[d + 2 * i + 5]);
          BearerSpec(s, d, length, i + sub + 2, text, if msgs != 0 then 0x11 else 1)
      else BearerSpec(s, d, length, i + sub + 2, text, vm)
  }

  function Stored(text: Option<string>, otherwise: string): string {
    match text case None => otherwise case Some(t) => t
  }

  function PduSpec(s: string, i: nat, from: string, message: string, vm: nat): Decoded
    decreases |s| - i
  {
    if 2 * i >= |s| then Decoded(from, message, vm, i)
    else if 2 * i + 4 > |s| then Undefined
    else
      var code, length := ByteAt(s, 2 * i), ByteAt(s, 2 * i + 2);
      if length + 2 <= 0 then Undefined
      else if code == 2 then
        match NumberSpec(s, 4 * (2 * i + 4))
        case None => Undefined
        case Some(no) => PduSpec(s, i + length + 2, no, message, vm)
      else if code == 8 then
        match BearerSpec(s, 2 * i + 4, length, 0, None, vm)
        case None => Undefined
        case Some(b) => PduSpec(s, i + length + 2, from, Stored(b.text, message), b.vm)
      else PduSpec(s, i + length + 2, from, message, vm)
  }

  function Decode(s: string): Decoded {
    PduSpec(s, 1, "000000", "UNKNOWN", 0)
  }

  // ---------------------------------------------------------------- the decoder's loops

  method DecodeNumber(s: string, base: nat) returns (no: Option<string>)
    ensures no == NumberSpec(s, base)
  {
    hide GetBits;
    if base + 10 > 4 * |s| { return None; }
    var ndigits := ReadBits(s, base + 2, 8);
    if Digits(s, base + 10, ndigits).Some? { PrependNothing(Digits(s, base + 10, ndigits).value); }
    var j, out := 0, "";
    ghost var all := Digits(s, base + 10, ndigits);
    while j < ndigits
      invariant 0 <= j <= ndigits
      invariant all == Prepend(out, Digits(s, base + 10 + j * 4, ndigits - j))
    {
      if base + 10 + j * 4 + 4 > 4 * |s| { return None; }
      var d := ReadBits(s, base + 10 + j * 4, 4);
      FieldBound(s, base + 10 + j * 4, 4);
      assert Pow2(4) == 16;
      PrependMore(out, [DigitChar(d)], Digits(s, base + 10 + j * 4 + 4, ndigits - j - 1));
      out := out + [DigitChar(d)];
      j := j + 1;
    }
    PrependNothing(out);
    return Some(out);
  }

  method DecodeChars(s: string, pos: nat, step: nat, width: nat, n: nat, before: string)
    returns (out: Option<string>)
    ensures out == Prepend(before, Chars(s, pos, step, width, n))
  {
    hide GetBits;
    var j, text := 0, before;
    var at: nat := pos;
    while j < n
      invariant 0 <= j <= n
      invariant Prepend(before, Chars(s, pos, step, width, n)) == Prepend(text, Chars(s, at, step, width, n - j))
    {
      if at + width > 4 * |s| { return None; }
      var v := ReadBits(s, at, width);
      PrependMore(text, [(v % 256) as char], Chars(s, at + step, step, width, n - j - 1));
      text := text + [(v % 256) as char];
      j, at := j + 1, at + step;
    }
    PrependNothing(text);
    return Some(text);
  }

  method DecodeBearerData(s: string, d: nat, length: int, vm0: nat) returns (b: Option<Bearer>)
    ensures b == BearerSpec(s, d, length, 0, None, vm0)
  {
    hide GetBits;
    var i, text, vm := 0, None, vm0;
    while i < length
      invariant i >= 0
      invariant BearerSpec(s, d, length, 0, None, vm0) == BearerSpec(s, d, length, i, text, vm)
    {
      if d + 2 * i + 4 > |s| { return None; }
      var code, sub := ByteAt(s, d + 2 * i), ByteAt(s, d + 2 * i + 2);
      if sub + 2 <= 0 { return None; }
      var content := d + 2 * i + 4;
      if code == 1 {
        if 4 * content + 13 > 4 * |s| { return None; }
        var encoding := ReadBits(s, 4 * content, 5);
        var nchars := ReadBits(s, 4 * content + 5, 8);
        var before := Stored(text, "");
        var more: Option<string>;
        if encoding == 2 || encoding == 3 {
          more := DecodeChars(s, 4 * content + 13, 7, 7, nchars, before);
        } else if encoding == 8 || encoding == 0 {
          more := DecodeChars(s, 4 * content + 13, 8, 8, nchars, before);
        } else if encoding == 4 {
          more := DecodeChars(s, 4 * content + 8 + 13, 16, 8, nchars, before);
        } else {
          more := Some(before + "bad SMS encoding");
        }
        if more.None? { return None; }
        text := more;
      } else if code == 11 && sub == 1 {
        if content + 2 > |s| { return None; }
        var msgs := Hex2Int(s[content]) + 16 * Hex2Int(s[content + 1]);
        vm := if msgs != 0 then 0x11 else 1;
      }
      i := i + sub + 2;
    }
    return Some(Bearer(text, vm, i));
  }

  method DecodeCdmaSms(s: string) returns (r: Decoded)
    ensures r == Decode(s)
  {
    hide GetBits;
    var i, from, message, vm := 1, "000000", "UNKNOWN", 0;
    while 2 * i < |s|
      invariant i >= 1
      invariant Decode(s) == PduSpec(s, i, from, message, vm)
      decreases |s| - i
    {
      if 2 * i + 4 > |s| { return Undefined; }
      var code, length := ByteAt(s, 2 * i), ByteAt(s, 2 * i + 2);
      if length + 2 <= 0 { return Undefined; }
      if code == 2 {
        var no := DecodeNumber(s, 4 * (2 * i + 4));
        if no.None? { return Undefined; }
        from := no.value;
      }
      if code == 8 {
        var b := DecodeBearerData(s, 2 * i + 4, length, vm);
        if b.None? { return Undefined; }
        message, vm := Stored(b.value.text, message), b.value.vm;
      }
      i := i + length + 2;
    }
    return Decoded(from, message, vm, i);
  }
}
