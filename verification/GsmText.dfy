/**
  The GSM default alphabet and the septet text codec (huawei-generic/gsm.c).

  Text is a sequence of bytes below 128: utf8_next does not advance over a continuation byte, so
  the loops below do not end on multi-byte text.
 */
module GsmText {
  import opened Bits
  import opened Options
  import opened Bytes
  import opened Septets

  const ESCAPE: nat := 0x1b

  predicate Ascii(text: seq<byte>) {
    forall i :: 0 <= i < |text| ==> text[i] < 128
  }

  // ---------------------------------------------------------------- alphabet

  /** gsm7bits_to_unicode[nn] */
  function ToUnicode(nn: nat): nat
    requires nn < 128
  {
    if 32 <= nn <= 35 || 37 <= nn <= 63 || 65 <= nn <= 90 || 97 <= nn <= 122 then nn
    else match nn
      case 0 => '@' as int case 1 => 0xa3 case 2 => '$' as int case 3 => 0xa5
      case 4 => 0xe8 case 5 => 0xe9 case 6 => 0xf9 case 7 => 0xec
      case 8 => 0xf2 case 9 => 0xc7 case 10 => 10 case 11 => 0xd8
      case 12 => 0xf8 case 13 => 13 case 14 => 0xc5 case 15 => 0xe5
      case 16 => 0x394 case 17 => '_' as int case 18 => 0x3a6 case 19 => 0x393
      case 20 => 0x39b case 21 => 0x3a9 case 22 => 0x3a0 case 23 => 0x3a8
      case 24 => 0x3a3 case 25 => 0x398 case 26 => 0x39e case 27 => 0
      case 28 => 0xc6 case 29 => 0xe6 case 30 => 0xdf case 31 => 0xc9
      case 36 => 0xa4 case 64 => 0xa1
      case 91 => 0xc4 case 92 => 0xd6 case 93 => 0x147 case 94 => 0xdc case 95 => 0xa7 case 96 => 0xbf
      case 123 => 0xe4 case 124 => 0xf6 case 125 => 0xf1 case 126 => 0xfc case _ => 0xe0
  }

  /** gsm7bits_extend_to_unicode[nn] */
  function ExtendToUnicode(nn: nat): nat
    requires nn < 128
  {
    match nn
      case 10 => 12 case 20 => '^' as int case 40 => '{' as int case 41 => '}' as int case 47 => '\\' as int
      case 60 => '[' as int case 61 => '~' as int case 62 => ']' as int case 64 => '|' as int
      case 101 => 0x20ac case _ => 0
  }

  /** The first index from `nn` on whose entry is `unicode`, else None. */
  function Find(unicode: nat, nn: nat): (r: Option<nat>)
    requires nn <= 128
    ensures r.Some? ==> nn <= r.value < 128 && ToUnicode(r.value) == unicode
    decreases 128 - nn
  {
    if nn == 128 then None else if ToUnicode(nn) == unicode then Some(nn) else Find(unicode, nn + 1)
  }

  function FindExtend(unicode: nat, nn: nat): (r: Option<nat>)
    requires nn <= 128
    ensures r.Some? ==> nn <= r.value < 128 && ExtendToUnicode(r.value) == unicode
    decreases 128 - nn
  {
    if nn == 128 then None else if ExtendToUnicode(nn) == unicode then Some(nn) else FindExtend(unicode, nn + 1)
  }

  /** unichar_to_gsm7: the first entry of the table that is the character, if there is one. */
  method UnicharToGsm7(unicode: nat) returns (r: Option<nat>)
    ensures r == Find(unicode, 0)
    ensures r.Some? ==> r.value < 128 && ToUnicode(r.value) == unicode
    ensures r.Some? ==> forall k :: 0 <= k < r.value ==> ToUnicode(k) != unicode
    ensures r.None? ==> forall k :: 0 <= k < 128 ==> ToUnicode(k) != unicode
  {
    hide ToUnicode;
    var nn := 0;
    while nn < 128
      invariant nn <= 128 && Find(unicode, 0) == Find(unicode, nn)
      invariant forall k :: 0 <= k < nn ==> ToUnicode(k) != unicode
    {
      if ToUnicode(nn) == unicode { return Some(nn); }
      nn := nn + 1;
    }
    return None;
  }

  /** unichar_to_gsm7_extend */
  method UnicharToGsm7Extend(unicode: nat) returns (r: Option<nat>)
    ensures r == FindExtend(unicode, 0)
    ensures r.Some? ==> r.value < 128 && ExtendToUnicode(r.value) == unicode
    ensures r.Some? ==> forall k :: 0 <= k < r.value ==> ExtendToUnicode(k) != unicode
    ensures r.None? ==> forall k :: 0 <= k < 128 ==> ExtendToUnicode(k) != unicode
  {
    hide ExtendToUnicode;
    var nn := 0;
    while nn < 128
      invariant nn <= 128 && FindExtend(unicode, 0) == FindExtend(unicode, nn)
      invariant forall k :: 0 <= k < nn ==> ExtendToUnicode(k) != unicode
    {
      if ExtendToUnicode(nn) == unicode { return Some(nn); }
      nn := nn + 1;
    }
    return None;
  }

  lemma {:induction false} FindExtendFrom(unicode: nat, at: nat, nn: nat)
    requires nn <= at < 128 && ExtendToUnicode(at) == unicode
    ensures FindExtend(unicode, nn).Some?
    decreases at - nn
  {
    hide ExtendToUnicode;
    if nn < at && ExtendToUnicode(nn) != unicode {
      FindExtendFrom(unicode, at, nn + 1);
    }
  }

  lemma NoBracket(nn: nat)
    requires nn < 128
    ensures ToUnicode(nn) != '[' as int && ExtendToUnicode(60) == '[' as int
  {
  }

  /** An opening bracket is an extension character. */
  lemma BracketExtends()
    ensures Find('[' as int, 0).None? && FindExtend('[' as int, 0).Some?
  {
    hide ToUnicode, ExtendToUnicode, Find;
    NoBracket(60);
    FindExtendFrom('[' as int, 60, 0);
    if Find('[' as int, 0).Some? { NoBracket(Find('[' as int, 0).value); }
  }

  /** A character of the base table; NUL is not one, although the escape entry holds it. */
  predicate BaseChar(c: byte) {
    0 < c < 128 && Find(c, 0).Some?
  }

  predicate BaseText(text: seq<byte>) {
    forall i :: 0 <= i < |text| ==> BaseChar(text[i])
  }

  // ---------------------------------------------------------------- text to septets

  /** The septets of one character: base table, else escape and extension table, else a space. */
  function CharSeptets(c: nat): (vs: seq<nat>)
    ensures AllSeptets(vs) && 1 <= |vs| <= 2
  {
    if Find(c, 0).Some? then [Find(c, 0).value]
    else if FindExtend(c, 0).Some? then [ESCAPE, FindExtend(c, 0).value]
    else [0x20]
  }

  function TextSeptets(text: seq<byte>): (vs: seq<nat>)
    ensures AllSeptets(vs)
  {
    if |text| == 0 then [] else CharSeptets(text[0]) + TextSeptets(text[1..])
  }

  lemma NoText()
    ensures TextSeptets([]) == []
  {
  }

  lemma TextStep(text: seq<byte>, p: nat)
    requires p < |text|
    ensures TextSeptets(text[p..]) == CharSeptets(text[p]) + TextSeptets(text[p + 1..])
  {
    hide CharSeptets;
    assert text[p..][1..] == text[p + 1..];
  }

  // ---------------------------------------------------------------- the standard's alphabet

  /** The default alphabet of section 6.2.1 of 3GPP TS 23.038, row by row; 0 is the escape. */
  function StandardCharacter(nn: nat): nat
    requires nn < 128
  {
    if nn < 0x10 then [0x40, 0xa3, 0x24, 0xa5, 0xe8, 0xe9, 0xf9, 0xec, 0xf2, 0xc7, 10, 0xd8, 0xf8, 13, 0xc5, 0xe5][nn]
    else if nn < 0x20 then
      [0x394, 0x5f, 0x3a6, 0x393, 0x39b, 0x3a9, 0x3a0, 0x3a8,
       0x3a3, 0x398, 0x39e, 0, 0xc6, 0xe6, 0xdf, 0xc9][nn - 0x10]
    else if nn == 0x24 then 0xa4
    else if nn == 0x40 then 0xa1
    else if 0x5b <= nn <= 0x60 then [0xc4, 0xd6, 0xd1, 0xdc, 0xa7, 0xbf][nn - 0x5b]
    else if 0x7b <= nn then [0xe4, 0xf6, 0xf1, 0xfc, 0xe0][nn - 0x7b]
    else nn
  }

  /** The table is that alphabet but for one letter: where it has N with tilde, the code has N with caron. */
  lemma AlphabetIff(nn: nat)
    requires nn < 128
    ensures ToUnicode(nn) == StandardCharacter(nn) <==> nn != 0x5d
    ensures ToUnicode(0x5d) == 0x147 && StandardCharacter(0x5d) == 0xd1
  {
    if nn < 0x10 {
      assert nn == 0 || nn == 1 || nn == 2 || nn == 3 || nn == 4 || nn == 5 || nn == 6 || nn == 7 || nn >= 8;
    }
  }

  /** The extension table of section 6.2.1.1: form feed, the characters ^ { } \\ [ ~ ] | and the euro sign. */
  lemma ExtensionIs(nn: nat)
    requires nn < 128
    ensures ExtendToUnicode(0x0a) == 12 && ExtendToUnicode(0x14) == 0x5e && ExtendToUnicode(0x28) == 0x7b
    ensures ExtendToUnicode(0x29) == 0x7d && ExtendToUnicode(0x2f) == 0x5c && ExtendToUnicode(0x3c) == 0x5b
    ensures ExtendToUnicode(0x3d) == 0x7e && ExtendToUnicode(0x3e) == 0x5d && ExtendToUnicode(0x40) == 0x7c
    ensures ExtendToUnicode(0x65) == 0x20ac
    ensures ExtendToUnicode(nn) != 0 ==> nn in {0x0a, 0x14, 0x28, 0x29, 0x2f, 0x3c, 0x3d, 0x3e, 0x40, 0x65}
  {
  }

  /** No two septets are the same ASCII character. */
  lemma OneSeptet(j: nat, k: nat)
    requires j < 128 && k < 128 && ToUnicode(j) == ToUnicode(k) && 0 < ToUnicode(j) < 128
    ensures j == k
  {
  }

  /** `vs` are the septets of an ASCII text by the alphabet of the standard. */
  predicate StandardSeptets(text: seq<byte>, vs: seq<nat>) {
    |vs| == |text| &&
    forall i :: 0 <= i < |text| ==> vs[i] < 128 && 0 < text[i] < 128 && StandardCharacter(vs[i]) == text[i]
  }

  /** A text that has septets by the standard is base alphabet, and those are its septets. */
  lemma {:induction false} SeptetsAre(text: seq<byte>, vs: seq<nat>)
    requires StandardSeptets(text, vs)
    ensures BaseText(text) && TextSeptets(text) == vs
  {
    if |text| > 0 {
      hide ToUnicode, StandardCharacter, Find, FindExtend;
      var c, v := text[0], vs[0];
      SeptetsAre(text[1..], vs[1..]);
      AlphabetIff(v);
      EnyeIsNotAscii();
      FoundAt(c, v);
      assert CharSeptets(c) == [v];
      assert vs == [v] + vs[1..];
      forall i | 0 <= i < |text|
        ensures BaseChar(text[i])
      {
        if i > 0 { assert text[i] == text[1..][i - 1]; }
      }
    }
  }

  lemma EnyeIsNotAscii()
    ensures StandardCharacter(0x5d) >= 128
  {
  }

  lemma FoundAt(c: byte, v: nat)
    requires v < 128 && ToUnicode(v) == c && 0 < c < 128
    ensures Find(c, 0) == Some(v)
  {
    hide ToUnicode, Find;
    FindAny(c, v, 0);
    OneSeptet(Find(c, 0).value, v);
  }

  lemma {:induction false} FindAny(unicode: nat, at: nat, nn: nat)
    requires nn <= at < 128 && ToUnicode(at) == unicode
    ensures Find(unicode, nn).Some?
    decreases at - nn
  {
    hide ToUnicode;
    if nn < at && ToUnicode(nn) != unicode {
      FindAny(unicode, at, nn + 1);
    }
  }

  /** unichar_to_gsm7_count */
  method UnicharToGsm7Count(unicode: nat) returns (n: nat)
    ensures n == if Find(unicode, 0).Some? then 1 else if FindExtend(unicode, 0).Some? then 2 else 0
  {
    var nn := UnicharToGsm7(unicode);
    if nn.Some? { return 1; }
    nn := UnicharToGsm7Extend(unicode);
    if nn.Some? { return 2; }
    return 0;
  }

  /** utf8_to_gsm7_count: the measuring pass. */
  method Utf8ToGsm7Count(utf8: seq<byte>) returns (result: nat)
    requires Ascii(utf8)
    ensures result == |TextSeptets(utf8)|
  {
    hide Find, FindExtend;
    result := 0;
    var p := 0;
    while p < |utf8|
      invariant 0 <= p <= |utf8|
      invariant |TextSeptets(utf8)| == result + |TextSeptets(utf8[p..])|
    {
      var len := UnicharToGsm7Count(utf8[p]);
      if len == 0 { len := 1; }
      assert utf8[p..][1..] == utf8[p + 1..];
      assert len == |CharSeptets(utf8[p])|;
      result := result + len;
      p := p + 1;
    }
  }

  /** utf8_check_gsm7 */
  method Utf8CheckGsm7(utf8: seq<byte>) returns (ok: bool)
    requires Ascii(utf8)
    ensures ok <==> forall i :: 0 <= i < |utf8| ==> Find(utf8[i], 0).Some? || FindExtend(utf8[i], 0).Some?
  {
    hide Find, FindExtend;
    var p := 0;
    while p < |utf8|
      invariant 0 <= p <= |utf8|
      invariant forall i :: 0 <= i < p ==> Find(utf8[i], 0).Some? || FindExtend(utf8[i], 0).Some?
    {
      var n := UnicharToGsm7Count(utf8[p]);
      if n == 0 { return false; }
      p := p + 1;
    }
    return true;
  }

  // ---------------------------------------------------------------- the bit writer

  /** BWriter: `dst[at]` is where the next full byte goes; `bits` bits of `pad` are pending. */
  class BWriter {
    const dst: array<byte>
    var at: nat
    var pad: nat
    var bits: nat
    var offset: nat

    ghost predicate Valid()
      reads this
    {
      bits < 8 && pad < Pow2(bits) && at <= dst.Length
    }

    /** bwriter_init: keeps the bits of the first byte below `start`. */
    constructor (dst: array<byte>, base: nat, start: nat)
      requires base + start / 8 <= dst.Length
      requires start % 8 > 0 ==> base + start / 8 < dst.Length
      ensures Valid() && this.dst == dst && at == base + start / 8 && bits == start % 8 && offset == start
      ensures pad == if start % 8 > 0 then dst[base + start / 8] % Pow2(start % 8) else 0
    {
      this.dst := dst;
      at := base + start / 8;
      bits := start % 8;
      offset := start;
      pad := if start % 8 > 0 then dst[base + start / 8] % Pow2(start % 8) else 0;
    }

    /** bwriter_add7.  The pending bits lie below the shifted value, so the OR is a sum. */
    method Add7(value: nat)
      requires Valid() && value < 128 && (bits > 0 ==> at < dst.Length)
      modifies this, dst
      ensures Valid() && offset == old(offset) + 7 && old(at) <= at
      ensures 8 * at + bits == 8 * old(at) + old(bits) + 7
      ensures forall rest: seq<nat> {:trigger Pack(pad, bits, rest)} :: AllSeptets(rest) ==>
        Pack(old(pad), old(bits), [value] + rest) == dst[old(at)..at] + Pack(pad, bits, rest)
      ensures forall i :: 0 <= i < dst.Length && !(old(at) <= i < at) ==> dst[i] == old(dst[i])
    {
      hide Pack, Pow2, Shl;
      PadFits(pad, bits, value);
      pad := pad + Shl(value, bits);
      bits := bits + 7;
      if bits >= 8 {
        dst[at] := pad % 256;
        bits := bits - 8;
        pad := pad / 256;
        at := at + 1;
      }
      offset := offset + 7;
      assert dst[old(at)..at] == if old(bits) == 0 then [] else [(old(pad) + Shl(value, old(bits))) % 256];
      forall rest: seq<nat> | AllSeptets(rest)
        ensures Pack(old(pad), old(bits), [value] + rest) == dst[old(at)..at] + Pack(pad, bits, rest)
      {
        PackStep(old(pad), old(bits), value, rest);
      }
    }

    /** Two septets in a row. */
    method AddTwo(v: nat, w: nat)
      requires Valid() && v < 128 && w < 128 && 8 * at + bits + 14 <= 8 * dst.Length
      modifies this, dst
      ensures Valid() && offset == old(offset) + 14 && old(at) <= at
      ensures 8 * at + bits == 8 * old(at) + old(bits) + 14
      ensures forall rest: seq<nat> {:trigger Pack(pad, bits, rest)} :: AllSeptets(rest) ==>
        Pack(old(pad), old(bits), [v, w] + rest) == dst[old(at)..at] + Pack(pad, bits, rest)
      ensures forall i :: 0 <= i < dst.Length && !(old(at) <= i < at) ==> dst[i] == old(dst[i])
    {
      hide Pack, Pow2;
      Add7(v);
      label mid:
      ghost var first := dst[old(at)..at];
      Add7(w);
      assert dst[old(at)..at] == first + dst[old@mid(at)..at];
      forall rest: seq<nat> | AllSeptets(rest)
        ensures Pack(old(pad), old(bits), [v, w] + rest) == dst[old(at)..at] + Pack(pad, bits, rest)
      {
        assert [v, w] + rest == [v] + ([w] + rest);
        assert AllSeptets([w] + rest);
      }
    }

    /** The septets of one character, as utf8_to_gsm7 chooses them. */
    method AddChar(c: nat)
      requires Valid() && 8 * at + bits + 7 * |CharSeptets(c)| <= 8 * dst.Length
      modifies this, dst
      ensures Valid() && offset == old(offset) + 7 * |CharSeptets(c)| && old(at) <= at
      ensures 8 * at + bits == 8 * old(at) + old(bits) + 7 * |CharSeptets(c)|
      ensures forall rest: seq<nat> {:trigger Pack(pad, bits, rest)} :: AllSeptets(rest) ==>
        Pack(old(pad), old(bits), CharSeptets(c) + rest) == dst[old(at)..at] + Pack(pad, bits, rest)
      ensures forall i :: 0 <= i < dst.Length && !(old(at) <= i < at) ==> dst[i] == old(dst[i])
    {
      hide Pack, Find, FindExtend, Pow2;
      var nn := UnicharToGsm7(c);
      if nn.Some? {
        Add7(nn.value);
        return;
      }
      nn := UnicharToGsm7Extend(c);
      if nn.Some? {
        AddTwo(ESCAPE, nn.value);
        return;
      }
      Add7(0x20);
    }

    /** The loop of utf8_to_gsm7 over the characters of a text. */
    method AddText(utf8: seq<byte>)
      requires Valid() && Ascii(utf8) && 8 * at + bits + 7 * |TextSeptets(utf8)| <= 8 * dst.Length
      modifies this, dst
      ensures Valid() && offset == old(offset) + 7 * |TextSeptets(utf8)| && old(at) <= at
      ensures 8 * at + bits == 8 * old(at) + old(bits) + 7 * |TextSeptets(utf8)|
      ensures Pack(old(pad), old(bits), TextSeptets(utf8)) == dst[old(at)..at] + Pack(pad, bits, [])
      ensures dst[..old(at)] == old(dst[..at]) && dst[at..] == old(dst[..])[at..]
    {
      hide Pack, Find, FindExtend, Pow2, CharSeptets, TextSeptets;
      NoText();
      ghost var first, all, was := at, TextSeptets(utf8), dst[..];
      ghost var pad0, bits0 := pad, bits;
      var p := 0;
      ghost var n := 0;
      assert utf8[0..] == utf8;
      assert dst[first..first] + Pack(pad0, bits0, all) == Pack(pad0, bits0, all);
      while p < |utf8|
        invariant 0 <= p <= |utf8| && Valid() && first <= at && offset == old(offset) + 7 * n
        invariant 8 * at + bits == 8 * first + bits0 + 7 * n
        invariant |all| == n + |TextSeptets(utf8[p..])|
        invariant Pack(pad0, bits0, all) == dst[first..at] + Pack(pad, bits, TextSeptets(utf8[p..]))
        invariant forall i :: 0 <= i < dst.Length && !(first <= i < at) ==> dst[i] == was[i]
      {
        ghost var at0, before := at, dst[..];
        ghost var rest := TextSeptets(utf8[p + 1..]);
        TextStep(utf8, p);
        AddChar(utf8[p]);
        SliceGrows(before, dst[..], first, at0, at, Pack(pad, bits, rest));
        n := n + |CharSeptets(utf8[p])|;
        p := p + 1;
      }
      assert utf8[p..] == [];
    }

    /** bwriter_done: flushes the pending bits. */
    method Done() returns (r: nat)
      requires Valid() && (bits > 0 ==> at < dst.Length)
      modifies this, dst
      ensures r == offset == old(offset)
      ensures old(at) <= at <= dst.Length && dst[old(at)..at] == Pack(old(pad), old(bits), [])
      ensures forall i :: 0 <= i < dst.Length && !(old(at) <= i < at) ==> dst[i] == old(dst[i])
    {
      PadFits(pad, bits, 0);
      if bits > 0 {
        dst[at] := pad;
        pad := 0;
        bits := 0;
        at := at + 1;
      }
      r := offset;
    }
  }

  lemma PackStep(pad: nat, bits: nat, v: nat, rest: seq<nat>)
    requires bits < 8 && pad < Pow2(bits) && v < 128 && AllSeptets(rest)
    ensures var p := pad + Shl(v, bits);
      if bits == 0 then p < Pow2(7) && Pack(pad, bits, [v] + rest) == [] + Pack(p, 7, rest)
      else p / 256 < Pow2(bits - 1) && Pack(pad, bits, [v] + rest) == [p % 256] + Pack(p / 256, bits - 1, rest)
  {
    PadFits(pad, bits, v);
    assert ([v] + rest)[1..] == rest;
  }

  /** The bits of the first byte that the writer keeps. */
  function StartPad(bytes: seq<byte>, base: nat, offset: nat): (pad: nat)
    requires offset % 8 > 0 ==> base + offset / 8 < |bytes|
    ensures pad < Pow2(offset % 8)
  {
    if offset % 8 > 0 then bytes[base + offset / 8] % Pow2(offset % 8) else 0
  }

  lemma StartPadIs(bytes: seq<byte>, base: nat, offset: nat)
    requires offset % 8 > 0 ==> base + offset / 8 < |bytes|
    ensures StartPad(bytes, base, offset) == if offset % 8 > 0 then bytes[base + offset / 8] % Pow2(offset % 8) else 0
  {
  }

  /** Bytes that `n` septets need when they start at a bit offset. */
  function PackedLen(offset: nat, n: nat): nat { (offset % 8 + 7 * n + 7) / 8 }

  lemma SliceGrows(s: seq<byte>, t: seq<byte>, a: nat, b: nat, c: nat, rest: seq<byte>)
    requires a <= b <= c <= |t| && b <= |s|
    requires forall i :: a <= i < b ==> s[i] == t[i]
    ensures s[a..b] + (t[b..c] + rest) == t[a..c] + rest && s[a..b] + t[b..c] == t[a..c]
  {
  }

  /** utf8_to_gsm7 with a destination: the septets of the text are packed from bit `offset` of the
      bytes at `base`, keeping the bits below it; exactly the bytes they need are written. */
  method Utf8ToGsm7(utf8: seq<byte>, dst: array<byte>, base: nat, offset: nat) returns (r: nat)
    requires Ascii(utf8)
    requires base + offset / 8 + PackedLen(offset, |TextSeptets(utf8)|) <= dst.Length
    modifies dst
    ensures r == offset + 7 * |TextSeptets(utf8)|
    ensures var first, n := base + offset / 8, PackedLen(offset, |TextSeptets(utf8)|);
      dst[first..first + n] == Pack(StartPad(old(dst[..]), base, offset), offset % 8, TextSeptets(utf8)) &&
      dst[..first] == old(dst[..])[..first] && dst[first + n..] == old(dst[..])[first + n..]
  {
    hide Pack, Find, FindExtend, Pow2, TextSeptets, StartPad;
    ghost var was := dst[..];
    StartPadIs(was, base, offset);
    var writer := new BWriter(dst, base, offset);
    ghost var first, pad0 := writer.at, writer.pad;
    writer.AddText(utf8);
    ghost var at0, before := writer.at, dst[..];
    r := writer.Done();
    SliceGrows(before, dst[..], first, at0, writer.at, []);
    assert dst[first..writer.at] == Pack(pad0, offset % 8, TextSeptets(utf8));
    assert writer.at == first + PackedLen(offset, |TextSeptets(utf8)|);
    assert before[..first] == was[..first] && dst[..first] == before[..first];
    assert before[writer.at..] == was[writer.at..] && dst[writer.at..] == before[writer.at..];
  }
}
