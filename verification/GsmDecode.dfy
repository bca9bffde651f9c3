/**
  utf8_from_gsm7 (huawei-generic/gsm.c) and the round trips of the septet text codec.
 */
module GsmDecode {
  import opened Bits
  import opened Options
  import opened Bytes
  import opened Septets
  import opened GsmText

  /** The bytes utf8_write stores for a value of the tables. */
  function Utf8Bytes(v: nat): (bytes: seq<byte>)
    requires v < 0x10000
    ensures 1 <= |bytes| <= 3
  {
    if v < 128 then [v]
    else if v < 0x800 then [0xc0 + v / 64, 0x80 + v % 64]
    else [0xe0 + v / 4096, 0x80 + v / 64 % 64, 0x80 + v % 64]
  }

  lemma TableBounds(nn: nat)
    requires nn < 128
    ensures ToUnicode(nn) < 0x10000 && ExtendToUnicode(nn) < 0x10000
  {
  }

  /** The bytes one septet adds to the text.  Once an escape has been seen, `escaped` stays set. */
  function SeptetText(c: nat, escaped: bool): seq<byte>
    requires c < 128
  {
    TableBounds(c);
    if escaped then Utf8Bytes(ExtendToUnicode(c)) else if c == ESCAPE then [] else Utf8Bytes(ToUnicode(c))
  }

  function SeptetsText(vs: seq<nat>, escaped: bool): seq<byte>
    requires AllSeptets(vs)
  {
    if |vs| == 0 then []
    else SeptetText(vs[0], escaped) + SeptetsText(vs[1..], escaped || vs[0] == ESCAPE)
  }

  /** The text of `n` septets from bit `pos`; None when they run past the bytes. */
  function PackedText(src: seq<byte>, pos: nat, n: nat, escaped: bool): Option<seq<byte>>
    decreases n
  {
    if n == 0 then Some([])
    else
      match SeptetAt(src, pos)
      case None => None
      case Some(c) =>
        SeptetRange(src, pos);
        Prepend(SeptetText(c, escaped), PackedText(src, pos + 7, n - 1, escaped || c == ESCAPE))
  }

  lemma SeptetRange(src: seq<byte>, pos: nat)
    ensures SeptetAt(src, pos).Some? ==> SeptetAt(src, pos).value < 128
  {
    hide Shl, Shr;
  }

  lemma PackedTail(src: seq<byte>, shift: nat, vs: seq<nat>)
    requires IsPacked(src, shift, vs) && |vs| > 0
    ensures SeptetIn(src, shift, vs[0]) && IsPacked(src, shift + 7, vs[1..])
  {
    hide SeptetIn;
    forall i {:trigger vs[1..][i]} | 0 <= i < |vs| - 1
      ensures SeptetIn(src, shift + 7 + 7 * i, vs[1..][i])
    {
      assert vs[1..][i] == vs[i + 1];
      assert shift + 7 * (i + 1) == shift + 7 + 7 * i;
    }
  }

  lemma SeptetsTextStep(vs: seq<nat>, escaped: bool)
    requires AllSeptets(vs) && |vs| > 0
    ensures AllSeptets(vs[1..])
    ensures SeptetsText(vs, escaped) == SeptetText(vs[0], escaped) + SeptetsText(vs[1..], escaped || vs[0] == ESCAPE)
  {
    hide SeptetText;
  }

  lemma NoSeptetsText(escaped: bool)
    ensures SeptetsText([], escaped) == []
  {
  }

  /** Reading packed septets gives the text of the septets. */
  lemma {:induction false} PackedTextReads(src: seq<byte>, shift: nat, vs: seq<nat>, escaped: bool)
    requires IsPacked(src, shift, vs) && AllSeptets(vs)
    ensures PackedText(src, shift, |vs|, escaped) == Some(SeptetsText(vs, escaped))
    decreases |vs|
  {
    hide IsPacked, AllSeptets, SeptetAt, SeptetIn, SeptetText, SeptetsText, PackedText;
    if |vs| > 0 {
      PackedTail(src, shift, vs);
      SeptetsTextStep(vs, escaped);
      SeptetRange(src, shift);
      SeptetRead(src, shift, vs[0]);
      PackedTextStep(src, shift, |vs|, escaped);
      PackedTextReads(src, shift + 7, vs[1..], escaped || vs[0] == ESCAPE);
    } else {
      PackedTextEnd(src, shift, escaped);
      NoSeptetsText(escaped);
      assert vs == [];
    }
  }

  /** utf8_from_gsm7.  With a null destination it only counts; `ok` is false when the source would
      read past the end of `src`. */
  method Utf8FromGsm7(src: seq<byte>, offset: nat, count: nat, utf8: array?<byte>, base: nat)
    returns (ok: bool, result: nat)
    requires utf8 != null ==>
      var text := PackedText(src, offset, count, false); text.Some? && base + |text.value| <= utf8.Length
    modifies if utf8 == null then {} else {utf8}
    ensures ok <==> PackedText(src, offset, count, false).Some?
    ensures ok ==> result == |PackedText(src, offset, count, false).value|
    ensures utf8 != null ==> var text := PackedText(src, offset, count, false).value;
      utf8[..] == Splice(old(utf8[..]), base, text)
  {
    hide SeptetAt, SeptetText, PackedText, Splice;
    ghost var was := if utf8 == null then [] else utf8[..];
    if utf8 != null { SpliceNothing(was, base); }
    ghost var all := PackedText(src, offset, count, false);
    ghost var out := [];
    var escaped, left := false, count;
    var at: nat, shift: nat := offset / 8, offset % 8;
    result := 0;
    if all.Some? { PrependNothing(all.value); }
    while left > 0
      invariant 0 <= left <= count && shift < 8 && result == |out|
      invariant all == Prepend(out, PackedText(src, 8 * at + shift, left, escaped))
      invariant utf8 != null ==> base + result <= utf8.Length && utf8[..] == Splice(was, base, out)
    {
      PackedTextStep(src, 8 * at + shift, left, escaped);
      var c := SeptetAt(src, 8 * at + shift);
      if c.None? { return false, 0; }
      SeptetRange(src, 8 * at + shift);
      var piece := SeptetText(c.value, escaped);
      escaped := escaped || c.value == ESCAPE;
      PrependMore(out, piece, PackedText(src, 8 * at + shift + 7, left - 1, escaped));
      if utf8 != null {
        SpliceTwice(was, base, out, piece);
        Store(utf8, base + result, piece);
      }
      out := out + piece;
      result := result + |piece|;
      shift := shift + 7;
      if shift >= 8 {
        shift := shift - 8;
        at := at + 1;
      }
      left := left - 1;
    }
    PackedTextEnd(src, 8 * at + shift, escaped);
    PrependNothing(out);
    ok := true;
  }

  lemma PackedTextStep(src: seq<byte>, pos: nat, n: nat, escaped: bool)
    requires n > 0
    ensures SeptetAt(src, pos).None? ==> PackedText(src, pos, n, escaped).None?
    ensures SeptetAt(src, pos).Some? ==>
      var c := SeptetAt(src, pos).value;
      c < 128 && PackedText(src, pos, n, escaped) ==
        Prepend(SeptetText(c, escaped), PackedText(src, pos + 7, n - 1, escaped || c == ESCAPE))
  {
    hide SeptetAt;
    SeptetRange(src, pos);
  }

  lemma PackedTextEnd(src: seq<byte>, pos: nat, escaped: bool)
    ensures PackedText(src, pos, 0, escaped) == Some([])
  {
  }

  // ---------------------------------------------------------------- what the text says

  predicate IsTail(b: byte) { 0x80 <= b < 0xc0 }

  /** A reader of UTF-8 by section 3 of RFC 3629, for characters of one to three bytes. */
  function ReadUtf8(bytes: seq<byte>): Option<seq<nat>> {
    if |bytes| == 0 then Some([])
    else if bytes[0] < 0x80 then Prepend([bytes[0] as nat], ReadUtf8(bytes[1..]))
    else if 0xc0 <= bytes[0] < 0xe0 && |bytes| >= 2 && IsTail(bytes[1]) then
      Prepend([bytes[0] as int % 32 * 64 + bytes[1] as int % 64], ReadUtf8(bytes[2..]))
    else if 0xe0 <= bytes[0] < 0xf0 && |bytes| >= 3 && IsTail(bytes[1]) && IsTail(bytes[2]) then
      Prepend([bytes[0] as int % 16 * 4096 + bytes[1] as int % 64 * 64 + bytes[2] as int % 64], ReadUtf8(bytes[3..]))
    else None
  }

  /** A written character is read back, and takes no more bytes than it needs. */
  lemma CharacterReads(v: nat, rest: seq<byte>)
    requires v < 0x10000
    ensures ReadUtf8(Utf8Bytes(v) + rest) == Prepend([v], ReadUtf8(rest))
    ensures |Utf8Bytes(v)| == if v < 0x80 then 1 else if v < 0x800 then 2 else 3
  {
    var bytes := Utf8Bytes(v) + rest;
    assert bytes[|Utf8Bytes(v)|..] == rest;
    assert v == v / 4096 * 4096 + v / 64 % 64 * 64 + v % 64;
  }

  /** What a septet stands for: a character of section 6.2.1 of 3GPP TS 23.038, with the one exception of
      0x5d. */
  function SeptetSays(v: nat): nat
    requires v < 128
  {
    if v == 0x5d then 0x147 else StandardCharacter(v)
  }

  /** The text of septets without an escape is what they stand for, in UTF-8. */
  lemma {:induction false} SeptetsSay(vs: seq<nat>)
    requires AllSeptets(vs) && ESCAPE !in vs
    ensures ReadUtf8(SeptetsText(vs, false)) ==
      Some(seq(|vs|, i requires 0 <= i < |vs| => SeptetSays(vs[i])))
  {
    hide ReadUtf8, SeptetsText, Utf8Bytes, StandardCharacter, ToUnicode;
    if |vs| == 0 {
      NoSeptetsText(false);
      NothingRead();
    } else {
      SeptetsSay(vs[1..]);
      SeptetsTextStep(vs, false);
      AlphabetIff(vs[0]);
      TableBounds(vs[0]);
      CharacterReads(ToUnicode(vs[0]), SeptetsText(vs[1..], false));
      assert seq(|vs|, i requires 0 <= i < |vs| => SeptetSays(vs[i])) ==
        [SeptetSays(vs[0])] + seq(|vs| - 1, i requires 0 <= i < |vs| - 1 => SeptetSays(vs[1..][i]));
    }
  }

  lemma NothingRead()
    ensures ReadUtf8([]) == Some([])
  {
  }

  // ---------------------------------------------------------------- round trips

  /** Base alphabet text becomes one septet a character. */
  lemma {:induction false} BaseTextSeptets(text: seq<byte>)
    requires BaseText(text)
    ensures |TextSeptets(text)| == |text|
    ensures SeptetsText(TextSeptets(text), false) == text
  {
    if |text| > 0 {
      hide Find, FindExtend, ToUnicode, SeptetsText, TextSeptets, CharSeptets, SeptetText;
      var c, rest := text[0], text[1..];
      BaseTextSeptets(rest);
      BaseFirst(c, rest);
      BaseOne(c, rest);
      assert text == [c] + rest;
    }
  }

  lemma BaseOne(c: byte, rest: seq<byte>)
    requires BaseChar(c)
    ensures |TextSeptets([c] + rest)| == 1 + |TextSeptets(rest)|
  {
    hide Find, FindExtend;
    assert ([c] + rest)[1..] == rest;
  }

  lemma NotEscape(c: byte)
    requires BaseChar(c)
    ensures Find(c, 0).value != ESCAPE
  {
    hide Find;
  }

  /** utf8_from_gsm7 after utf8_to_gsm7 is the identity on base alphabet text, at any offset. */
  lemma TextRoundTrip(text: seq<byte>, pad: nat, bits: nat)
    requires BaseText(text) && bits < 8 && pad < Pow2(bits)
    ensures PackedText(Pack(pad, bits, TextSeptets(text)), bits, |TextSeptets(text)|, false) == Some(text)
  {
    hide Pack, TextSeptets, PackedText, SeptetsText;
    PackBits(pad, bits, TextSeptets(text));
    PackedTextReads(Pack(pad, bits, TextSeptets(text)), bits, TextSeptets(text), false);
    BaseTextSeptets(text);
  }

  predicate ExtendChar(c: byte) {
    0 < c < 128 && Find(c, 0).None? && FindExtend(c, 0).Some?
  }

  /** Base characters, and at the very end possibly one extension character. */
  predicate Readable(text: seq<byte>) {
    |text| == 0
    || if |text| == 1 then BaseChar(text[0]) || ExtendChar(text[0])
       else BaseChar(text[0]) && Readable(text[1..])
  }

  /** The two tables never agree, and the extension table holds no printable value at the escape. */
  lemma TablesDiffer(nn: nat)
    requires nn < 128
    ensures ExtendToUnicode(nn) == ToUnicode(nn) ==> ToUnicode(nn) == 0
    ensures ExtendToUnicode(ESCAPE) == 0 && ExtendToUnicode(0x20) == 0 && ToUnicode(0x20) == 0x20
  {
  }

  /** After an escape no further character is read back. */
  lemma LostAfterEscape(text: seq<byte>)
    requires |text| > 0 && 0 < text[0] < 128
    ensures |SeptetsText(TextSeptets(text), true)| > 0
    ensures SeptetsText(TextSeptets(text), true)[0] != text[0]
  {
    hide Find, FindExtend, ToUnicode, ExtendToUnicode;
    var c, vs := text[0], TextSeptets(text);
    TableBounds(vs[0]);
    TablesDiffer(vs[0]);
    assert SeptetText(vs[0], true) == Utf8Bytes(ExtendToUnicode(vs[0]));
  }

  lemma SpaceIsBase()
    ensures BaseChar(0x20)
  {
    assert ToUnicode(0x20) == 0x20;
    FindAny(0x20, 0x20, 0);
  }

  /** Text goes through the septet codec unchanged exactly when it is readable: `escaped` is never
      cleared, so nothing can follow an extension character. */
  lemma {:induction false} TextSurvivesIff(text: seq<byte>)
    requires forall i :: 0 <= i < |text| ==> 0 < text[i] < 128
    ensures SeptetsText(TextSeptets(text), false) == text <==> Readable(text)
  {
    if |text| > 0 {
      hide Find, FindExtend, ToUnicode, ExtendToUnicode;
      var c, rest := text[0], text[1..];
      var vs := TextSeptets(text);
      assert text == [c] + rest;
      TableBounds(vs[0]);
      if BaseChar(c) {
        TextSurvivesIff(rest);
        BaseFirst(c, rest);
        assert SeptetsText(vs, false)[1..] == SeptetsText(TextSeptets(rest), false);
      } else if ExtendChar(c) {
        ExtendedFirst(c, rest);
        if |rest| > 0 {
          LostAfterEscape(rest);
          assert SeptetsText(vs, false)[1..] == SeptetsText(TextSeptets(rest), true);
        }
      } else {
        SpaceIsBase();
        TablesDiffer(0x20);
        assert vs[0] == 0x20;
        assert SeptetsText(vs, false)[0] == 0x20;
      }
    }
  }

  /** The ASCII characters without septets: the grave accent, delete, and all controls but line feed, form
      feed and carriage return. */
  predicate Missing(c: byte) { c == 0x60 || c == 0x7f || (c < 0x20 && c != 10 && c != 12 && c != 13) }

  lemma {:induction false} NotFound(c: nat, nn: nat)
    requires nn <= 128 && forall k :: 0 <= k < 128 ==> ToUnicode(k) != c
    ensures Find(c, nn).None?
    decreases 128 - nn
  {
    hide ToUnicode;
    if nn < 128 { NotFound(c, nn + 1); }
  }

  lemma {:induction false} NotExtended(c: nat, nn: nat)
    requires nn <= 128 && forall k :: 0 <= k < 128 ==> ExtendToUnicode(k) != c
    ensures FindExtend(c, nn).None?
    decreases 128 - nn
  {
    hide ExtendToUnicode;
    if nn < 128 { NotExtended(c, nn + 1); }
  }

  lemma {:induction false} ExtendedAt(c: nat, at: nat, nn: nat)
    requires nn <= at < 128 && ExtendToUnicode(at) == c
    ensures FindExtend(c, nn).Some?
    decreases at - nn
  {
    hide ExtendToUnicode;
    if nn < at && ExtendToUnicode(nn) != c { ExtendedAt(c, at, nn + 1); }
  }

  /** Where an ASCII character is in the tables. */
  function PlaceOf(c: byte): nat
    requires 0 < c < 128 && !Missing(c)
  {
    match c
    case 64 => 0 case 36 => 2 case 95 => 17 case 12 => 10
    case 94 => 20 case 123 => 40 case 125 => 41 case 92 => 47 case 91 => 60 case 126 => 61 case 93 => 62 case 124 => 64
    case _ => c as nat
  }

  /** Text is missing from both tables exactly for these, and they are sent as spaces. */
  lemma MissingIff(c: byte)
    requires 0 < c < 128
    ensures Missing(c) <==> Find(c, 0).None? && FindExtend(c, 0).None?
    ensures Missing(c) ==> SeptetsText(TextSeptets([c]), false) == [' ' as int]
  {
    hide Find, FindExtend;
    if Missing(c) {
      NotFound(c, 0);
      NotExtended(c, 0);
      SentAsSpace(c);
    } else {
      var at := PlaceOf(c);
      assert ToUnicode(at) == c || ExtendToUnicode(at) == c;
      if ToUnicode(at) == c { FindAny(c, at, 0); } else { ExtendedAt(c, at, 0); }
    }
  }

  lemma SentAsSpace(c: byte)
    requires Find(c, 0).None? && FindExtend(c, 0).None?
    ensures SeptetsText(TextSeptets([c]), false) == [' ' as int]
  {
    hide Find, FindExtend, ToUnicode;
    TablesDiffer(0x20);
    assert TextSeptets([c]) == [0x20] + TextSeptets([]) == [0x20];
    assert [0x20][1..] == [];
  }

  /** A bracket and a letter are not read back. */
  lemma BracketLost()
    ensures SeptetsText(TextSeptets(['[' as int, 'a' as int]), false) != ['[' as int, 'a' as int]
  {
    hide Find, FindExtend, SeptetsText, TextSeptets;
    BracketExtends();
    TextSurvivesIff(['[' as int, 'a' as int]);
  }

  lemma BaseFirst(c: byte, rest: seq<byte>)
    requires BaseChar(c)
    ensures SeptetsText(TextSeptets([c] + rest), false) == [c] + SeptetsText(TextSeptets(rest), false)
  {
    hide Find, FindExtend, ToUnicode, ExtendToUnicode;
    NotEscape(c);
    assert ([c] + rest)[1..] == rest;
    var vs := TextSeptets([c] + rest);
    assert vs[1..] == TextSeptets(rest);
    assert SeptetText(vs[0], false) == [c];
  }

  lemma ExtendedFirst(c: byte, rest: seq<byte>)
    requires ExtendChar(c)
    ensures SeptetsText(TextSeptets([c] + rest), false) == [c] + SeptetsText(TextSeptets(rest), true)
  {
    hide Find, FindExtend, ToUnicode, ExtendToUnicode;
    var e := FindExtend(c, 0).value;
    assert ([c] + rest)[1..] == rest;
    var vs := TextSeptets([c] + rest);
    assert vs == [ESCAPE, e] + TextSeptets(rest);
    assert vs[1..] == [e] + TextSeptets(rest) && vs[1..][1..] == TextSeptets(rest);
    TableBounds(e);
  }
}
