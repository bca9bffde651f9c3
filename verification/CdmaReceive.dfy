/**
  decode_cdma_sms (huawei-generic/sms.c) on messages as a network sends them: a header and any list of
  parameters, with an originating address and texts in every encoding (sections 3.4 and 4.5 of 3GPP2
  C.S0015).
 */
module CdmaReceive {
  import opened Bits
  import opened Options
  import opened CdmaBits
  import opened CdmaSms
  import opened CdmaDecode
  import opened CdmaRoundTrip

  // ---------------------------------------------------------------- what a message is made of

  /** A subparameter of bearer data, and the bytes of its content: a text in one of five encodings, a text in
      another, a message count in two decimal digits, or something else. */
  datatype Sub =
    | Text(encoding: nat, chars: seq<nat>, size: nat)
    | BadText(encoding: nat, size: nat)
    | Count(tens: nat, ones: nat)
    | OtherSub(code: nat, size: nat)
  {
    function Size(): nat {
      match this case Text(_, _, n) => n case BadText(_, n) => n case Count(_, _) => 1 case OtherSub(_, n) => n
    }

    predicate Valid() {
      Size() < 256 &&
      match this
      case Text(encoding, chars, n) => encoding in {0, 2, 3, 4, 8} && |chars| < 256
      case BadText(encoding, n) => encoding !in {0, 2, 3, 4, 8}
      case Count(tens, ones) => tens < 16 && ones < 16
      case OtherSub(code, n) => code < 256 && code != 1 && !(code == 11 && n == 1)
    }
  }

  /** The bits of a character: 7-bit ASCII and IA5, octets and Latin, or Unicode. */
  function Width(encoding: nat): nat {
    if encoding == 2 || encoding == 3 then 7 else if encoding == 4 then 16 else 8
  }

  /** A parameter of the message: the originating address, bearer data, or something else. */
  datatype Param = Origin(no: string, size: nat) | Data(subs: seq<Sub>) | OtherParam(code: nat, size: nat)
  {
    function Size(): nat {
      match this case Origin(_, n) => n case Data(subs) => SubsSize(subs) case OtherParam(_, n) => n
    }

    predicate Valid() {
      Size() < 256 &&
      match this
      case Origin(no, _) => |no| < 256
      case Data(subs) => forall k :: 0 <= k < |subs| ==> subs[k].Valid()
      case OtherParam(code, _) => code < 256 && code != 2 && code != 8
    }
  }

  function SubsSize(subs: seq<Sub>): nat {
    if |subs| == 0 then 0 else 2 + subs[0].Size() + SubsSize(subs[1..])
  }

  // ---------------------------------------------------------------- how it is laid out

  /** Code and length, one byte each. */
  ghost predicate HeadAt(s: string, d: nat, code: nat, size: nat) {
    d + 4 <= |s| && GetBits(s, 4 * d, 8) == code && GetBits(s, 4 * d + 8, 8) == size
  }

  /** The characters of a text, one behind the other. */
  ghost predicate CharsAt(s: string, base: nat, width: nat, chars: seq<nat>)
    decreases |chars|
  {
    |chars| == 0 ||
    (base + width <= 4 * |s| && GetBits(s, base, width) == chars[0] && CharsAt(s, base + width, width, chars[1..]))
  }

  /** A subparameter at digit `d`. */
  ghost predicate SubAt(s: string, d: nat, sub: Sub) {
    match sub
    case Text(encoding, chars, n) =>
      HeadAt(s, d, 1, n) && 4 * d + 29 <= 4 * |s| && GetBits(s, 4 * d + 16, 5) == encoding &&
      GetBits(s, 4 * d + 21, 8) == |chars| && CharsAt(s, 4 * d + 29, Width(encoding), chars)
    case BadText(encoding, n) =>
      HeadAt(s, d, 1, n) && 4 * d + 29 <= 4 * |s| && GetBits(s, 4 * d + 16, 5) == encoding
    case Count(tens, ones) =>
      HeadAt(s, d, 11, 1) && d + 6 <= |s| && Hex2Int(s[d + 4]) == tens && Hex2Int(s[d + 5]) == ones
    case OtherSub(code, n) => HeadAt(s, d, code, n)
  }

  ghost predicate SubsAt(s: string, d: nat, subs: seq<Sub>)
    decreases |subs|
  {
    |subs| == 0 || (SubAt(s, d, subs[0]) && SubsAt(s, d + 4 + 2 * subs[0].Size(), subs[1..]))
  }

  /** A parameter at digit `d`. */
  ghost predicate HasParam(s: string, d: nat, param: Param) {
    match param
    case Origin(no, n) => HeadAt(s, d, 2, n) && NumberAt(s, 4 * d + 16, no)
    case Data(subs) => HeadAt(s, d, 8, SubsSize(subs)) && SubsAt(s, d + 4, subs)
    case OtherParam(code, n) => HeadAt(s, d, code, n)
  }

  /** Parameters up to the end of the message. */
  ghost predicate ParamsAt(s: string, d: nat, params: seq<Param>)
    decreases |params|
  {
    if |params| == 0 then d == |s|
    else d < |s| && HasParam(s, d, params[0]) && ParamsAt(s, d + 4 + 2 * params[0].Size(), params[1..])
  }

  // ---------------------------------------------------------------- what it says

  /** Each character is kept in a byte. */
  function Letters(chars: seq<nat>): string {
    seq(|chars|, j requires 0 <= j < |chars| => (chars[j] % 256) as char)
  }

  /** What a subparameter adds: a text is appended to those before it, and a message count sets the voice
      mail flags, for messages that wait or for none. */
  function Added(b: Bearer, sub: Sub): Bearer {
    match sub
    case Text(_, chars, n) => Bearer(Some(Stored(b.text, "") + Letters(chars)), b.vm, b.stop + n + 2)
    case BadText(_, n) => Bearer(Some(Stored(b.text, "") + "bad SMS encoding"), b.vm, b.stop + n + 2)
    case Count(tens, ones) => Bearer(b.text, if tens == 0 && ones == 0 then 1 else 0x11, b.stop + 3)
    case OtherSub(_, n) => Bearer(b.text, b.vm, b.stop + n + 2)
  }

  function AllAdded(b: Bearer, subs: seq<Sub>): Bearer
    decreases |subs|
  {
    if |subs| == 0 then b else AllAdded(Added(b, subs[0]), subs[1..])
  }

  /** Sender, text and voice mail flags. */
  datatype Heard = Heard(from: string, message: string, vm: nat)

  /** What a parameter says: an originating address is the sender, and bearer data with a text the text. */
  function Said(h: Heard, param: Param): Heard {
    match param
    case Origin(no, _) => h.(from := KeptNumber(no))
    case Data(subs) =>
      var b := AllAdded(Bearer(None, h.vm, 0), subs);
      Heard(h.from, Stored(b.text, h.message), b.vm)
    case OtherParam(_, _) => h
  }

  function AllSaid(h: Heard, params: seq<Param>): Heard
    decreases |params|
  {
    if |params| == 0 then h else AllSaid(Said(h, params[0]), params[1..])
  }

  // ---------------------------------------------------------------- texts

  lemma CharsStep(s: string, pos: nat, step: nat, width: nat, n: nat, rest: string)
    requires n > 0 && pos + width <= 4 * |s| && Chars(s, pos + step, step, width, n - 1) == Some(rest)
    ensures Chars(s, pos, step, width, n) == Some([(GetBits(s, pos, width) % 256) as char] + rest)
  {
    hide GetBits;
  }

  lemma NoChars(s: string, pos: nat, step: nat, width: nat)
    ensures Chars(s, pos, step, width, 0) == Some("")
  {
  }

  lemma NoLetters()
    ensures Letters([]) == ""
  {
  }

  lemma LettersStep(chars: seq<nat>)
    requires |chars| > 0
    ensures Letters(chars) == [(chars[0] % 256) as char] + Letters(chars[1..])
  {
  }

  /** Characters of 7 and of 8 bits. */
  lemma {:induction false} NarrowText(s: string, base: nat, width: nat, chars: seq<nat>)
    requires CharsAt(s, base, width, chars)
    ensures Chars(s, base, width, width, |chars|) == Some(Letters(chars))
    decreases |chars|
  {
    hide GetBits, Chars, Letters;
    if |chars| > 0 {
      NarrowText(s, base + width, width, chars[1..]);
      CharsStep(s, base, width, width, |chars|, Letters(chars[1..]));
      LettersStep(chars);
    } else {
      NoChars(s, base, width, width);
      NoLetters();
      assert chars == [];
    }
  }

  /** Of a 16-bit character the low byte is read. */
  lemma LowByte(s: string, base: nat, c: nat)
    requires base + 16 <= 4 * |s| && GetBits(s, base, 16) == c
    ensures GetBits(s, base + 8, 8) == c % 256
  {
    hide GetBits;
    SplitBits(s, base, 8, 8);
    FieldBound(s, base + 8, 8);
    assert Pow2(8) == 256;
  }

  lemma {:induction false} WideText(s: string, base: nat, chars: seq<nat>)
    requires CharsAt(s, base, 16, chars)
    ensures Chars(s, base + 8, 16, 8, |chars|) == Some(Letters(chars))
    decreases |chars|
  {
    hide GetBits, Chars, Letters;
    if |chars| > 0 {
      LowByte(s, base, chars[0]);
      WideText(s, base + 16, chars[1..]);
      CharsStep(s, base + 8, 16, 8, |chars|, Letters(chars[1..]));
      LettersStep(chars);
    } else {
      NoChars(s, base + 8, 16, 8);
      NoLetters();
      assert chars == [];
    }
  }

  // ---------------------------------------------------------------- one subparameter

  lemma HeadReads(s: string, d: nat, code: nat, size: nat)
    requires AllHex(s) && HeadAt(s, d, code, size)
    ensures d + 4 <= |s| && ByteAt(s, d) == code && ByteAt(s, d + 2) == size
  {
    hide GetBits;
    ByteField(s, d);
    ByteField(s, d + 2);
  }

  /** A text in any encoding is appended. */
  lemma TextAdds(s: string, d: nat, length: nat, i: nat, sub: Sub, text: Option<string>, vm: nat)
    requires AllHex(s) && i < length && sub.Text? && sub.Valid() && SubAt(s, d + 2 * i, sub)
    ensures BearerSpec(s, d, length, i, text, vm) ==
      BearerSpec(s, d, length, i + sub.Size() + 2, Some(Stored(text, "") + Letters(sub.chars)), vm)
  {
    hide GetBits, Chars, CharsAt;
    var at := d + 2 * i;
    HeadReads(s, at, 1, sub.size);
    if sub.encoding == 4 {
      WideText(s, 4 * at + 29, sub.chars);
    } else {
      NarrowText(s, 4 * at + 29, Width(sub.encoding), sub.chars);
    }
  }

  /** A text that cannot be read is reported in its place. */
  lemma BadTextAdds(s: string, d: nat, length: nat, i: nat, sub: Sub, text: Option<string>, vm: nat)
    requires AllHex(s) && i < length && sub.BadText? && sub.Valid() && SubAt(s, d + 2 * i, sub)
    ensures BearerSpec(s, d, length, i, text, vm) ==
      BearerSpec(s, d, length, i + sub.Size() + 2, Some(Stored(text, "") + "bad SMS encoding"), vm)
  {
    hide GetBits, Chars;
    HeadReads(s, d + 2 * i, 1, sub.size);
  }

  /** A message count sets the flags. */
  lemma CountSets(s: string, d: nat, length: nat, i: nat, sub: Sub, text: Option<string>, vm: nat)
    requires AllHex(s) && i < length && sub.Count? && sub.Valid() && SubAt(s, d + 2 * i, sub)
    ensures BearerSpec(s, d, length, i, text, vm) ==
      BearerSpec(s, d, length, i + 3, text, if sub.tens == 0 && sub.ones == 0 then 1 else 0x11)
  {
    hide GetBits;
    HeadReads(s, d + 2 * i, 11, 1);
  }

  lemma OtherSkipped(s: string, d: nat, length: nat, i: nat, sub: Sub, text: Option<string>, vm: nat)
    requires AllHex(s) && i < length && sub.OtherSub? && sub.Valid() && SubAt(s, d + 2 * i, sub)
    ensures BearerSpec(s, d, length, i, text, vm) == BearerSpec(s, d, length, i + sub.size + 2, text, vm)
  {
    hide GetBits;
    HeadReads(s, d + 2 * i, sub.code, sub.size);
  }

  lemma AllSubs(s: string, d: nat, length: nat, text: Option<string>, vm: nat)
    ensures BearerSpec(s, d, length, length, text, vm) == Some(Bearer(text, vm, length))
  {
  }

  lemma OneSub(s: string, d: nat, length: nat, i: nat, sub: Sub, text: Option<string>, vm: nat)
    requires AllHex(s) && i < length && sub.Valid() && SubAt(s, d + 2 * i, sub)
    ensures var b := Added(Bearer(text, vm, i), sub);
      b.stop == i + sub.Size() + 2 &&
      BearerSpec(s, d, length, i, text, vm) == BearerSpec(s, d, length, b.stop, b.text, b.vm)
  {
    hide SubAt, BearerSpec, Letters;
    match sub {
      case Text(_, _, _) => TextAdds(s, d, length, i, sub, text, vm);
      case BadText(_, _) => BadTextAdds(s, d, length, i, sub, text, vm);
      case Count(_, _) => CountSets(s, d, length, i, sub, text, vm);
      case OtherSub(_, _) => OtherSkipped(s, d, length, i, sub, text, vm);
    }
  }

  predicate AllValid(subs: seq<Sub>) { forall k :: 0 <= k < |subs| ==> subs[k].Valid() }

  /** Bearer data with any list of subparameters is read as what they add, to its last byte. */
  lemma {:induction false} BearerReads(s: string, d: nat, length: nat, b: Bearer, subs: seq<Sub>)
    requires AllHex(s) && b.stop >= 0 && SubsAt(s, d + 2 * b.stop, subs) && AllValid(subs)
    requires length == b.stop + SubsSize(subs)
    ensures BearerSpec(s, d, length, b.stop, b.text, b.vm) == Some(AllAdded(b, subs))
    ensures AllAdded(b, subs).stop == length
    decreases |subs|
  {
    hide BearerSpec, SubAt, Added, AllHex;
    if |subs| == 0 {
      AllSubs(s, d, length, b.text, b.vm);
    } else {
      OneSub(s, d, length, b.stop, subs[0], b.text, b.vm);
      var next := Added(b, subs[0]);
      assert Bearer(b.text, b.vm, b.stop) == b;
      assert d + 2 * next.stop == d + 2 * b.stop + 4 + 2 * subs[0].Size();
      BearerReads(s, d, length, next, subs[1..]);
    }
  }

  // ---------------------------------------------------------------- the message

  /** An originating address is the sender. */
  lemma OriginRead(s: string, i: nat, no: string, size: nat, h: Heard)
    requires AllHex(s) && 2 * i < |s| && HeadAt(s, 2 * i, 2, size) && NumberAt(s, 8 * i + 16, no)
    ensures PduSpec(s, i, h.from, h.message, h.vm) == PduSpec(s, i + size + 2, KeptNumber(no), h.message, h.vm)
  {
    hide GetBits, NumberAt, NumberSpec, KeptNumber, HeadAt;
    HeadReads(s, 2 * i, 2, size);
    NumberKept(s, 8 * i + 16, no);
    assert 4 * (2 * i + 4) == 8 * i + 16;
  }

  lemma DataRead(s: string, i: nat, subs: seq<Sub>, h: Heard)
    requires AllHex(s) && 2 * i < |s| && HeadAt(s, 2 * i, 8, SubsSize(subs)) && SubsAt(s, 2 * i + 4, subs)
    requires AllValid(subs)
    ensures var b := AllAdded(Bearer(None, h.vm, 0), subs);
      PduSpec(s, i, h.from, h.message, h.vm) ==
        PduSpec(s, i + SubsSize(subs) + 2, h.from, Stored(b.text, h.message), b.vm)
  {
    hide GetBits, BearerSpec, SubsAt, AllAdded, SubsSize, HeadAt;
    HeadReads(s, 2 * i, 8, SubsSize(subs));
    BearerReads(s, 2 * i + 4, SubsSize(subs), Bearer(None, h.vm, 0), subs);
  }

  lemma OtherRead(s: string, i: nat, code: nat, size: nat, h: Heard)
    requires AllHex(s) && 2 * i < |s| && HeadAt(s, 2 * i, code, size) && code != 2 && code != 8
    ensures PduSpec(s, i, h.from, h.message, h.vm) == PduSpec(s, i + size + 2, h.from, h.message, h.vm)
  {
    hide GetBits, HeadAt;
    HeadReads(s, 2 * i, code, size);
  }

  lemma OneParam(s: string, i: nat, param: Param, h: Heard)
    requires AllHex(s) && 2 * i < |s| && param.Valid() && HasParam(s, 2 * i, param)
    ensures var h' := Said(h, param);
      PduSpec(s, i, h.from, h.message, h.vm) == PduSpec(s, i + param.Size() + 2, h'.from, h'.message, h'.vm)
  {
    hide PduSpec, HeadAt, NumberAt, SubsAt, AllAdded, KeptNumber, SubsSize;
    match param {
      case Origin(no, size) => OriginRead(s, i, no, size, h);
      case Data(subs) => DataRead(s, i, subs, h);
      case OtherParam(code, size) => OtherRead(s, i, code, size, h);
    }
  }

  lemma MessageEnds(s: string, i: nat, h: Heard)
    requires 2 * i == |s|
    ensures PduSpec(s, i, h.from, h.message, h.vm) == Decoded(h.from, h.message, h.vm, |s| / 2)
  {
  }

  lemma {:induction false} ParamsRead(s: string, i: nat, params: seq<Param>, h: Heard)
    requires AllHex(s) && ParamsAt(s, 2 * i, params) && forall k :: 0 <= k < |params| ==> params[k].Valid()
    ensures var said := AllSaid(h, params);
      PduSpec(s, i, h.from, h.message, h.vm) == Decoded(said.from, said.message, said.vm, |s| / 2)
    decreases |params|
  {
    hide PduSpec, HasParam, Said, AllHex;
    if |params| == 0 {
      MessageEnds(s, i, h);
    } else {
      OneParam(s, i, params[0], h);
      var next := i + params[0].Size() + 2;
      assert 2 * next == 2 * i + 4 + 2 * params[0].Size();
      ParamsRead(s, next, params[1..], Said(h, params[0]));
    }
  }

  /** A message with any list of parameters behind the byte of its type is decoded as what they say. */
  lemma MessageReads(s: string, params: seq<Param>)
    requires AllHex(s) && ParamsAt(s, 2, params) && forall k :: 0 <= k < |params| ==> params[k].Valid()
    ensures var said := AllSaid(Heard("000000", "UNKNOWN", 0), params);
      Decode(s) == Decoded(said.from, said.message, said.vm, |s| / 2)
  {
    hide ParamsAt, PduSpec, AllSaid;
    ParamsRead(s, 1, params, Heard("000000", "UNKNOWN", 0));
  }

  lemma SaidByAll(h: Heard, first: Param, second: Param, third: Param)
    ensures AllSaid(h, [first, second, third]) == Said(Said(Said(h, first), second), third)
  {
    hide Said;
    var h1 := Said(h, first);
    var h2 := Said(h1, second);
    assert [first, second, third][1..] == [second, third] && [second, third][1..] == [third] && [third][1..] == [];
    assert AllSaid(h2, [third]) == Said(h2, third);
    assert AllSaid(h1, [second, third]) == AllSaid(h2, [third]);
  }

  /** A message from a number with a text, as a network delivers it: teleservice, originating address and
      bearer data.  Number and text come out, in each encoding. */
  lemma DeliveredReads(s: string, no: string, size: nat, text: Sub)
    requires AllHex(s) && size < 256 && |no| < 256 && text.Text? && text.Valid() && text.size < 254
    requires ParamsAt(s, 2, [OtherParam(0, 2), Origin(no, size), Data([text])])
    ensures Decode(s) == Decoded(KeptNumber(no), Letters(text.chars), 0, |s| / 2)
  {
    hide ParamsAt, KeptNumber, Letters, Decode, AllSaid;
    SizeOfOne(text);
    MessageReads(s, [OtherParam(0, 2), Origin(no, size), Data([text])]);
    SaidByAll(Heard("000000", "UNKNOWN", 0), OtherParam(0, 2), Origin(no, size), Data([text]));
    AddedByOne(text, 0);
  }

  lemma SizeOfOne(sub: Sub)
    ensures SubsSize([sub]) == 2 + sub.Size()
  {
    assert [sub][1..] == [];
  }

  lemma AddedByOne(text: Sub, vm: nat)
    requires text.Text?
    ensures AllAdded(Bearer(None, vm, 0), [text]) == Bearer(Some(Letters(text.chars)), vm, text.size + 2)
  {
    hide Letters;
    assert [text][1..] == [] && "" + Letters(text.chars) == Letters(text.chars);
  }
}
