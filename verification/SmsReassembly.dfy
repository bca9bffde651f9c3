/**
  Reading built SMS-DELIVER PDUs back with a parser written from 3GPP TS 23.040 (sections 9.2.2.1 and
  9.2.3.24), and putting the parts of a long message together again.
 */
module SmsReassembly {
  import opened Bits
  import opened Options
  import opened Bytes
  import opened Septets
  import opened GsmText
  import opened GsmDecode
  import opened SmsAddresses
  import opened SmsDeliver
  import opened SmsSegments
  import SmsSubmit

  /** A text in the default alphabet, or in any other. */
  datatype Body = Septets(septets: seq<nat>) | Octets(octets: seq<byte>)

  /** The fields of a DELIVER PDU. */
  datatype Deliver = Deliver(
    sender: Address, pid: byte, dcs: byte, timestamp: seq<byte>, header: Option<seq<byte>>, body: Body)

  /** User data with a header: the text starts at the first septet boundary after the header. */
  function ParseSeptets(udl: nat, ud: seq<byte>, udhi: bool): Option<(Option<seq<byte>>, Body)> {
    if !udhi then
      match Unpack(ud, 0, udl)
      case None => None
      case Some(vs) => Some((None, Septets(vs)))
    else if |ud| == 0 || 1 + ud[0] > |ud| then None
    else
      var headerSeptets: nat := (8 * (ud[0] as nat + 1) + 6) / 7;
      if udl < headerSeptets then None
      else
        match Unpack(ud, 7 * headerSeptets, udl - headerSeptets)
        case None => None
        case Some(vs) => Some((Some(ud[1..1 + ud[0]]), Septets(vs)))
  }

  /** In octets, the text starts right behind the header. */
  function ParseOctets(udl: nat, ud: seq<byte>, udhi: bool): Option<(Option<seq<byte>>, Body)> {
    if udl > |ud| then None
    else if !udhi then Some((None, Octets(ud[..udl])))
    else if udl == 0 || 1 + ud[0] > udl then None
    else Some((Some(ud[1..1 + ud[0]]), Octets(ud[1 + ud[0]..udl])))
  }

  function ParseDeliver(b: seq<byte>): Option<Deliver> {
    if |b| == 0 || 1 + b[0] + 2 >= |b| then None
    else
      var p: nat := 1 + b[0] as int;
      var n: nat := (b[p + 1] as nat + 1) / 2;
      var q := p + 3 + n;
      if b[p] % 4 != 0 || q + 10 > |b| then None
      else
        var packed, udhi := SmsSubmit.MessageCoding(b[q + 1]) == SmsSubmit.Gsm7, (b[p] / 64) % 2 == 1;
        match if packed then ParseSeptets(b[q + 9], b[q + 10..], udhi) else ParseOctets(b[q + 9], b[q + 10..], udhi)
        case None => None
        case Some((header, body)) =>
          Some(Deliver(Address(b[p + 1], b[p + 2], b[p + 3..q]), b[q], b[q + 1], b[q + 2..q + 9], header, body))
  }

  // ---------------------------------------------------------------- one PDU

  /** Reading septets that start in a later byte. */
  lemma {:induction false} UnpackLater(a: seq<byte>, b: seq<byte>, pos: nat, n: nat)
    ensures Unpack(a + b, 8 * |a| + pos, n) == Unpack(b, pos, n)
    decreases n
  {
    if n > 0 {
      hide Shl, Shr;
      assert (8 * |a| + pos) / 8 == |a| + pos / 8 && (8 * |a| + pos) % 8 == pos % 8;
      assert SeptetAt(a + b, 8 * |a| + pos) == SeptetAt(b, pos);
      UnpackLater(a, b, pos + 7, n - 1);
    }
  }

  lemma UserDataParses(text: seq<byte>, e: Envelope)
    requires |TextSeptets(text)| + 7 < 256
    ensures var ud := UserData(text, true, e);
      |ud| > 0 && ParseSeptets(ud[0], ud[1..], e.count > 1) ==
        Some((if e.count > 1 then Some(UserHeader(e)[1..]) else None, Septets(TextSeptets(text))))
  {
    hide TextSeptets, Pack, Unpack, Pow2;
    var vs := TextSeptets(text);
    var ud := UserData(text, true, e);
    if e.count > 1 {
      var packed := Pack(0, 1, vs);
      PackInverts(0, 1, vs);
      assert ud[1..] == UserHeader(e) + packed;
      UnpackLater(UserHeader(e), packed, 1, |vs|);
      assert ud[1..][1..6] == UserHeader(e)[1..];
    } else {
      PackInverts(0, 0, vs);
      assert ud[1..] == Pack(0, 0, vs);
    }
  }

  lemma EncodedField(a: Address, src: string)
    requires Encodes(a, src)
    ensures var n := (a.len + 1) / 2;
      |AddressField(a)| == 2 + n && AddressField(a)[0] == a.len && AddressField(a)[1] == a.toa &&
      AddressField(a)[2..] == a.data[..n]
  {
    FieldOfEncoded(a, src);
  }

  /** The element of a concatenated message: its identifier, the length, reference, count and index. */
  lemma HeaderIs(e: Envelope)
    ensures UserHeader(e)[1..] == [0, 3, e.ref % 256, e.count % 256, (e.index % 256 + 1) % 256]
  {
  }

  /** A built PDU parses into what it was built from. */
  lemma DeliverParses(text: seq<byte>, e: Envelope, src: string)
    requires e.Valid() && Encodes(e.sender, src) && |TextSeptets(text)| + 7 < 256
    ensures ParseDeliver(DeliverBytes(text, true, e)) == Some(Deliver(
      Address(e.sender.len, e.sender.toa, e.sender.data[..(e.sender.len + 1) / 2]), 0, 0, e.timestamp,
      if e.count > 1 then Some([0, 3, e.ref % 256, e.count % 256, (e.index % 256 + 1) % 256]) else None,
      Septets(TextSeptets(text))))
  {
    hide TextSeptets, UserData, UserHeader, ParseSeptets, ParseOctets, AddressField, Encodes;
    var b, ud, field := DeliverBytes(text, true, e), UserData(text, true, e), AddressField(e.sender);
    EncodedField(e.sender, src);
    UserDataParses(text, e);
    HeaderIs(e);
    var n := (e.sender.len + 1) / 2;
    assert b == Prefix(true, e) + ud;
    assert |Prefix(true, e)| == 13 + n;
    assert b[2..4 + n] == field;
    assert b[2] == field[0] && b[3] == field[1] && b[4..4 + n] == field[2..];
    assert b[4 + n + 2..4 + n + 9] == e.timestamp;
    assert b[4 + n + 9] == ud[0] && b[4 + n + 10..] == ud[1..];
  }

  /** What a parser makes of user data in UCS2: the length that the source writes once more comes first,
      and the last byte of the text is cut off. */
  function Shifted(text: seq<byte>): (r: seq<byte>)
    requires 2 * |text| + 6 < 256
    ensures |r| == 2 * |text|
  {
    ([2 * |text|] + Ucs2(text))[..2 * |text|]
  }

  lemma Ucs2Parses(text: seq<byte>, e: Envelope)
    requires 2 * |text| + 6 < 256
    ensures var ud := UserData(text, false, e);
      |ud| > 0 && ParseOctets(ud[0], ud[1..], e.count > 1) ==
        Some((if e.count > 1 then Some(UserHeader(e)[1..]) else None, Octets(Shifted(text))))
  {
    hide Ucs2;
    var ud, body := UserData(text, false, e), [2 * |text|] + Ucs2(text);
    if e.count > 1 {
      assert ud[1..] == UserHeader(e) + body && ud[0] == 2 * |text| + 6;
      assert ud[1..][6..ud[0]] == body[..2 * |text|] && ud[1..][1..6] == UserHeader(e)[1..];
    } else {
      assert ud[1..] == body;
    }
  }

  /** A PDU in UCS2 parses into what it was built from, but for its text. */
  lemma Ucs2DeliverParses(text: seq<byte>, e: Envelope, src: string)
    requires e.Valid() && Encodes(e.sender, src) && 2 * |text| + 6 < 256
    ensures ParseDeliver(DeliverBytes(text, false, e)) == Some(Deliver(
      Address(e.sender.len, e.sender.toa, e.sender.data[..(e.sender.len + 1) / 2]), 0, 9, e.timestamp,
      if e.count > 1 then Some([0, 3, e.ref % 256, e.count % 256, (e.index % 256 + 1) % 256]) else None,
      Octets(Shifted(text))))
  {
    hide Ucs2, UserData, UserHeader, ParseSeptets, ParseOctets, AddressField, Encodes, Shifted;
    var b, ud, field := DeliverBytes(text, false, e), UserData(text, false, e), AddressField(e.sender);
    EncodedField(e.sender, src);
    Ucs2Parses(text, e);
    HeaderIs(e);
    var n := (e.sender.len + 1) / 2;
    assert b == Prefix(false, e) + ud;
    assert |Prefix(false, e)| == 13 + n;
    assert b[2..4 + n] == field;
    assert b[2] == field[0] && b[3] == field[1] && b[4..4 + n] == field[2..];
    assert b[4 + n + 2..4 + n + 9] == e.timestamp;
    assert b[4 + n + 9] == ud[0] && b[4 + n + 10..] == ud[1..];
  }

  /** Text in UCS2 arrives exactly when there is none: its first byte is that of the length. */
  lemma Ucs2ArrivesIff(text: seq<byte>)
    requires 2 * |text| + 6 < 256
    ensures Shifted(text) == Ucs2(text) <==> text == []
  {
    if |text| > 0 {
      Ucs2First(text);
      assert Shifted(text)[0] == 2 * |text| as int;
    }
  }

  lemma {:induction false} Ucs2First(text: seq<byte>)
    requires |text| > 0
    ensures Ucs2(text)[0] == 0 && Ucs2(text)[1] == text[0]
  {
    if |text| > 1 {
      Ucs2First(text[..|text| - 1]);
    }
  }

  // ---------------------------------------------------------------- all PDUs of a message

  /** The septets of all parts, in order. */
  function Reassemble(pdus: seq<seq<byte>>): Option<seq<nat>> {
    if |pdus| == 0 then Some([])
    else
      match Reassemble(pdus[..|pdus| - 1])
      case None => None
      case Some(vs) =>
        match ParseDeliver(pdus[|pdus| - 1])
        case None => None
        case Some(d) => if d.body.Septets? then Some(vs + d.body.septets) else None
  }

  lemma {:induction false} SeptetsConcat(a: seq<byte>, b: seq<byte>)
    ensures TextSeptets(a + b) == TextSeptets(a) + TextSeptets(b)
  {
    hide Find, FindExtend, CharSeptets;
    if |a| > 0 {
      SeptetsConcat(a[1..], b);
      assert (a + b)[1..] == a[1..] + b;
    } else {
      assert a + b == b;
    }
  }

  lemma BaseTextTotal(text: seq<byte>)
    requires BaseText(text)
    ensures Representable(text) && Total(text, true) == |text|
  {
    hide Find, FindExtend;
    forall i | 0 <= i < |text|
      ensures Find(text[i], 0).Some?
    {
      assert BaseChar(text[i]);
    }
    BaseTextSeptets(text);
  }

  /** Part `k` of a base alphabet text: at most 154 characters, one septet each. */
  lemma BasePiece(k: nat, text: seq<byte>, next: byte)
    requires BaseText(text) && k < PduCount(|text|, true)
    ensures BaseText(Piece(k, |text|, true, text, next))
    ensures |TextSeptets(Piece(k, |text|, true, text, next))| <= 154
  {
    hide Find, FindExtend, TextSeptets;
    var n, piece := PduCount(|text|, true), Piece(k, |text|, true, text, next);
    CutClosed(k, |text|, true, |text|);
    CutNext(k, |text|, true, |text|);
    assert Share(k, |text|, true) <= 154;
    assert Cut(k + 1, |text|, true, |text|) <= |text| by {
      if k + 1 < n { CutClosed(k + 1, |text|, true, |text|); } else { CutEnd(|text|, true, |text|); }
    }
    forall i | 0 <= i < |piece|
      ensures BaseChar(piece[i])
    {
      assert piece[i] == text[Cut(k, |text|, true, |text|) + i];
    }
    BaseTextSeptets(piece);
  }

  /** What the builder promises about its list. */
  ghost predicate Built(pdus: seq<seq<byte>>, text: seq<byte>, next: byte, sender: Address, timestamp: seq<byte>,
    ref: byte)
  {
    Envelope(sender, timestamp, 0, 0, 0).Valid() &&
    |pdus| == PduCount(Total(text, Representable(text)), Representable(text)) &&
    forall k :: 0 <= k < |pdus| ==> pdus[k] == Pdu(k, text, next, sender, timestamp, ref)
  }

  lemma PartParses(k: nat, text: seq<byte>, next: byte, sender: Address, src: string, timestamp: seq<byte>, ref: byte)
    requires Envelope(sender, timestamp, 0, 0, 0).Valid() && Encodes(sender, src)
    requires BaseText(text) && k < PduCount(|text|, true) <= 255
    ensures ParseDeliver(Pdu(k, text, next, sender, timestamp, ref)) == Some(Deliver(
      Address(sender.len, sender.toa, sender.data[..(sender.len + 1) / 2]), 0, 0, timestamp,
      if PduCount(|text|, true) > 1 then Some([0, 3, ref, PduCount(|text|, true), k + 1]) else None,
      Septets(TextSeptets(Piece(k, |text|, true, text, next)))))
  {
    hide TextSeptets, DeliverBytes, Piece, ParseDeliver, Encodes, Representable;
    BaseTextTotal(text);
    BasePiece(k, text, next);
    var e := Envelope(sender, timestamp, ref, PduCount(|text|, true), k);
    DeliverParses(Piece(k, |text|, true, text, next), e, src);
    assert UserHeader(e)[1..] == [0, 3, ref, PduCount(|text|, true), k + 1];
  }

  lemma ReassembleStep(pdus: seq<seq<byte>>)
    requires |pdus| > 0
    ensures var before, last := Reassemble(pdus[..|pdus| - 1]), ParseDeliver(pdus[|pdus| - 1]);
      Reassemble(pdus) ==
        if before.None? || last.None? || last.value.body.Octets? then None
        else Some(before.value + last.value.body.septets)
  {
    hide ParseDeliver;
  }

  lemma ReassembleNothing(pdus: seq<seq<byte>>, total: nat, text: seq<byte>, next: byte)
    requires |pdus| == 0
    ensures Reassemble(pdus) == Some(TextSeptets(Joined(0, total, true, text, next)))
  {
    hide ParseDeliver, Piece;
  }

  lemma {:induction false} PrefixReassembles(
    pdus: seq<seq<byte>>, text: seq<byte>, next: byte, sender: Address, src: string, timestamp: seq<byte>, ref: byte)
    requires Envelope(sender, timestamp, 0, 0, 0).Valid() && Encodes(sender, src)
    requires BaseText(text) && |pdus| <= PduCount(|text|, true) <= 255
    requires forall k :: 0 <= k < |pdus| ==> pdus[k] == Pdu(k, text, next, sender, timestamp, ref)
    ensures Reassemble(pdus) == Some(TextSeptets(Joined(|pdus|, |text|, true, text, next)))
    decreases |pdus|
  {
    hide *;
    if |pdus| > 0 {
      var k := |pdus| - 1;
      PrefixReassembles(pdus[..k], text, next, sender, src, timestamp, ref);
      PartParses(k, text, next, sender, src, timestamp, ref);
      SeptetsConcat(Joined(k, |text|, true, text, next), Piece(k, |text|, true, text, next));
      JoinedStep(k, |text|, true, text, next);
      ReassembleStep(pdus);
    } else {
      ReassembleNothing(pdus, |text|, text, next);
    }
  }

  /** Segmentation conserves the message: ceil(n / 154) PDUs, the same reference and count in every
      header, indices 1..count, and the septets of all parts together are those of the text. */
  lemma MessageReassembles(
    pdus: seq<seq<byte>>, text: seq<byte>, next: byte, sender: Address, src: string, timestamp: seq<byte>, ref: byte)
    requires Built(pdus, text, next, sender, timestamp, ref) && Encodes(sender, src)
    requires BaseText(text) && |text| <= 255 * 154
    ensures |pdus| == (|text| + 153) / 154
    ensures forall k {:trigger pdus[k]} :: 0 <= k < |pdus| ==>
      ParseDeliver(pdus[k]).Some? &&
      ParseDeliver(pdus[k]).value.timestamp == timestamp &&
      ParseDeliver(pdus[k]).value.header == if |pdus| > 1 then Some([0, 3, ref, |pdus|, k + 1]) else None
    ensures Reassemble(pdus) == Some(TextSeptets(text))
    ensures SeptetsText(TextSeptets(text), false) == text
  {
    hide TextSeptets, ParseDeliver, Encodes, BaseText, Piece, Pdu, Representable, SeptetsText, Reassemble;
    BaseTextTotal(text);
    BaseTextSeptets(text);
    forall k {:trigger pdus[k]} | 0 <= k < |pdus|
      ensures ParseDeliver(pdus[k]).Some?
      ensures ParseDeliver(pdus[k]).value.timestamp == timestamp
      ensures ParseDeliver(pdus[k]).value.header == if |pdus| > 1 then Some([0, 3, ref, |pdus|, k + 1]) else None
    {
      PartParses(k, text, next, sender, src, timestamp, ref);
    }
    PrefixReassembles(pdus, text, next, sender, src, timestamp, ref);
    CutEnd(|text|, true, |text|);
    JoinedIsPrefix(|pdus|, |text|, true, text, next);
    assert (text + [next])[..|text|] == text;
  }
}
