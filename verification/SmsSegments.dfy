/**
  Splitting a text over SMS-DELIVER PDUs (smspdu_create_deliver_utf8 in huawei-generic/sms_gsm.c).

  The number of PDUs is computed from the number of septets, but each PDU takes a number of
  characters, and utf8_skip may step one past the end of the text.  `next` is the byte that follows
  the text in memory (the terminator of the C string).
 */
module SmsSegments {
  import opened Options
  import opened Bytes
  import opened GsmText
  import opened SmsAddresses
  import opened SmsDeliver

  /** Septets or UCS2 characters that go into one PDU. */
  function Block(gsm7: bool): nat { if gsm7 then 154 else 134 }

  /** utf8_skip on ASCII text of length `len`: it stops at an index above `len`, not at `len`. */
  function SkipTo(p: nat, len: nat, n: nat): nat {
    if p > len then p else if p + n <= len + 1 then p + n else len + 1
  }

  function PduCount(total: nat, gsm7: bool): nat {
    total / Block(gsm7) + if total % Block(gsm7) > 0 then 1 else 0
  }

  /** As few PDUs as carry 154 septets or 134 characters each. */
  lemma FewestPdus(total: nat)
    ensures PduCount(total, true) == (total + 153) / 154
    ensures PduCount(total, false) == (total + 133) / 134
  {
  }

  /** Characters that PDU `k` asks for. */
  function Share(k: nat, total: nat, gsm7: bool): nat {
    if total % Block(gsm7) > 0 && k + 1 == PduCount(total, gsm7) then total % Block(gsm7) else Block(gsm7)
  }

  /** Where PDU `k` starts. */
  function Cut(k: nat, total: nat, gsm7: bool, len: nat): (r: nat)
    ensures r <= len + 1
  {
    if k == 0 then 0 else SkipTo(Cut(k - 1, total, gsm7, len), len, Share(k - 1, total, gsm7))
  }

  lemma CutGrows(k: nat, total: nat, gsm7: bool, len: nat)
    ensures Cut(k, total, gsm7, len) <= Cut(k + 1, total, gsm7, len)
  {
  }

  lemma CutNext(k: nat, total: nat, gsm7: bool, len: nat)
    ensures Cut(k + 1, total, gsm7, len) == SkipTo(Cut(k, total, gsm7, len), len, Share(k, total, gsm7))
    ensures Cut(0, total, gsm7, len) == 0
  {
  }

  /** The text that goes into PDU `k`. */
  function Piece(k: nat, total: nat, gsm7: bool, text: seq<byte>, next: byte): seq<byte> {
    CutGrows(k, total, gsm7, |text|);
    (text + [next])[Cut(k, total, gsm7, |text|)..Cut(k + 1, total, gsm7, |text|)]
  }

  /** The number of units the text is counted as. */
  function Total(text: seq<byte>, gsm7: bool): nat { if gsm7 then |TextSeptets(text)| else |text| }

  predicate Representable(text: seq<byte>) {
    forall i :: 0 <= i < |text| ==> Find(text[i], 0).Some? || FindExtend(text[i], 0).Some?
  }

  function Pdu(k: nat, text: seq<byte>, next: byte, sender: Address, timestamp: seq<byte>, ref: nat): seq<byte>
    requires Envelope(sender, timestamp, 0, 0, 0).Valid()
  {
    var gsm7 := Representable(text);
    var total := Total(text, gsm7);
    DeliverBytes(Piece(k, total, gsm7, text, next), gsm7,
                 Envelope(sender, timestamp, ref, PduCount(total, gsm7), k))
  }

  // ---------------------------------------------------------------- the builder

  /** utf8_skip */
  method Utf8Skip(p0: nat, len: nat, count0: nat) returns (p: nat)
    ensures p == SkipTo(p0, len, count0)
  {
    p := p0;
    var count := count0;
    while count > 0
      invariant SkipTo(p0, len, count0) == SkipTo(p, len, count)
    {
      if p > len { break; }
      p := p + 1;
      count := count - 1;
    }
  }

  /** How many PDUs, what each takes, and what is left for the last one. */
  method Plan(count: nat, gsm7: bool) returns (block: nat, numPdus: nat, leftover: nat)
    ensures numPdus == PduCount(count, gsm7)
    ensures forall k :: 0 <= k < numPdus ==>
      Share(k, count, gsm7) == if leftover > 0 && k == numPdus - 1 then leftover else block
  {
    block := if gsm7 then 160 - 6 else 140 - 6;
    numPdus := if gsm7 then count / 154 else count / 134;
    leftover := count - numPdus * block;
    if leftover > 0 { numPdus := numPdus + 1; }
  }

  const ADDRESS_SIZE: nat := 4

  class DeliverBuilder {
    const heap: nat -> bool
    /** The static reference number. */
    var refNum: byte

    constructor (heap: nat -> bool)
      ensures this.heap == heap && refNum == 0
    {
      this.heap := heap;
      refNum := 0;
    }

    /** One turn of the loop: skip over the characters of PDU `k` and build it. */
    method CreatePart(k: nat, src: nat, skip: nat, text: seq<byte>, next: byte, gsm7: bool, ghost total: nat,
      e: Envelope)
      returns (pdu: Option<seq<byte>>, srcNext: nat)
      requires Ascii(text + [next]) && e.Valid()
      requires src == Cut(k, total, gsm7, |text|) && skip == Share(k, total, gsm7)
      ensures srcNext == Cut(k + 1, total, gsm7, |text|)
      ensures pdu.Some? ==> pdu.value == DeliverBytes(Piece(k, total, gsm7, text, next), gsm7, e)
      ensures pdu.None? ==> exists n :: !heap(n)
    {
      hide DeliverBytes, Cut, SkipTo;
      srcNext := Utf8Skip(src, |text|, skip);
      CutNext(k, total, gsm7, |text|);
      CutGrows(k, total, gsm7, |text|);
      var piece := (text + [next])[src..srcNext];
      pdu := CreateDeliver(heap, piece, gsm7, e);
    }

    /** smspdu_create_deliver_utf8.  The reference number advances only when all PDUs were built; a
        failure means that some allocation failed. */
    method CreateDeliverUtf8(text: seq<byte>, next: byte, sender: Address, timestamp: seq<byte>)
      returns (list: Option<seq<seq<byte>>>)
      requires Ascii(text + [next]) && Envelope(sender, timestamp, 0, 0, 0).Valid()
      modifies this
      ensures list.Some? ==>
        |list.value| == PduCount(Total(text, Representable(text)), Representable(text)) &&
        (forall k :: 0 <= k < |list.value| ==> list.value[k] == Pdu(k, text, next, sender, timestamp, old(refNum))) &&
        refNum == (old(refNum) + 1) % 256
      ensures list.None? ==> refNum == old(refNum) && exists n :: !heap(n)
    {
      hide DeliverBytes, TextSeptets, Find, FindExtend, Cut, SkipTo, Piece, PduCount, Share;
      assert forall i :: 0 <= i < |text| ==> (text + [next])[i] == text[i];
      var gsm7 := Utf8CheckGsm7(text);
      var count := |text|;
      if gsm7 { count := Utf8ToGsm7Count(text); }
      var block, numPdus, leftover := Plan(count, gsm7);
      if !heap(ADDRESS_SIZE * (count + 1)) { return None; }
      CutNext(0, count, gsm7, |text|);
      var pdus := [];
      var src, nn := 0, 0;
      while nn < numPdus
        invariant 0 <= nn <= numPdus == PduCount(count, gsm7)
        invariant |pdus| == nn && src == Cut(nn, count, gsm7, |text|)
        invariant refNum == old(refNum)
        invariant forall k :: 0 <= k < nn ==> pdus[k] == Pdu(k, text, next, sender, timestamp, old(refNum))
      {
        var skip := block;
        if leftover > 0 && nn == numPdus - 1 { skip := leftover; }
        var pdu, srcNext := CreatePart(nn, src, skip, text, next, gsm7, count,
          Envelope(sender, timestamp, refNum, numPdus, nn));
        if pdu.None? { return None; }
        pdus := pdus + [pdu.value];
        src := srcNext;
        nn := nn + 1;
      }
      refNum := (refNum + 1) % 256;
      return Some(pdus);
    }
  }

  // ---------------------------------------------------------------- conservation

  /** The first `k` pieces, one after the other. */
  function Joined(k: nat, total: nat, gsm7: bool, text: seq<byte>, next: byte): seq<byte> {
    if k == 0 then [] else Joined(k - 1, total, gsm7, text, next) + Piece(k - 1, total, gsm7, text, next)
  }

  lemma JoinedStep(k: nat, total: nat, gsm7: bool, text: seq<byte>, next: byte)
    ensures Joined(k + 1, total, gsm7, text, next) ==
      Joined(k, total, gsm7, text, next) + Piece(k, total, gsm7, text, next)
  {
    hide Piece;
  }

  lemma {:induction false} JoinedIsPrefix(k: nat, total: nat, gsm7: bool, text: seq<byte>, next: byte)
    ensures Joined(k, total, gsm7, text, next) == (text + [next])[..Cut(k, total, gsm7, |text|)]
  {
    if k > 0 {
      JoinedIsPrefix(k - 1, total, gsm7, text, next);
      CutGrows(k - 1, total, gsm7, |text|);
    }
  }

  /** PDU `k` starts after all that the earlier ones asked for, but at most one past the text. */
  lemma {:induction false} CutClosed(k: nat, total: nat, gsm7: bool, len: nat)
    requires k < PduCount(total, gsm7)
    ensures Cut(k, total, gsm7, len) == SkipTo(0, len, if gsm7 then 154 * k else 134 * k)
  {
    if k > 0 {
      CutClosed(k - 1, total, gsm7, len);
    }
  }

  lemma CutEnd(total: nat, gsm7: bool, len: nat)
    ensures Cut(PduCount(total, gsm7), total, gsm7, len) == SkipTo(0, len, total)
  {
    var n := PduCount(total, gsm7);
    if n > 0 {
      CutClosed(n - 1, total, gsm7, len);
    }
  }

  predicate NoExtension(text: seq<byte>) {
    forall i :: 0 <= i < |text| ==> Find(text[i], 0).Some? || FindExtend(text[i], 0).None?
  }

  lemma {:induction false} SeptetCount(text: seq<byte>)
    ensures |TextSeptets(text)| >= |text|
    ensures |TextSeptets(text)| == |text| <==> NoExtension(text)
  {
    if |text| > 0 {
      hide Find, FindExtend;
      SeptetCount(text[1..]);
      assert text == [text[0]] + text[1..];
      assert NoExtension(text) <==>
        NoExtension(text[1..]) && (Find(text[0], 0).Some? || FindExtend(text[0], 0).None?) by {
        if NoExtension(text) {
          forall i | 0 <= i < |text[1..]|
            ensures Find(text[1..][i], 0).Some? || FindExtend(text[1..][i], 0).None?
          {
            assert text[1..][i] == text[i + 1];
          }
        }
      }
    }
  }

  /** The PDUs carry exactly the text if it has no extension character (or does not fit the septet
      alphabet at all); otherwise the last non-empty one also carries the byte after the text. */
  lemma SegmentsConserve(text: seq<byte>, next: byte)
    ensures var gsm7 := Representable(text); var total := Total(text, gsm7);
      Joined(PduCount(total, gsm7), total, gsm7, text, next) ==
        if gsm7 && !NoExtension(text) then text + [next] else text
  {
    hide Find, FindExtend, TextSeptets, Piece, Joined, Cut, PduCount, Representable, NoExtension;
    var gsm7 := Representable(text);
    var total := Total(text, gsm7);
    SeptetCount(text);
    CutEnd(total, gsm7, |text|);
    JoinedIsPrefix(PduCount(total, gsm7), total, gsm7, text, next);
    assert (text + [next])[..|text|] == text;
    assert (text + [next])[..|text| + 1] == text + [next];
  }

  /** Exactly the text is carried if and only if it has no extension character, or does not fit the
      septet alphabet at all. */
  lemma SegmentsConserveIff(text: seq<byte>, next: byte)
    ensures var gsm7 := Representable(text); var total := Total(text, gsm7);
      Joined(PduCount(total, gsm7), total, gsm7, text, next) == text <==> !gsm7 || NoExtension(text)
  {
    SegmentsConserve(text, next);
  }

  /** The PDU for a single bracket also carries the byte behind it. */
  lemma BracketOverrun(next: byte)
    ensures var text := ['[' as int]; var total := Total(text, true);
      Representable(text) && Joined(PduCount(total, true), total, true, text, next) == text + [next]
  {
    hide Find, FindExtend, Joined, PduCount;
    BracketExtends();
    var text := ['[' as int];
    assert Representable(text) && !NoExtension(text) by {
      assert text[0] == '[' as int;
    }
    SegmentsConserve(text, next);
  }
}
