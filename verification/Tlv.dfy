/**
  TLV structures written in hex (huawei-generic/misc.c): hex digits to bytes and back, and the
  cursor parser for one structure.
 */
module Tlvs {
  import opened Options
  import opened Bytes
  import opened Hex

  const EINVAL: int := 22

  /** stringToBinary: the bytes of an even number of digits. */
  method StringToBinary(s: string, binary: array<byte>) returns (ret: int)
    requires |s| % 2 == 0 ==> |s| / 2 <= binary.Length
    modifies binary
    ensures ret == if |s| % 2 == 0 then 0 else -EINVAL
    ensures ret == 0 ==> binary[..] == Splice(old(binary[..]), 0, HexBytes(s))
    ensures ret != 0 ==> binary[..] == old(binary[..])
  {
    hide HexValue, HexBytes, Splice;
    if |s| % 2 == 1 { return -EINVAL; }
    ghost var was, all := binary[..], HexBytes(s);
    var pos, it := 0, 0;
    while it != |s|
      invariant 0 <= it <= |s| && it == 2 * pos
      invariant forall k :: 0 <= k < pos ==> binary[k] == all[k]
      invariant forall k :: pos <= k < binary.Length ==> binary[k] == was[k]
      decreases |s| - it
    {
      HexByteAt(s, pos);
      binary[pos] := HexValue(s[it]) * 16 + HexValue(s[it + 1]);
      pos := pos + 1;
      it := it + 2;
    }
    SplicedAtStart(was, binary[..], all);
    return 0;
  }

  lemma SplicedAtStart(was: seq<byte>, now: seq<byte>, bytes: seq<byte>)
    requires |was| == |now| && |bytes| <= |was|
    requires forall k :: 0 <= k < |bytes| ==> now[k] == bytes[k]
    requires forall k :: |bytes| <= k < |was| ==> now[k] == was[k]
    ensures now == Splice(was, 0, bytes)
  {
  }

  /** binaryToString: the digits and a terminator. */
  method BinaryToString(binary: seq<byte>, s: array<char>)
    requires 2 * |binary| < s.Length
    modifies s
    ensures s[..2 * |binary|] == HexOf(binary) && s[2 * |binary|] == '\0'
    ensures s[2 * |binary| + 1..] == old(s[2 * |binary| + 1..])
  {
    hide HexOf;
    ghost var was := s[..];
    var pos, it := 0, 0;
    while it != |binary|
      invariant 0 <= it <= |binary| && pos == 2 * it
      invariant forall k :: 0 <= k < pos ==> s[k] == HexOf(binary)[k]
      invariant forall k :: pos <= k < s.Length ==> s[k] == was[k]
      decreases |binary| - it
    {
      HexOfAt(binary, it);
      s[pos] := HEX_DIGITS[binary[it] / 16];
      s[pos + 1] := HEX_DIGITS[binary[it] % 16];
      it := it + 1;
      pos := pos + 2;
    }
    s[pos] := '\0';
  }

  // ---------------------------------------------------------------- one structure

  /** A tag, and where the digits of its value start and end. */
  datatype Tlv = Tlv(tag: byte, data: nat, end: nat)

  /** The byte written with the two digits at `at`: TLV_DATA and TLV_STREAM_GET. */
  function ByteAt(s: string, at: nat): byte
    requires at + 2 <= |s|
  {
    HexValue(s[at]) * 16 + HexValue(s[at + 1])
  }

  /** What parseTlv finds at `at`, looking no further than `end`. */
  function TlvAt(s: string, at: nat, end: nat): (t: Option<Tlv>)
    requires end <= |s|
    ensures t.Some? ==> at + 4 == t.value.data <= t.value.end <= end && (t.value.end - t.value.data) % 2 == 0
  {
    if at + 4 > end then None
    else
      var size := ByteAt(s, at + 2) as int;
      if at + 4 + 2 * size > end then None else Some(Tlv(ByteAt(s, at), at + 4, at + 4 + 2 * size))
  }

  /** parseTlv */
  method ParseTlv(s: string, stream0: nat, end: nat) returns (ret: int, tlv: Tlv)
    requires end <= |s|
    ensures ret == if TlvAt(s, stream0, end).Some? then 0 else -EINVAL
    ensures ret == 0 ==> Some(tlv) == TlvAt(s, stream0, end)
  {
    hide HexValue;
    tlv := Tlv(0, 0, 0);
    var stream := stream0;
    if stream + 1 >= end { return -EINVAL, tlv; }
    tlv := Tlv(ByteAt(s, stream), 0, 0);
    stream := stream + 2;
    if stream + 1 >= end { return -EINVAL, tlv; }
    var size := ByteAt(s, stream) as int;
    stream := stream + 2;
    if stream + size * 2 > end { return -EINVAL, tlv; }
    return 0, Tlv(tlv.tag, stream, stream + size * 2);
  }

  // ---------------------------------------------------------------- print and parse

  /** A structure before it is printed: the length fits a byte. */
  datatype Item = Item(tag: byte, value: seq<byte>) {
    predicate Valid() { |value| < 256 }
  }

  function ItemBytes(item: Item): seq<byte>
    requires item.Valid()
  {
    [item.tag, |item.value|] + item.value
  }

  predicate AllValid(items: seq<Item>) { forall k :: 0 <= k < |items| ==> items[k].Valid() }

  function ListBytes(items: seq<Item>): seq<byte>
    requires AllValid(items)
  {
    if |items| == 0 then [] else ItemBytes(items[0]) + ListBytes(items[1..])
  }

  /** The structures from `at` to `end`. */
  function ReadItems(s: string, at: nat, end: nat): Option<seq<Item>>
    requires end <= |s|
    decreases |s| - at
  {
    if at >= end then Some([])
    else
      match TlvAt(s, at, end)
      case None => None
      case Some(t) =>
        match ReadItems(s, t.end, end)
        case None => None
        case Some(items) => Some([Item(t.tag, HexBytes(s[t.data..t.end]))] + items)
  }

  lemma {:induction false} HexConcat(a: seq<byte>, b: seq<byte>)
    ensures HexOf(a + b) == HexOf(a) + HexOf(b)
  {
    if |a| > 0 {
      HexConcat(a[1..], b);
      assert (a + b)[1..] == a[1..] + b;
    } else {
      assert a + b == b;
    }
  }

  lemma PrintedByte(b: byte, s: string, at: nat)
    requires at + 2 <= |s| && s[at..at + 2] == HexOf([b])
    ensures ByteAt(s, at) == b
  {
    hide HexValue, HexBytes;
    HexRoundTrip([b]);
    HexByteAt(HexOf([b]), 0);
    assert s[at] == s[at..at + 2][0] && s[at + 1] == s[at..at + 2][1];
  }

  /** A printed structure is found again, whatever comes before and behind it. */
  lemma PrintedTlv(before: string, item: Item, after: string)
    requires item.Valid()
    ensures var s := before + HexOf(ItemBytes(item)) + after;
      var end := |before| + 4 + 2 * |item.value|;
      TlvAt(s, |before|, |s|) == Some(Tlv(item.tag, |before| + 4, end)) && s[|before| + 4..end] == HexOf(item.value)
  {
    hide HexValue, HexOf;
    var n: byte := |item.value|;
    var at := |before|;
    HexConcat([item.tag, n], item.value);
    assert [item.tag, n] == [item.tag] + [n];
    HexConcat([item.tag], [n]);
    var s := before + HexOf(ItemBytes(item)) + after;
    assert HexOf(ItemBytes(item)) == HexOf([item.tag]) + HexOf([n]) + HexOf(item.value);
    assert s[at..at + 2] == HexOf([item.tag]) && s[at + 2..at + 4] == HexOf([n]);
    PrintedByte(item.tag, s, at);
    PrintedByte(n, s, at + 2);
  }

  /** Printing any list of structures and reading it back gives the list. */
  lemma {:induction false} ListRoundTrip(before: string, items: seq<Item>)
    requires AllValid(items)
    ensures var s := before + HexOf(ListBytes(items)); ReadItems(s, |before|, |s|) == Some(items)
    decreases |items|
  {
    hide HexOf, HexBytes, TlvAt;
    var s := before + HexOf(ListBytes(items));
    if |items| > 0 {
      var first, rest := HexOf(ItemBytes(items[0])), ListBytes(items[1..]);
      HexConcat(ItemBytes(items[0]), rest);
      PrintedTlv(before, items[0], HexOf(rest));
      HexRoundTrip(items[0].value);
      ListRoundTrip(before + first, items[1..]);
      assert s == before + first + HexOf(rest);
      assert items == [items[0]] + items[1..];
    }
  }
}
