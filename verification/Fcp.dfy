/**
  Reading an FCP template into the older file description (fcp_to_ts_51011 in
  huawei-generic/fcp_parser.c; sections 11.1.1.3 and 11.1.1.4 of ETSI TS 102 221, section 9.2.1 of
  3GPP TS 51.011).
 */
module Fcp {
  import opened Options
  import opened Bytes
  import opened Hex
  import opened Tlvs

  const ENOTSUP: int := 95

  /** The fields that are set; file_acc stays zero.  Size and identifier keep the order of their bytes. */
  datatype FileInfo = FileInfo(
    size: seq<byte>, id: seq<byte>, kind: byte, status: byte, dataSize: byte, structure: byte, recordSize: byte)

  function Blank(): FileInfo { FileInfo([0, 0], [0, 0], 0, 0, 0, 0, 0) }

  /** The result code, and the description as far as it has been filled. */
  datatype Outcome = Outcome(ret: int, info: FileInfo)

  /** An elementary file: transparent, or with records. */
  function ElementaryFile(info0: FileInfo, v: seq<byte>): Outcome
    requires |v| >= 2
  {
    var info := info0.(kind := 4, status := 1, dataSize := (info0.dataSize + 1) % 256);
    if v[0] % 8 == 1 then Outcome(0, info.(structure := 0))
    else if |v| < 5 then Outcome(-EINVAL, info)
    else
      var records := info.(dataSize := (info.dataSize + 1) % 256, recordSize := v[3]);
      if v[0] % 8 == 6 then Outcome(0, records.(structure := 3))
      else if v[0] % 8 == 2 then Outcome(0, records.(structure := 1))
      else Outcome(-EINVAL, records)
  }

  /** One property. */
  function Apply(info: FileInfo, item: Item): Outcome {
    var v := item.value;
    if item.tag == 0x80 then if |v| != 2 then Outcome(-ENOTSUP, info) else Outcome(0, info.(size := v))
    else if item.tag == 0x83 then if |v| != 2 then Outcome(-EINVAL, info) else Outcome(0, info.(id := v))
    else if item.tag == 0x82 then
      if |v| < 2 then Outcome(-EINVAL, info)
      else if v[0] % 64 == 0x38 && v[0] < 128 then Outcome(0, info.(kind := 2))
      else if v[0] / 16 % 4 == 0 && v[0] < 128 then ElementaryFile(info, v)
      else Outcome(0, info.(kind := 0))
    else Outcome(0, info)
  }

  /** The properties from `at` on, each bounded by the whole stream, until `last` is reached. */
  function Walk(s: string, at: nat, last: nat, info: FileInfo): Outcome
    decreases |s| - at
  {
    if at >= last then Outcome(0, info)
    else
      match TlvAt(s, at, |s|)
      case None => Outcome(-EINVAL, info)
      case Some(t) =>
        var o := Apply(info, Item(t.tag, HexBytes(s[t.data..t.end])));
        if o.ret != 0 then o else Walk(s, t.end, last, o.info)
  }

  /** What the whole function makes of a stream; None for the description when it is not touched. */
  function Converted(s: string): (int, Option<FileInfo>) {
    match TlvAt(s, 0, |s|)
    case None => (-EINVAL, None)
    case Some(fcp) =>
      if fcp.tag != 0x62 then (-EINVAL, None)
      else var o := Walk(s, fcp.data, fcp.end, Blank()); (o.ret, Some(o.info))
  }

  // ---------------------------------------------------------------- the code

  /** The value bytes that TLV_DATA reads. */
  lemma ValueByte(s: string, t: Tlv, k: nat)
    requires t.data <= t.end <= |s| && (t.end - t.data) % 2 == 0 && 2 * k < t.end - t.data
    ensures |HexBytes(s[t.data..t.end])| == (t.end - t.data) / 2
    ensures HexBytes(s[t.data..t.end])[k] == ByteAt(s, t.data + 2 * k)
  {
    hide HexValue;
    HexByteAt(s[t.data..t.end], k);
  }

  class FcpReader {
    var info: FileInfo

    constructor ()
    {
      info := Blank();
    }

    /** The descriptor branch of the switch. */
    method Descriptor(s: string, t: Tlv) returns (ret: int)
      requires t.data <= t.end <= |s| && (t.end - t.data) % 2 == 0 && t.tag == 0x82
      modifies this
      ensures Outcome(ret, info) == Apply(old(info), Item(t.tag, HexBytes(s[t.data..t.end])))
    {
      hide HexBytes, ByteAt;
      var size := (t.end - t.data) / 2;
      HexLength(s, t);
      if size < 2 { return -EINVAL; }
      ValueByte(s, t, 0);
      var fd := ByteAt(s, t.data);
      if fd % 64 == 0x38 && fd < 128 {
        info := info.(kind := 2);
      } else if fd / 16 % 4 == 0 && fd < 128 {
        info := info.(kind := 4, status := 1, dataSize := (info.dataSize + 1) % 256);
        if fd % 8 == 1 {
          info := info.(structure := 0);
        } else {
          if size < 5 { return -EINVAL; }
          ValueByte(s, t, 3);
          info := info.(dataSize := (info.dataSize + 1) % 256, recordSize := ByteAt(s, t.data + 6));
          if fd % 8 == 6 {
            info := info.(structure := 3);
          } else if fd % 8 == 2 {
            info := info.(structure := 1);
          } else {
            return -EINVAL;
          }
        }
      } else {
        info := info.(kind := 0);
      }
      return 0;
    }

    /** The switch over the tag of one property. */
    method Property(s: string, t: Tlv) returns (ret: int)
      requires t.data <= t.end <= |s| && (t.end - t.data) % 2 == 0
      modifies this
      ensures Outcome(ret, info) == Apply(old(info), Item(t.tag, HexBytes(s[t.data..t.end])))
    {
      hide HexBytes, ByteAt, ElementaryFile;
      var size := (t.end - t.data) / 2;
      HexLength(s, t);
      if t.tag == 0x80 || t.tag == 0x83 {
        if size != 2 { return if t.tag == 0x80 then -ENOTSUP else -EINVAL; }
        ValueByte(s, t, 0);
        ValueByte(s, t, 1);
        var v := [ByteAt(s, t.data), ByteAt(s, t.data + 2)];
        assert v == HexBytes(s[t.data..t.end]);
        info := if t.tag == 0x80 then info.(size := v) else info.(id := v);
        return 0;
      }
      if t.tag == 0x82 {
        ret := Descriptor(s, t);
        return;
      }
      return 0;
    }

    /** fcp_to_ts_51011: it terminates on any input and reads inside it only. */
    method ToTs51011(s: string) returns (ret: int)
      modifies this
      ensures ret == Converted(s).0
      ensures info == if Converted(s).1.Some? then Converted(s).1.value else old(info)
    {
      hide HexBytes, Apply, TlvAt;
      var fcp;
      ret, fcp := ParseTlv(s, 0, |s|);
      if ret < 0 { return; }
      if fcp.tag != 0x62 { return -EINVAL; }
      info := Blank();
      var at := fcp.data;
      ghost var all := Walk(s, fcp.data, fcp.end, info);
      while at < fcp.end
        invariant all == Walk(s, at, fcp.end, info) && ret == 0
        decreases |s| - at
      {
        var t;
        ret, t := ParseTlv(s, at, |s|);
        if ret < 0 { return; }
        TlvBounds(s, at);
        ret := Property(s, t);
        if ret != 0 { return; }
        at := t.end;
      }
    }
  }

  lemma TlvBounds(s: string, at: nat)
    ensures var t := TlvAt(s, at, |s|);
      t.Some? ==> at < t.value.end <= |s| && t.value.data <= t.value.end && (t.value.end - t.value.data) % 2 == 0
  {
  }

  lemma HexLength(s: string, t: Tlv)
    requires t.data <= t.end <= |s| && (t.end - t.data) % 2 == 0
    ensures |HexBytes(s[t.data..t.end])| == (t.end - t.data) / 2
  {
  }

  // ---------------------------------------------------------------- any stream

  /** The properties of a list, one after the other, up to the first that is refused. */
  function ApplyAll(info: FileInfo, items: seq<Item>): Outcome
    decreases |items|
  {
    if |items| == 0 then Outcome(0, info)
    else
      var o := Apply(info, items[0]);
      if o.ret != 0 then o else ApplyAll(o.info, items[1..])
  }

  /** The properties that a stream holds from some place on: those that can be read, whether that is all
      of them, and where they end. */
  datatype Found = Found(items: seq<Item>, whole: bool, end: nat)

  function Properties(s: string, at: nat, last: nat): Found
    decreases |s| - at
  {
    if at >= last then Found([], true, at)
    else
      match TlvAt(s, at, |s|)
      case None => Found([], false, at)
      case Some(t) =>
        var rest := Properties(s, t.end, last);
        Found([Item(t.tag, HexBytes(s[t.data..t.end]))] + rest.items, rest.whole, rest.end)
  }

  /** On any stream the walk is a fold over the properties, and an error if one cannot be read. */
  lemma {:induction false} WalkFolds(s: string, at: nat, last: nat, info: FileInfo)
    ensures var found := Properties(s, at, last);
      var o := ApplyAll(info, found.items);
      Walk(s, at, last, info) == if o.ret != 0 || found.whole then o else Outcome(-EINVAL, o.info)
    decreases |s| - at
  {
    hide HexBytes, Apply, TlvAt;
    if at < last {
      TlvBounds(s, at);
      match TlvAt(s, at, |s|)
      case None =>
      case Some(t) =>
        var o := Apply(info, Item(t.tag, HexBytes(s[t.data..t.end])));
        WalkFolds(s, t.end, last, o.info);
    }
  }

  /** The properties lie inside the template exactly when they can be read with its end as the bound. */
  lemma {:induction false} InsideIff(s: string, at: nat, last: nat)
    requires at <= last <= |s|
    ensures var found := Properties(s, at, last);
      found.whole && found.end == last <==> ReadItems(s, at, last) == Some(found.items)
    ensures ReadItems(s, at, last).Some? ==> ReadItems(s, at, last) == Some(Properties(s, at, last).items)
    decreases |s| - at
  {
    hide HexBytes;
    if at < last {
      match TlvAt(s, at, |s|)
      case None =>
      case Some(t) =>
        if t.end <= last {
          InsideIff(s, t.end, last);
        } else {
          EndsBehind(s, t.end, last);
        }
    }
  }

  lemma {:induction false} EndsBehind(s: string, at: nat, last: nat)
    ensures Properties(s, at, last).end >= at
    decreases |s| - at
  {
    hide HexBytes;
    if at < last {
      match TlvAt(s, at, |s|)
      case None =>
      case Some(t) => EndsBehind(s, t.end, last);
    }
  }

  /** A template whose only property runs past its end is accepted. */
  lemma AcceptedPastTheEnd()
    ensures var s := "62048A05010203040506";
      Converted(s) == (0, Some(Blank())) && ReadItems(s, 4, 12) == None
  {
    var s := "62048A05010203040506";
    assert ByteAt(s, 0) == 0x62 && ByteAt(s, 2) == 4 && ByteAt(s, 4) == 0x8A && ByteAt(s, 6) == 5;
    hide HexBytes, HexValue;
    assert TlvAt(s, 0, |s|) == Some(Tlv(0x62, 4, 12));
    assert TlvAt(s, 4, |s|) == Some(Tlv(0x8A, 8, 18)) && TlvAt(s, 4, 12) == None;
    assert Walk(s, 18, 12, Blank()) == Outcome(0, Blank());
  }

  // ---------------------------------------------------------------- what the fields mean

  predicate IsDescriptor(item: Item) { item.tag == 0x82 && |item.value| >= 2 }

  predicate IsElementary(item: Item) {
    IsDescriptor(item) && item.value[0] / 16 % 4 == 0 && item.value[0] < 128
  }

  /** An elementary file that is not transparent. */
  predicate HasRecords(item: Item) { IsElementary(item) && item.value[0] % 8 != 1 }

  /** A property that is not refused: sizes, identifiers and descriptors have their length, and files
      with records are linear or cyclic. */
  predicate Acceptable(item: Item) {
    (item.tag == 0x80 || item.tag == 0x83 ==> |item.value| == 2) &&
    (item.tag == 0x82 ==> |item.value| >= 2) &&
    (HasRecords(item) ==> |item.value| >= 5 && (item.value[0] % 8 == 2 || item.value[0] % 8 == 6))
  }

  // What a property says about each field.

  function SizeIn(item: Item): Option<seq<byte>> { if item.tag == 0x80 then Some(item.value) else None }

  function IdIn(item: Item): Option<seq<byte>> { if item.tag == 0x83 then Some(item.value) else None }

  /** A dedicated file, an elementary file, or neither. */
  function KindIn(item: Item): Option<byte> {
    if !IsDescriptor(item) then None
    else if IsElementary(item) then Some(4)
    else if item.value[0] % 64 == 0x38 && item.value[0] < 128 then Some(2)
    else Some(0)
  }

  function StatusIn(item: Item): Option<byte> { if IsElementary(item) then Some(1) else None }

  /** Transparent, linear or cyclic. */
  function StructureIn(item: Item): Option<byte> {
    if !IsElementary(item) then None
    else if item.value[0] % 8 == 1 then Some(0)
    else if item.value[0] % 8 == 6 then Some(3)
    else Some(1)
  }

  function RecordSizeIn(item: Item): Option<byte>
    requires Acceptable(item)
  {
    if HasRecords(item) then Some(item.value[3]) else None
  }

  /** What the last property that says something says, or what was there before. */
  function LastOf<T>(items: seq<Item>, says: Item --> Option<T>, otherwise: T): T
    requires forall k :: 0 <= k < |items| ==> says.requires(items[k])
  {
    if |items| == 0 then otherwise
    else LastOf(items[1..], says, if says(items[0]).Some? then says(items[0]).value else otherwise)
  }

  /** Fields that the descriptors make valid: one for each elementary file, one more if it has records. */
  function ValidFields(items: seq<Item>): nat {
    if |items| == 0 then 0
    else
      (if HasRecords(items[0]) then 2 else if IsElementary(items[0]) then 1 else 0) + ValidFields(items[1..])
  }

  predicate AllAcceptable(items: seq<Item>) { forall k :: 0 <= k < |items| ==> Acceptable(items[k]) }

  /** Every field is what the last property about it says, and the count of valid fields is that of all
      descriptors together. */
  predicate Described(info: FileInfo, items: seq<Item>, after: FileInfo)
    requires AllAcceptable(items)
  {
    after.size == LastOf(items, SizeIn, info.size) && after.id == LastOf(items, IdIn, info.id) &&
    after.kind == LastOf(items, KindIn, info.kind) && after.status == LastOf(items, StatusIn, info.status) &&
    after.structure == LastOf(items, StructureIn, info.structure) &&
    after.recordSize == LastOf(items, RecordSizeIn, info.recordSize) &&
    after.dataSize == (info.dataSize + ValidFields(items)) % 256
  }

  lemma OneProperty(info: FileInfo, item: Item)
    ensures Apply(info, item).ret == 0 <==> Acceptable(item)
    ensures Acceptable(item) ==> Described(info, [item], Apply(info, item).info)
  {
    assert [item][1..] == [];
    if IsDescriptor(item) {
      assert item.value[0] % 64 == 0x38 ==> item.value[0] / 16 % 4 == 3;
    }
    assert !Acceptable(item) ==> Apply(info, item).ret != 0;
    assert Acceptable(item) ==> Apply(info, item).ret == 0;
  }

  lemma LastOfStep<T>(items: seq<Item>, says: Item --> Option<T>, otherwise: T)
    requires |items| > 0 && forall k :: 0 <= k < |items| ==> says.requires(items[k])
    ensures LastOf(items, says, otherwise) == LastOf(items[1..], says, LastOf([items[0]], says, otherwise))
  {
    assert [items[0]][1..] == [];
  }

  lemma DescribedStep(info: FileInfo, items: seq<Item>, middle: FileInfo, after: FileInfo)
    requires |items| > 0 && AllAcceptable(items)
    requires Described(info, [items[0]], middle) && Described(middle, items[1..], after)
    ensures Described(info, items, after)
  {
    hide Acceptable, LastOf;
    LastOfStep(items, SizeIn, info.size);
    LastOfStep(items, IdIn, info.id);
    LastOfStep(items, KindIn, info.kind);
    LastOfStep(items, StatusIn, info.status);
    LastOfStep(items, StructureIn, info.structure);
    LastOfStep(items, RecordSizeIn, info.recordSize);
    assert ValidFields(items) == ValidFields([items[0]]) + ValidFields(items[1..]) by {
      assert [items[0]][1..] == [];
    }
    ModAdd(info.dataSize, ValidFields([items[0]]), ValidFields(items[1..]));
  }

  lemma ModAdd(a: nat, b: nat, c: nat)
    ensures ((a + b) % 256 + c) % 256 == (a + (b + c)) % 256
  {
  }

  /** A list of properties is accepted exactly when each of them is, and then the description follows. */
  lemma {:induction false} FieldsOf(info: FileInfo, items: seq<Item>)
    ensures ApplyAll(info, items).ret == 0 <==> AllAcceptable(items)
    ensures AllAcceptable(items) ==> Described(info, items, ApplyAll(info, items).info)
    decreases |items|
  {
    hide Apply, Acceptable, Described;
    if |items| > 0 {
      var o := Apply(info, items[0]);
      OneProperty(info, items[0]);
      FieldsOf(o.info, items[1..]);
      assert AllAcceptable(items) <==> Acceptable(items[0]) && AllAcceptable(items[1..]);
      if AllAcceptable(items) {
        DescribedStep(info, items, o.info, ApplyAll(info, items).info);
      }
    } else {
      NothingDescribed(info, items);
    }
  }

  lemma NothingDescribed(info: FileInfo, items: seq<Item>)
    requires |items| == 0
    ensures Described(info, items, info)
  {
  }

  /** For every stream: it is accepted exactly when it starts with a template whose properties can all be
      read and are all acceptable, and then the description is what they say. */
  lemma ConvertedIff(s: string)
    ensures var t := TlvAt(s, 0, |s|);
      if t.None? || t.value.tag != 0x62 then Converted(s) == (-EINVAL, None)
      else
        var found := Properties(s, t.value.data, t.value.end);
        (Converted(s).0 == 0 <==> found.whole && AllAcceptable(found.items)) && Converted(s).1.Some? &&
        (Converted(s).0 == 0 ==> Described(Blank(), found.items, Converted(s).1.value))
  {
    hide TlvAt, Walk, Properties, Described, AllAcceptable, ApplyAll;
    var t := TlvAt(s, 0, |s|);
    if t.Some? {
      WalkFolds(s, t.value.data, t.value.end, Blank());
      FieldsOf(Blank(), Properties(s, t.value.data, t.value.end).items);
    }
  }

  // ---------------------------------------------------------------- printed templates

  lemma PropertiesPrinted(before: string, items: seq<Item>)
    requires AllValid(items)
    ensures var s := before + HexOf(ListBytes(items)); Properties(s, |before|, |s|) == Found(items, true, |s|)
  {
    hide HexOf, HexBytes;
    var s := before + HexOf(ListBytes(items));
    ListRoundTrip(before, items);
    InsideIff(s, |before|, |s|);
  }

  /** A printed template holds its properties, and is read as a fold over them. */
  lemma TemplateRead(items: seq<Item>)
    requires AllValid(items) && |ListBytes(items)| < 256
    ensures var s := HexOf(ItemBytes(Item(0x62, ListBytes(items))));
      var o := ApplyAll(Blank(), items);
      Converted(s) == (o.ret, Some(o.info))
  {
    hide HexOf, HexBytes, TlvAt, Walk, ApplyAll, Properties;
    var outer := Item(0x62, ListBytes(items));
    var s := HexOf(ItemBytes(outer));
    PrintedTlv("", outer, "");
    assert "" + s + "" == s;
    assert s == s[..4] + s[4..|s|];
    assert |s| == 4 + 2 * |outer.value|;
    PropertiesPrinted(s[..4], items);
    WalkFolds(s, 4, |s|, Blank());
  }

  // ---------------------------------------------------------------- refusals

  /** A property that is not acceptable is refused: for its length if it is the file size, else as invalid. */
  lemma RefusedIff(info: FileInfo, item: Item)
    ensures Apply(info, item).ret == 0 <==> Acceptable(item)
    ensures !Acceptable(item) ==> Apply(info, item).ret == if item.tag == 0x80 then -95 else -22
  {
  }

  /** The first property that is not acceptable decides the error of a list. */
  lemma {:induction false} FirstRefused(info: FileInfo, items: seq<Item>, k: nat)
    requires k < |items| && !Acceptable(items[k]) && forall j :: 0 <= j < k ==> Acceptable(items[j])
    ensures ApplyAll(info, items).ret == if items[k].tag == 0x80 then -95 else -22
    decreases k
  {
    hide Apply, Acceptable;
    RefusedIff(info, items[0]);
    if k > 0 {
      FirstRefused(Apply(info, items[0]).info, items[1..], k - 1);
    }
  }
}
