/**
  SMS addresses (huawei-generic/sms_gsm.c, section 9.1.2.5 of 3GPP TS 23.040): digits held as
  nibbles, low nibble first, an odd last byte filled with 0xF.
 */
module SmsAddresses {
  import opened Options
  import opened Bytes
  import opened Ropes

  const MAX_SIZE: nat := 16
  const TOA_INTERNATIONAL: byte := 0x91
  const TOA_UNKNOWN: byte := 0x81

  /** The contents of an address record. */
  datatype Address = Address(len: byte, toa: byte, data: seq<byte>)

  /** Nibble `j` of a run of bytes. */
  function Nibble(data: seq<byte>, j: nat): (n: nat)
    requires j / 2 < |data|
    ensures n < 16
  {
    if j % 2 == 0 then data[j / 2] % 16 else data[j / 2] / 16
  }

  predicate AllDigits(s: string) {
    forall i :: 0 <= i < |s| ==> '0' <= s[i] <= '9'
  }

  function DigitsOf(src: string): string {
    if |src| > 0 && src[0] == '+' then src[1..] else src
  }

  /** An optional '+' and 1 to 32 digits. */
  predicate ValidNumber(src: string) {
    1 <= |DigitsOf(src)| <= 2 * MAX_SIZE && AllDigits(DigitsOf(src))
  }

  /** `a` is the address of the number `src`: type of address, digit count, digits, filler. */
  ghost predicate Encodes(a: Address, src: string) {
    |a.data| == MAX_SIZE && a.len == |DigitsOf(src)| <= 2 * MAX_SIZE &&
    a.toa == (if |src| > 0 && src[0] == '+' then TOA_INTERNATIONAL else TOA_UNKNOWN) &&
    (forall j :: 0 <= j < a.len ==> Nibble(a.data, j) == DigitsOf(src)[j] as int - '0' as int) &&
    (a.len % 2 == 1 ==> Nibble(a.data, a.len) == 0xf)
  }

  /** The type of address of section 9.1.2.5: international with a '+' and unknown without, in the
      numbering plan of telephones. */
  lemma TypeOfAddress(a: Address, src: string)
    requires Encodes(a, src)
    ensures a.toa >= 0x80 && a.toa % 16 == 1 && a.toa / 16 % 8 == if |src| > 0 && src[0] == '+' then 1 else 0
  {
  }

  /** The first `n` nibbles hold the first `n` digits and the others are zero. */
  ghost predicate HoldsDigits(data: seq<byte>, digits: string, n: nat) {
    n <= |digits| && n <= 2 * |data| && AllDigits(digits[..n]) &&
    forall j: nat :: j < 2 * |data| ==> Nibble(data, j) == if j < n then digits[j] as int - '0' as int else 0
  }

  lemma AddDigit(data: seq<byte>, digits: string, n: nat, c: nat)
    requires HoldsDigits(data, digits, n) && n < |digits| && n < 2 * |data|
    requires c < 10 && c == digits[n] as int - '0' as int
    ensures data[n / 2] + (if n % 2 == 0 then c else 16 * c) < 256
    ensures HoldsDigits(data[n / 2 := data[n / 2] + if n % 2 == 0 then c else 16 * c], digits, n + 1)
  {
    assert Nibble(data, n) == 0;
    var data' := data[n / 2 := data[n / 2] + if n % 2 == 0 then c else 16 * c];
    forall j: nat | j < 2 * |data|
      ensures Nibble(data', j) == if j < n + 1 then digits[j] as int - '0' as int else 0
    {
      assert Nibble(data, j) == if j < n then digits[j] as int - '0' as int else 0;
    }
    assert digits[..n + 1] == digits[..n] + [digits[n]];
  }

  lemma HeldDigits(data: seq<byte>, digits: string)
    requires HoldsDigits(data, digits, |digits|)
    ensures AllDigits(digits) && |digits| <= 2 * |data|
  {
    assert digits[..|digits|] == digits;
  }

  lemma ZeroHolds(data: seq<byte>, digits: string)
    requires forall i :: 0 <= i < |data| ==> data[i] == 0
    ensures HoldsDigits(data, digits, 0)
  {
  }

  /** All digits are in; the filler goes into the last high nibble of an odd number. */
  lemma FilledEncodes(data: seq<byte>, src: string, toa: byte)
    requires |data| == MAX_SIZE && ValidNumber(src) && HoldsDigits(data, DigitsOf(src), |DigitsOf(src)|)
    requires toa == if src[0] == '+' then TOA_INTERNATIONAL else TOA_UNKNOWN
    ensures var n := |DigitsOf(src)|;
      Encodes(Address(n, toa, if n % 2 == 1 then data[n / 2 := FillHigh(data[n / 2])] else data), src)
  {
    var n := |DigitsOf(src)|;
    var data' := if n % 2 == 1 then data[n / 2 := FillHigh(data[n / 2])] else data;
    forall j: nat | j < n
      ensures Nibble(data', j) == DigitsOf(src)[j] as int - '0' as int
    {
      assert Nibble(data, j) == DigitsOf(src)[j] as int - '0' as int;
    }
  }

  /** What sms_address_to_str prints. */
  function ToStr(a: Address): string
    requires (a.len + 1) / 2 <= |a.data|
  {
    (if a.toa == TOA_INTERNATIONAL then "+" else "") +
    seq(a.len, i requires 0 <= i < a.len => ('0' as int + Nibble(a.data, i)) as char)
  }

  /** b | 0xf0 */
  function FillHigh(b: byte): byte { 0xf0 + b % 16 }

  /** The address field of a PDU. */
  function AddressField(a: Address): seq<byte>
    requires (a.len + 1) / 2 <= |a.data|
  {
    var n := (a.len + 1) / 2;
    [a.len, a.toa] + if a.len % 2 == 1 then a.data[..n - 1] + [FillHigh(a.data[n - 1])] else a.data[..n]
  }

  /** How sms_get_address leaves the cursor and the record: its three error exits keep the cursor, and
      the last one has already set the length and type. */
  datatype Got = Got(ok: bool, cur: nat, address: Address)

  function GetAddress(bytes: seq<byte>, cur: nat, a: Address): (got: Got)
    requires |a.data| == MAX_SIZE
    ensures |got.address.data| == MAX_SIZE && (got.ok ==> got.address.len <= 2 * MAX_SIZE)
  {
    if cur >= |bytes| then Got(false, cur, a)
    else
      var dlen := bytes[cur];
      var n: nat := (dlen as int + 1) / 2;
      if dlen == 0 then Got(true, cur + 1, a.(len := 0, toa := 0))
      else if cur + 2 + n > |bytes| then Got(false, cur, a)
      else if n > MAX_SIZE then Got(false, cur, a.(len := dlen, toa := bytes[cur + 1]))
      else Got(true, cur + 2 + n, Address(dlen, bytes[cur + 1], bytes[cur + 2..cur + 2 + n] + a.data[n..]))
  }

  class SmsAddress {
    var len: byte
    var toa: byte
    const data: array<byte>

    ghost predicate Valid() {
      data.Length == MAX_SIZE
    }

    function Value(): Address
      reads this, data
    {
      Address(len, toa, data[..])
    }

    constructor ()
      ensures Valid() && fresh(data)
    {
      data := new byte[MAX_SIZE](_ => 0);
      len, toa := 0, 0;
    }

    /** The memset of sms_address_from_str. */
    method Clear()
      modifies data
      ensures forall i :: 0 <= i < data.Length ==> data[i] == 0
    {
      var k := 0;
      while k < data.Length
        invariant 0 <= k <= data.Length
        invariant forall i :: 0 <= i < k ==> data[i] == 0
      {
        data[k] := 0;
        k := k + 1;
      }
    }

    /** data[d] |= c << shift, while the nibble at `shift` is still zero. */
    method OrDigit(d: nat, shift: nat, c: nat, ghost digits: string, ghost n: nat)
      requires d < data.Length && (shift == 0 || shift == 4) && n == 2 * d + shift / 4
      requires HoldsDigits(data[..], digits, n) && n < |digits| && c < 10 && c == digits[n] as int - '0' as int
      modifies data
      ensures HoldsDigits(data[..], digits, n + 1)
    {
      hide HoldsDigits;
      AddDigit(data[..], digits, n, c);
      ghost var data' := data[..][d := data[d] + if shift == 0 then c else 16 * c];
      data[d] := data[d] + if shift == 0 then c else 16 * c;
      assert data[..] == data';
    }

    /** The loop of sms_address_from_str over the digits from `at` on. */
    method PutDigits(src: string, first: nat) returns (n: Option<nat>)
      requires Valid() && first == |src| - |DigitsOf(src)| && HoldsDigits(data[..], DigitsOf(src), 0)
      modifies data
      ensures n.Some? <==> |DigitsOf(src)| <= 2 * MAX_SIZE && AllDigits(DigitsOf(src))
      ensures n.Some? ==> n.value == |DigitsOf(src)| && HoldsDigits(data[..], DigitsOf(src), n.value)
    {
      hide HoldsDigits;
      ghost var digits := DigitsOf(src);
      var at, shift, d := first, 0, 0;
      while at < |src|
        invariant first <= at <= |src|
        invariant (shift == 0 && at - first == 2 * d) || (shift == 4 && at - first == 2 * d + 1)
        invariant HoldsDigits(data[..], digits, at - first)
        modifies data
      {
        var c := src[at] as int - '0' as int;
        assert digits[at - first] == src[at];
        if c < 0 || c >= 10 || d >= data.Length { return None; }
        OrDigit(d, shift, c, digits, at - first);
        shift := shift + 4;
        if shift == 8 {
          shift := 0;
          d := d + 1;
        }
        at := at + 1;
      }
      HeldDigits(data[..], digits);
      return Some(at - first);
    }

    /** The end of sms_address_from_str: an odd number is filled up. */
    method FillLast(src: string, n: nat)
      requires Valid() && n == |DigitsOf(src)| && ValidNumber(src) && HoldsDigits(data[..], DigitsOf(src), n)
      requires toa == if src[0] == '+' then TOA_INTERNATIONAL else TOA_UNKNOWN
      modifies this`len, data
      ensures Encodes(Value(), src)
    {
      hide HoldsDigits, Encodes, FillHigh;
      HeldDigits(data[..], DigitsOf(src));
      FilledEncodes(data[..], src, toa);
      ghost var data' := if n % 2 == 1 then data[..][n / 2 := FillHigh(data[n / 2])] else data[..];
      if n % 2 == 1 {
        data[n / 2] := FillHigh(data[n / 2]);
      }
      assert data[..] == data';
      len := n;
    }

    /** sms_address_from_str: 0 exactly on a valid number, which the record then encodes. */
    method FromStr(src: string) returns (ok: bool)
      requires Valid()
      modifies this, data
      ensures ok <==> ValidNumber(src)
      ensures ok ==> Encodes(Value(), src)
      ensures !ok ==> len == 0
    {
      hide HoldsDigits, Encodes;
      len, toa := 0, TOA_UNKNOWN;
      if |src| == 0 { return false; }
      var at := 0;
      if src[0] == '+' {
        toa := TOA_INTERNATIONAL;
        at := 1;
        if at == |src| { return false; }
      }
      Clear();
      ZeroHolds(data[..], DigitsOf(src));
      var n := PutDigits(src, at);
      if n.None? { return false; }
      FillLast(src, n.value);
      return true;
    }

    /** sms_address_to_str */
    method Print() returns (str: string)
      requires Valid() && (len + 1) / 2 <= MAX_SIZE
      ensures str == ToStr(Value())
    {
      str := "";
      if toa == TOA_INTERNATIONAL { str := "+"; }
      var i := 0;
      while i < len
        invariant 0 <= i <= len
        invariant str == (if toa == TOA_INTERNATIONAL then "+" else "") + Printed(Value(), i)
      {
        var c := data[i / 2];
        if i % 2 == 1 { c := c / 16; }
        str := str + [('0' as int + c % 16) as char];
        i := i + 1;
      }
    }

    /** sms_get_address: reads a sender or receiver address at the cursor. */
    method Get(bytes: seq<byte>, cur: nat) returns (ok: bool, next: nat)
      requires Valid()
      modifies this, data
      ensures Got(ok, next, Value()) == GetAddress(bytes, cur, old(Value()))
    {
      ghost var was := Value();
      if cur >= |bytes| { return false, cur; }
      var dlen := bytes[cur];
      if dlen == 0 {
        len, toa := 0, 0;
        return true, cur + 1;
      }
      var n: nat := (dlen as int + 1) / 2;
      if cur + 2 + n > |bytes| { return false, cur; }
      len := dlen;
      toa := bytes[cur + 1];
      if n > MAX_SIZE { return false, cur; }
      Store(data, 0, bytes[cur + 2..cur + 2 + n]);
      return true, cur + 2 + n;
    }
  }

  /** The first `n` digits printed. */
  function Printed(a: Address, n: nat): string
    requires (n + 1) / 2 <= |a.data|
  {
    seq(n, i requires 0 <= i < n => ('0' as int + Nibble(a.data, i)) as char)
  }

  /** gsm_rope_add_address */
  method AddAddress(rope: Rope, a: Address)
    requires rope.Valid() && |a.data| == MAX_SIZE && a.len <= 2 * MAX_SIZE
    modifies rope, rope.data
    ensures rope.Appends(AddressField(a))
  {
    hide FillHigh, Splice, AddressField;
    PlainField(a);
    ghost var room := rope.HasRoom(|AddressField(a)|);
    ghost var was, p0 := if rope.data == null then [] else rope.data[..], rope.pos;
    ghost var plain := PlainBytes(a);
    AddPlain(rope, a);
    if a.len % 2 == 1 && !rope.error && rope.data != null {
      var last := rope.pos - 1;
      if room {
        SpliceAt(was, p0, plain, |plain| - 1);
        SpliceUpdate(was, p0, plain, |plain| - 1, FillHigh(plain[|plain| - 1]));
      }
      rope.data[last] := FillHigh(rope.data[last]);
    }
  }

  /** Length, type and digits, before the filler is forced in. */
  function PlainBytes(a: Address): (r: seq<byte>)
    requires (a.len + 1) / 2 <= |a.data|
    ensures |r| == 2 + (a.len + 1) / 2
  {
    [a.len, a.toa] + a.data[..(a.len + 1) / 2]
  }

  method AddPlain(rope: Rope, a: Address)
    requires rope.Valid() && |a.data| == MAX_SIZE && a.len <= 2 * MAX_SIZE
    modifies rope, rope.data
    ensures rope.Appends(PlainBytes(a))
  {
    hide Splice;
    var n := (a.len + 1) / 2;
    if rope.HasRoom(|PlainBytes(a)|) {
      SpliceTwice(rope.data[..], rope.pos, [a.len], [a.toa]);
      SpliceTwice(rope.data[..], rope.pos, [a.len] + [a.toa], a.data[..n]);
      assert [a.len] + [a.toa] + a.data[..n] == PlainBytes(a);
    }
    rope.AddC(a.len);
    rope.AddC(a.toa);
    rope.Add(a.data[..n]);
  }

  lemma SpliceAt(buffer: seq<byte>, at: nat, bytes: seq<byte>, k: nat)
    requires at + |bytes| <= |buffer| && k < |bytes|
    ensures Splice(buffer, at, bytes)[at + k] == bytes[k]
  {
  }

  lemma PlainField(a: Address)
    requires |a.data| == MAX_SIZE && a.len <= 2 * MAX_SIZE
    ensures |AddressField(a)| == |PlainBytes(a)|
    ensures a.len % 2 == 0 ==> AddressField(a) == PlainBytes(a)
    ensures a.len % 2 == 1 ==>
      AddressField(a) == PlainBytes(a)[|PlainBytes(a)| - 1 := FillHigh(PlainBytes(a)[|PlainBytes(a)| - 1])]
  {
    hide FillHigh;
  }

  // ---------------------------------------------------------------- round trip

  lemma {:induction false} PrintedDigits(a: Address, src: string)
    requires Encodes(a, src) && AllDigits(DigitsOf(src))
    ensures ToStr(a) == src
  {
    forall j | 0 <= j < a.len
      ensures Printed(a, a.len)[j] == DigitsOf(src)[j]
    {
      assert Nibble(a.data, j) == DigitsOf(src)[j] as int - '0' as int;
    }
    assert Printed(a, a.len) == DigitsOf(src);
  }

  lemma FilledAlready(b: byte)
    requires b / 16 == 0xf
    ensures FillHigh(b) == b
  {
  }

  /** The filler the field forces into an odd number is already there. */
  lemma FieldOfEncoded(a: Address, src: string)
    requires Encodes(a, src)
    ensures AddressField(a) == [a.len, a.toa] + a.data[..(a.len + 1) / 2]
  {
    if a.len % 2 == 1 {
      var n := (a.len + 1) / 2;
      LastNibble(a, src);
      FilledAlready(a.data[n - 1]);
      hide FillHigh, Encodes;
      assert a.data[..n] == a.data[..n - 1] + [a.data[n - 1]];
    }
  }

  lemma LastNibble(a: Address, src: string)
    requires Encodes(a, src) && a.len % 2 == 1
    ensures a.len < 2 * |a.data| && a.data[(a.len + 1) / 2 - 1] / 16 == 0xf
  {
    assert Nibble(a.data, a.len) == 0xf;
  }

  /** A number that became an address, was put in a PDU and read back with the repository's parser
      prints as it was, and the cursor lands just after the field. */
  lemma AddressRoundTrip(a: Address, src: string, before: seq<byte>, after: seq<byte>, record: Address)
    requires ValidNumber(src) && Encodes(a, src) && |record.data| == MAX_SIZE
    ensures var got := GetAddress(before + AddressField(a) + after, |before|, record);
      got.ok && got.cur == |before| + |AddressField(a)| && Encodes(got.address, src) && ToStr(got.address) == src
  {
    hide Nibble;
    FieldOfEncoded(a, src);
    var n := (a.len + 1) / 2;
    var bytes := before + AddressField(a) + after;
    assert bytes[|before|] == a.len && bytes[|before| + 1] == a.toa;
    assert bytes[|before| + 2..|before| + 2 + n] == a.data[..n];
    var got := GetAddress(bytes, |before|, record).address;
    assert got.data == a.data[..n] + record.data[n..];
    SameNibbles(a, got, src);
    PrintedDigits(got, src);
  }

  lemma SameNibbles(a: Address, b: Address, src: string)
    requires Encodes(a, src) && |b.data| == MAX_SIZE && b.len == a.len && b.toa == a.toa
    requires forall i :: 0 <= i < (a.len + 1) / 2 ==> b.data[i] == a.data[i]
    ensures Encodes(b, src)
  {
    forall j: nat | j < a.len
      ensures Nibble(b.data, j) == Nibble(a.data, j)
    {
    }
  }
}
