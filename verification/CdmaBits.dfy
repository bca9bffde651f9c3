/**
  Bit fields inside a string of hex digits (huawei-generic/sms.c).

  A CDMA SMS is kept as a string of upper-case hex digits; a field is a run of bits, most
  significant first, that need not start on a digit boundary.  `GetBits` says what number a field
  holds.  `SetBits` only ORs into the digits, so its contract is stated for a field that still
  holds zero.
 */
module CdmaBits {
  import opened Bits

  /** The digit value sms.c computes: no error path, lower case and punctuation give nonsense. */
  function Hex2Int(c: char): int {
    if c > '9' then c as int - 'A' as int + 10 else c as int - '0' as int
  }

  predicate HexChar(c: char) {
    '0' <= c <= '9' || 'A' <= c <= 'F'
  }

  predicate AllHex(s: seq<char>) {
    forall i :: 0 <= i < |s| ==> HexChar(s[i])
  }

  /** Entry `d` of hextable. */
  function HexDigit(d: nat): (c: char)
    requires d < 16
    ensures HexChar(c) && Hex2Int(c) == d
  {
    if d < 10 then ('0' as int + d) as char else ('A' as int + d - 10) as char
  }

  /** Bit `k` of a digit value, the top bit being bit 0. */
  function DigitBit(d: int, k: nat): (r: nat)
    requires k < 4
    ensures r < 2
  {
    match k case 0 => (d / 8) % 2 case 1 => (d / 4) % 2 case 2 => (d / 2) % 2 case _ => d % 2
  }

  /** Bit `b` of the string: bit 0 is the top bit of the first digit. */
  function Bit(s: seq<char>, b: nat): (r: nat)
    requires b < 4 * |s|
    ensures r < 2
  {
    DigitBit(Hex2Int(s[b / 4]), b % 4)
  }

  /** The number held by the `n` bits from `start`, most significant bit first. */
  function GetBits(s: seq<char>, start: nat, n: nat): nat
    requires start + n <= 4 * |s|
  {
    if n == 0 then 0 else 2 * GetBits(s, start, n - 1) + Bit(s, start + n - 1)
  }

  /** d | (val << (3 - k)) for a digit value and a single bit. */
  function OrBit(d: nat, val: nat, k: nat): (r: nat)
    requires d < 16 && val < 2 && k < 4
    ensures r < 16
  {
    if val == 0 || DigitBit(d, k) == 1 then d
    else match k case 0 => d + 8 case 1 => d + 4 case 2 => d + 2 case _ => d + 1
  }

  lemma DigitValue(v: nat)
    requires v < 16
    ensures v == 8 * DigitBit(v, 0) + 4 * DigitBit(v, 1) + 2 * DigitBit(v, 2) + DigitBit(v, 3)
  {
  }

  lemma PartsBits(a: nat, b: nat, c: nat, e: nat)
    requires a < 2 && b < 2 && c < 2 && e < 2
    ensures var d := 8 * a + 4 * b + 2 * c + e;
      DigitBit(d, 0) == a && DigitBit(d, 1) == b && DigitBit(d, 2) == c && DigitBit(d, 3) == e
  {
  }

  lemma OrBitSets(d: nat, val: nat, k: nat, j: nat)
    requires d < 16 && val < 2 && k < 4 && j < 4
    ensures DigitBit(OrBit(d, val, k), j) == if j == k && val == 1 then 1 else DigitBit(d, j)
  {
    hide DigitBit;
    var a, b, c, e := DigitBit(d, 0), DigitBit(d, 1), DigitBit(d, 2), DigitBit(d, 3);
    DigitValue(d);
    PartsBits(1, b, c, e);
    PartsBits(a, 1, c, e);
    PartsBits(a, b, 1, e);
    PartsBits(a, b, c, 1);
  }

  lemma {:induction false} SameBits(s: seq<char>, t: seq<char>, p: nat, k: nat)
    requires p + k <= 4 * |s| && p + k <= 4 * |t|
    requires forall b :: p <= b < p + k ==> Bit(s, b) == Bit(t, b)
    ensures GetBits(s, p, k) == GetBits(t, p, k)
  {
    if k > 0 {
      SameBits(s, t, p, k - 1);
    }
  }

  lemma DoubleProduct(p: int, q: int)
    ensures (2 * p) * q == 2 * (p * q)
  {
  }

  /** A field whose bits are those of `val` holds `val`, cut to its width (taken at k == n). */
  lemma {:induction false} WrittenValue(t: seq<char>, start: nat, n: nat, val: nat, k: nat)
    requires start + n <= 4 * |t| && k <= n
    requires forall b {:trigger Bit(t, b)} ::
      start <= b < start + n ==> Bit(t, b) == Shr(val, start + n - 1 - b) % 2
    ensures Shr(val, n - k) == GetBits(t, start, k) + Pow2(k) * Shr(val, n)
    ensures GetBits(t, start, k) < Pow2(k)
  {
    if k > 0 {
      WrittenValue(t, start, n, val, k - 1);
      DoubleProduct(Pow2(k - 1), Shr(val, n));
      var low := Shr(val, n - k);
      assert Bit(t, start + (k - 1)) == low % 2;
      ShrHalf(val, n - k);
      assert n - (k - 1) == n - k + 1;
      assert low == 2 * (low / 2) + low % 2;
    }
  }

  lemma ModFromParts(val: int, r: int, m: int, q: int)
    requires val == r + m * q && 0 <= r < m
    ensures val % m == r
  {
    var d, e := val / m, val % m;
    assert val == m * d + e;
    assert m * (d - q) == r - e;
    assert d - q >= 1 ==> m * (d - q) >= m;
    assert d - q <= -1 ==> m * (d - q) <= -m;
  }

  lemma WrittenField(t: seq<char>, start: nat, n: nat, val: nat)
    requires start + n <= 4 * |t|
    requires forall b {:trigger Bit(t, b)} ::
      start <= b < start + n ==> Bit(t, b) == Shr(val, start + n - 1 - b) % 2
    ensures GetBits(t, start, n) == val % Pow2(n)
  {
    hide GetBits;
    WrittenValue(t, start, n, val, n);
    ModFromParts(val, GetBits(t, start, n), Pow2(n), Shr(val, n));
  }

  /** Fields that lie outside the bits that changed are the same. */
  lemma FieldsOutside(s: seq<char>, t: seq<char>, base: nat, n: nat)
    requires |s| == |t| && base + n <= 4 * |s|
    requires forall b :: 0 <= b < 4 * |t| && !(base <= b < base + n) ==> Bit(t, b) == Bit(s, b)
    ensures forall p: nat, k: nat {:trigger GetBits(t, p, k)} ::
      p + k <= 4 * |t| && (p + k <= base || base + n <= p) ==> GetBits(t, p, k) == GetBits(s, p, k)
  {
    hide GetBits;
    forall p: nat, k: nat | p + k <= 4 * |t| && (p + k <= base || base + n <= p)
      ensures GetBits(t, p, k) == GetBits(s, p, k)
    {
      SameBits(t, s, p, k);
    }
  }

  /** Zero field: every bit is zero. */
  lemma {:induction false} ZeroBits(s: seq<char>, p: nat, k: nat, b: nat)
    requires p + k <= 4 * |s| && GetBits(s, p, k) == 0
    requires p <= b < p + k
    ensures Bit(s, b) == 0
  {
    if b < p + k - 1 {
      ZeroBits(s, p, k - 1, b);
    }
  }

  lemma {:induction false} FieldBound(s: seq<char>, p: nat, n: nat)
    requires p + n <= 4 * |s|
    ensures GetBits(s, p, n) < Pow2(n)
  {
    if n > 0 {
      FieldBound(s, p, n - 1);
    }
  }

  /** A field is its first `a` bits followed by its last `b`. */
  lemma {:induction false} SplitBits(s: seq<char>, p: nat, a: nat, b: nat)
    requires p + a + b <= 4 * |s|
    ensures GetBits(s, p, a + b) == GetBits(s, p, a) * Pow2(b) + GetBits(s, p + a, b)
  {
    if b > 0 {
      SplitBits(s, p, a, b - 1);
      SplitStep(GetBits(s, p, a), Pow2(b - 1), GetBits(s, p + a, b - 1), GetBits(s, p, a + (b - 1)),
                Bit(s, p + a + b - 1));
      assert a + b - 1 == a + (b - 1) && p + (a + b) - 1 == p + a + b - 1 == (p + a) + b - 1;
    }
  }

  lemma SplitStep(high: nat, w: nat, low: nat, whole: nat, bit: nat)
    requires whole == high * w + low
    ensures 2 * whole + bit == high * (2 * w) + (2 * low + bit)
  {
    assert high * (2 * w) == 2 * (high * w);
  }

  /** Two digits read as a byte are the same as the eight bits they hold. */
  lemma ByteBits(s: seq<char>, d: nat)
    requires d + 2 <= |s| && HexChar(s[d]) && HexChar(s[d + 1])
    ensures GetBits(s, 4 * d, 8) == Hex2Int(s[d]) * 16 + Hex2Int(s[d + 1])
  {
    DigitBits(s, d);
    DigitBits(s, d + 1);
    SplitBits(s, 4 * d, 4, 4);
    assert Pow2(4) == 16;
  }

  lemma DigitBits(s: seq<char>, d: nat)
    requires d < |s| && HexChar(s[d])
    ensures GetBits(s, 4 * d, 4) == Hex2Int(s[d])
  {
    var v := Hex2Int(s[d]);
    DigitBitAt(s, d, 0);
    DigitBitAt(s, d, 1);
    DigitBitAt(s, d, 2);
    DigitBitAt(s, d, 3);
    assert GetBits(s, 4 * d, 1) == DigitBit(v, 0);
    assert GetBits(s, 4 * d, 2) == 2 * DigitBit(v, 0) + DigitBit(v, 1);
    assert GetBits(s, 4 * d, 3) == 4 * DigitBit(v, 0) + 2 * DigitBit(v, 1) + DigitBit(v, 2);
    DigitValue(v);
  }

  lemma DigitBitAt(s: seq<char>, d: nat, k: nat)
    requires d < |s| && k < 4
    ensures Bit(s, 4 * d + k) == DigitBit(Hex2Int(s[d]), k)
  {
    assert (4 * d + k) / 4 == d && (4 * d + k) % 4 == k;
  }

  /** getbits: the loop shifts each bit to its final place and ORs it in. */
  method ReadBits(s: seq<char>, start: nat, n: nat) returns (val: nat)
    requires start + n <= 4 * |s|
    ensures val == GetBits(s, start, n)
  {
    hide Pow2, Bit;
    val := 0;
    var i := 0;
    while i < n
      invariant 0 <= i <= n
      invariant val == Shl(GetBits(s, start, i), n - i)
    {
      ShlDouble(GetBits(s, start, i), n - i - 1);
      ShlAdd(2 * GetBits(s, start, i), Bit(s, start + i), n - i - 1);
      val := val + Shl(Bit(s, start + i), n - i - 1);
      i := i + 1;
    }
  }

  /** setbit: ORs one bit into its digit. */
  method SetBit(s: array<char>, off: nat, b: nat, val: nat)
    requires 4 * off + b < 4 * s.Length && val < 2
    requires AllHex(s[..])
    modifies s
    ensures AllHex(s[..])
    ensures Bit(s[..], 4 * off + b) == if val == 1 then 1 else old(Bit(s[..], 4 * off + b))
    ensures forall c :: 0 <= c < 4 * s.Length && c != 4 * off + b ==> Bit(s[..], c) == old(Bit(s[..], c))
    ensures forall i :: 0 <= i < s.Length && i != off + b / 4 ==> s[i] == old(s[i])
  {
    var byte := off + b / 4;
    var bit := b % 4;
    assert (4 * off + b) / 4 == byte && (4 * off + b) % 4 == bit;
    assert HexChar(s[..][byte]);
    ghost var d := Hex2Int(s[byte]);
    forall j: nat | j < 4
      ensures DigitBit(OrBit(d, val, bit), j) == if j == bit && val == 1 then 1 else DigitBit(d, j)
    {
      OrBitSets(d, val, bit, j);
    }
    hide DigitBit, OrBit;
    s[byte] := HexDigit(OrBit(Hex2Int(s[byte]), val, bit));
    forall i | 0 <= i < s.Length
      ensures HexChar(s[..][i])
    {
      assert i != byte ==> s[..][i] == old(s[..])[i];
    }
  }

  /** setbits on a field that is still zero: the field now holds `val` cut to its width `size`,
      which is 2^n, and no other field changed. */
  method SetBits(s: array<char>, off: nat, start: nat, n: nat, val: nat, ghost size: nat)
    requires 4 * off + start + n <= 4 * s.Length && size == Pow2(n)
    requires AllHex(s[..])
    requires GetBits(s[..], 4 * off + start, n) == 0
    modifies s
    ensures AllHex(s[..])
    ensures GetBits(s[..], 4 * off + start, n) == val % size
    ensures forall p: nat, k: nat {:trigger GetBits(s[..], p, k)} ::
      p + k <= 4 * s.Length && (p + k <= 4 * off + start || 4 * off + start + n <= p) ==>
      GetBits(s[..], p, k) == old(GetBits(s[..], p, k))
  {
    hide GetBits;
    var base := 4 * off + start;
    ghost var before := s[..];
    forall b | base <= b < base + n
      ensures Bit(before, b) == 0
    {
      ZeroBits(before, base, n, b);
    }
    var i := 0;
    while i < n
      invariant 0 <= i <= n
      invariant AllHex(s[..])
      invariant forall b {:trigger Bit(s[..], b)} ::
        base <= b < base + i ==> Bit(s[..], b) == Shr(val, base + n - 1 - b) % 2
      invariant forall b :: base + i <= b < base + n ==> Bit(s[..], b) == 0
      invariant forall b :: 0 <= b < 4 * s.Length && !(base <= b < base + n) ==> Bit(s[..], b) == Bit(before, b)
    {
      SetBit(s, off, start + i, Shr(val, n - i - 1) % 2);
      i := i + 1;
    }
    WrittenField(s[..], base, n, val);
    FieldsOutside(before, s[..], base, n);
  }
}
