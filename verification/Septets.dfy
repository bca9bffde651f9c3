/**
  Septet packing (huawei-generic/gsm.c, section 6.1.2.1.1 of 3GPP TS 23.038).

  `IsPacked` is the standard's definition, bit by bit; `Pack` is what the bit writer produces and
  `Unpack` what the shift loop of utf8_from_gsm7 reads.
 */
module Septets {
  import opened Bits
  import opened Options
  import opened Bytes

  /** Bit `k` of a number, the low bit being bit 0. */
  function BitOf(x: nat, k: nat): (b: nat)
    ensures b < 2
    decreases k
  {
    if k == 0 then x % 2 else BitOf(x / 2, k - 1)
  }

  // ---------------------------------------------------------------- shifts, bit by bit

  /** a | (b << n) when `a` has no bit from `n` on: a sum whose bits are those of `a`, then of `b`. */
  lemma {:induction false} BitOfSum(a: nat, b: nat, n: nat, k: nat)
    requires a < Pow2(n)
    ensures BitOf(a + Shl(b, n), k) == if k < n then BitOf(a, k) else BitOf(b, k - n)
    decreases n
  {
    if n > 0 {
      assert (a + Shl(b, n)) / 2 == a / 2 + Shl(b, n - 1) && (a + Shl(b, n)) % 2 == a % 2;
      if k > 0 {
        BitOfSum(a / 2, b, n - 1, k - 1);
      }
    }
  }

  lemma {:induction false} BitOfShr(x: nat, n: nat, k: nat)
    ensures BitOf(Shr(x, n), k) == BitOf(x, k + n)
    decreases n
  {
    if n > 0 {
      BitOfShr(x / 2, n - 1, k);
    }
  }

  lemma {:induction false} BitOfLow(x: nat, n: nat, k: nat)
    requires k < n
    ensures BitOf(x % Pow2(n), k) == BitOf(x, k)
    decreases n
  {
    HalfLow(x, n);
    if k > 0 {
      BitOfLow(x / 2, n - 1, k - 1);
    }
  }

  lemma HalfLow(x: nat, n: nat)
    requires n > 0
    ensures (x % Pow2(n)) / 2 == (x / 2) % Pow2(n - 1) && (x % Pow2(n)) % 2 == x % 2
  {
    var m := Pow2(n - 1);
    var q, r := (x / 2) / m, (x / 2) % m;
    assert x == (2 * m) * q + (2 * r + x % 2) by {
      assert x / 2 == m * q + r;
      assert (2 * m) * q == 2 * (m * q);
    }
    ModUnique(x, 2 * m, q, 2 * r + x % 2);
  }

  lemma ModUnique(x: int, m: int, q: int, r: int)
    requires x == m * q + r && 0 <= r < m
    ensures x % m == r
  {
    var d := x / m - q;
    assert m * d == r - x % m;
    assert d >= 1 ==> m * d >= m;
    assert d <= -1 ==> m * d <= -m;
  }

  /** Two numbers below 2^n with the same bits are equal. */
  lemma {:induction false} EqualByBits(x: nat, y: nat, n: nat)
    requires x < Pow2(n) && y < Pow2(n)
    requires forall k {:trigger BitOf(x, k)} :: 0 <= k < n ==> BitOf(x, k) == BitOf(y, k)
    ensures x == y
    decreases n
  {
    if n > 0 {
      assert BitOf(x, 0) == BitOf(y, 0);
      forall k | 0 <= k < n - 1
        ensures BitOf(x / 2, k) == BitOf(y / 2, k)
      {
        assert BitOf(x, k + 1) == BitOf(y, k + 1);
      }
      EqualByBits(x / 2, y / 2, n - 1);
    }
  }

  lemma {:induction false} ShlBound(b: nat, n: nat, k: nat)
    requires b < Pow2(k)
    ensures Shl(b, n) + Pow2(n) <= Pow2(n + k)
    decreases n
  {
    if n > 0 {
      ShlBound(b, n - 1, k);
    }
  }

  lemma {:induction false} ShrBound(x: nat, n: nat, k: nat)
    requires x < Pow2(n + k)
    ensures Shr(x, n) < Pow2(k)
    decreases n
  {
    if n > 0 {
      ShrBound(x / 2, n - 1, k);
    }
  }

  lemma Powers()
    ensures Pow2(7) == 128 && Pow2(8) == 256 && Pow2(15) == 32768
  {
  }

  // ---------------------------------------------------------------- the standard's layout

  function BitAt(bytes: seq<byte>, k: nat): nat
    requires k < 8 * |bytes|
  {
    BitOf(bytes[k / 8], k % 8)
  }

  ghost predicate AllSeptets(vs: seq<nat>) {
    forall i :: 0 <= i < |vs| ==> vs[i] < 128
  }

  /** Septet `v` occupies the seven bits from `pos`, low bit first. */
  ghost predicate SeptetIn(bytes: seq<byte>, pos: nat, v: nat) {
    pos + 7 <= 8 * |bytes| && v < 128 &&
    forall j {:trigger BitOf(v, j)} :: 0 <= j < 7 ==> BitAt(bytes, pos + j) == BitOf(v, j)
  }

  /** The septets follow one another from bit `shift` on. */
  ghost predicate IsPacked(bytes: seq<byte>, shift: nat, vs: seq<nat>) {
    forall i {:trigger vs[i]} :: 0 <= i < |vs| ==> SeptetIn(bytes, shift + 7 * i, vs[i])
  }

  // ---------------------------------------------------------------- writing

  /** The bytes the writer stores from now on, when it holds `bits` pending bits of value `pad`. */
  function Pack(pad: nat, bits: nat, vs: seq<nat>): (r: seq<byte>)
    requires bits < 8 && pad < Pow2(bits) && AllSeptets(vs)
    ensures |r| == (bits + 7 * |vs| + 7) / 8
    decreases |vs|
  {
    PadFits(pad, bits, if |vs| > 0 then vs[0] else 0);
    if |vs| == 0 then if bits > 0 then [pad] else []
    else
      var p := pad + Shl(vs[0], bits);
      if bits == 0 then Pack(p, 7, vs[1..])
      else [p % 256] + Pack(p / 256, bits - 1, vs[1..])
  }

  /** Pending bits fit a byte; with one more septet they fit 7 + bits. */
  lemma PadFits(pad: nat, bits: nat, v: nat)
    requires bits < 8 && pad < Pow2(bits) && v < 128
    ensures pad < 256 && pad + Shl(v, bits) < Pow2(bits + 7)
    ensures bits > 0 ==> (pad + Shl(v, bits)) / 256 < Pow2(bits - 1)
    ensures bits == 0 ==> pad + Shl(v, bits) < Pow2(7)
  {
    Powers();
    ShlBound(v, bits, 7);
    P2Grows(bits, 8);
    if bits > 0 {
      P2Add8(bits - 1);
    }
  }

  lemma {:induction false} P2Grows(a: nat, b: nat)
    requires a <= b
    ensures Pow2(a) <= Pow2(b)
  {
    if a < b {
      P2Grows(a, b - 1);
    }
  }

  lemma {:induction false} P2Add8(k: nat)
    ensures Pow2(k + 8) == 256 * Pow2(k)
  {
    if k > 0 {
      P2Add8(k - 1);
    } else {
      Powers();
    }
  }

  /** Bits of the byte stored and of what is carried over, when a septet joins the pending bits. */
  lemma StoredBits(pad: nat, bits: nat, v: nat, k: nat)
    requires 1 <= bits < 8 && pad < Pow2(bits) && v < 128 && k < 8
    ensures BitOf((pad + Shl(v, bits)) % 256, k) == if k < bits then BitOf(pad, k) else BitOf(v, k - bits)
    ensures BitOf((pad + Shl(v, bits)) / 256, k) == BitOf(v, k + 8 - bits)
  {
    hide BitOf, Shl, Pow2, Shr;
    var p := pad + Shl(v, bits);
    Powers();
    BitOfLow(p, 8, k);
    BitOfSum(pad, v, bits, k);
    Shr8(p);
    BitOfShr(p, 8, k);
    BitOfSum(pad, v, bits, k + 8);
  }

  lemma Shr8(x: nat)
    ensures Shr(x, 8) == x / 256
  {
    assert Shr(x, 8) == Shr(x / 2 / 2 / 2 / 2, 4);
    assert Shr(x / 2 / 2 / 2 / 2, 4) == x / 2 / 2 / 2 / 2 / 2 / 2 / 2 / 2;
  }

  ghost predicate HasPad(bytes: seq<byte>, pad: nat, bits: nat) {
    bits <= 8 * |bytes| && forall k {:trigger BitOf(pad, k)} :: 0 <= k < bits ==> BitAt(bytes, k) == BitOf(pad, k)
  }

  /** What the writer stores begins with the pending bits, and the septets follow. */
  lemma {:induction false} PackBits(pad: nat, bits: nat, vs: seq<nat>)
    requires bits < 8 && pad < Pow2(bits) && AllSeptets(vs)
    ensures HasPad(Pack(pad, bits, vs), pad, bits)
    ensures IsPacked(Pack(pad, bits, vs), bits, vs)
    decreases |vs|
  {
    if |vs| > 0 {
      hide BitOf, Pow2, Shl, HasPad, IsPacked;
      PadFits(pad, bits, vs[0]);
      var p := pad + Shl(vs[0], bits);
      if bits == 0 {
        PackBits(p, 7, vs[1..]);
        NoPad(pad, vs, Pack(p, 7, vs[1..]));
      } else {
        PackBits(p / 256, bits - 1, vs[1..]);
        SomePad(pad, bits, vs, Pack(p / 256, bits - 1, vs[1..]));
      }
    }
  }

  lemma NoPad(pad: nat, vs: seq<nat>, r: seq<byte>)
    requires pad < Pow2(0) && |vs| > 0 && vs[0] < 128
    requires HasPad(r, pad + Shl(vs[0], 0), 7) && IsPacked(r, 7, vs[1..])
    ensures HasPad(r, pad, 0) && IsPacked(r, 0, vs)
  {
    assert SeptetIn(r, 0, vs[0]);
    forall i {:trigger vs[i]} | 1 <= i < |vs|
      ensures SeptetIn(r, 7 * i, vs[i])
    {
      assert vs[1..][i - 1] == vs[i];
    }
  }

  lemma SomePad(pad: nat, bits: nat, vs: seq<nat>, rest: seq<byte>)
    requires 1 <= bits < 8 && pad < Pow2(bits) && |vs| > 0 && vs[0] < 128
    requires HasPad(rest, (pad + Shl(vs[0], bits)) / 256, bits - 1) && IsPacked(rest, bits - 1, vs[1..])
    ensures HasPad([(pad + Shl(vs[0], bits)) % 256] + rest, pad, bits)
    ensures IsPacked([(pad + Shl(vs[0], bits)) % 256] + rest, bits, vs)
  {
    hide BitOf, Pow2, Shl;
    var first := [(pad + Shl(vs[0], bits)) % 256];
    FirstSeptet(pad, bits, vs[0], rest);
    forall i {:trigger vs[i]} | 1 <= i < |vs|
      ensures SeptetIn(first + rest, bits + 7 * i, vs[i])
    {
      assert vs[1..][i - 1] == vs[i];
      assert SeptetIn(rest, bits - 1 + 7 * (i - 1), vs[i]);
      SeptetLater(first, rest, bits - 1 + 7 * (i - 1), vs[i]);
    }
  }

  lemma FirstSeptet(pad: nat, bits: nat, v: nat, rest: seq<byte>)
    requires 1 <= bits < 8 && pad < Pow2(bits) && v < 128
    requires HasPad(rest, (pad + Shl(v, bits)) / 256, bits - 1)
    ensures HasPad([(pad + Shl(v, bits)) % 256] + rest, pad, bits)
    ensures SeptetIn([(pad + Shl(v, bits)) % 256] + rest, bits, v)
  {
    hide BitOf, Shl, Pow2;
    var p := pad + Shl(v, bits);
    var r := [p % 256] + rest;
    forall k {:trigger BitOf(pad, k)} | 0 <= k < bits
      ensures BitAt(r, k) == BitOf(pad, k)
    {
      StoredBits(pad, bits, v, k);
    }
    forall j {:trigger BitOf(v, j)} | 0 <= j < 7
      ensures BitAt(r, bits + j) == BitOf(v, j)
    {
      if bits + j < 8 {
        StoredBits(pad, bits, v, bits + j);
      } else {
        StoredBits(pad, bits, v, bits + j - 8);
        assert BitAt(r, bits + j) == BitAt(rest, bits + j - 8);
      }
    }
  }

  lemma SeptetLater(a: seq<byte>, b: seq<byte>, pos: nat, v: nat)
    requires SeptetIn(b, pos, v)
    ensures SeptetIn(a + b, 8 * |a| + pos, v)
  {
    hide BitOf;
    forall j {:trigger BitOf(v, j)} | 0 <= j < 7
      ensures BitAt(a + b, 8 * |a| + pos + j) == BitOf(v, j)
    {
      assert (8 * |a| + pos + j) / 8 == |a| + (pos + j) / 8;
    }
  }

  // ---------------------------------------------------------------- reading

  /** One turn of the shift loop: the septet at bit `pos`; None when it would read past the end. */
  function SeptetAt(src: seq<byte>, pos: nat): Option<nat> {
    var at, shift := pos / 8, pos % 8;
    if at >= |src| then None
    else
      var c := Shr(src[at], shift) % 128;
      if shift <= 1 then Some(c)
      else if at + 1 >= |src| then None
      else Some((c + Shl(src[at + 1], 8 - shift)) % 128)
  }

  function Unpack(src: seq<byte>, pos: nat, n: nat): Option<seq<nat>>
    decreases n
  {
    if n == 0 then Some([])
    else
      match SeptetAt(src, pos)
      case None => None
      case Some(c) =>
        match Unpack(src, pos + 7, n - 1)
        case None => None
        case Some(rest) => Some([c] + rest)
  }

  lemma SeptetRead(src: seq<byte>, pos: nat, v: nat)
    requires SeptetIn(src, pos, v)
    ensures SeptetAt(src, pos) == Some(v)
  {
    hide BitOf, Shl, Shr, Pow2;
    var at, shift := pos / 8, pos % 8;
    Powers();
    assert BitAt(src, pos + 6) == BitOf(v, 6);
    var high := Shr(src[at], shift);
    ShrBound(src[at], shift, 8 - shift);
    if shift <= 1 {
      forall j | 0 <= j < 7
        ensures BitOf(high % 128, j) == BitOf(v, j)
      {
        BitOfLow(high, 7, j);
        BitOfShr(src[at], shift, j);
        assert BitAt(src, pos + j) == BitOf(src[at], shift + j);
      }
      EqualByBits(high % 128, v, 7);
    } else {
      P2Grows(8 - shift, 7);
      assert high % 128 == high;
      var sum := high + Shl(src[at + 1], 8 - shift);
      forall j | 0 <= j < 7
        ensures BitOf(sum % 128, j) == BitOf(v, j)
      {
        BitOfLow(sum, 7, j);
        BitOfSum(high, src[at + 1], 8 - shift, j);
        BitOfShr(src[at], shift, j);
        assert BitAt(src, pos + j) == BitOf(v, j);
      }
      EqualByBits(sum % 128, v, 7);
    }
  }

  /** Whatever packed the septets, the shift loop recovers them and stays inside the bytes. */
  lemma {:induction false} UnpackReads(src: seq<byte>, shift: nat, vs: seq<nat>)
    requires IsPacked(src, shift, vs)
    ensures Unpack(src, shift, |vs|) == Some(vs)
    decreases |vs|
  {
    if |vs| > 0 {
      hide SeptetAt, SeptetIn;
      SeptetRead(src, shift, vs[0]);
      forall i {:trigger vs[1..][i]} | 0 <= i < |vs| - 1
        ensures SeptetIn(src, shift + 7 + 7 * i, vs[1..][i])
      {
        assert vs[1..][i] == vs[i + 1];
        assert shift + 7 * (i + 1) == shift + 7 + 7 * i;
      }
      UnpackReads(src, shift + 7, vs[1..]);
      assert vs == [vs[0]] + vs[1..];
    }
  }

  /** Packing inverts, from any start offset and whatever was in the low bits of the first byte. */
  lemma PackInverts(pad: nat, bits: nat, vs: seq<nat>)
    requires bits < 8 && pad < Pow2(bits) && AllSeptets(vs)
    ensures Unpack(Pack(pad, bits, vs), bits, |vs|) == Some(vs)
    ensures HasPad(Pack(pad, bits, vs), pad, bits)
    ensures |Pack(pad, bits, vs)| == (bits + 7 * |vs| + 7) / 8
  {
    hide BitOf, Unpack;
    PackBits(pad, bits, vs);
    UnpackReads(Pack(pad, bits, vs), bits, vs);
  }
}
