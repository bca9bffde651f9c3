/**
  Encoding then decoding a CDMA SMS (huawei-generic/sms.c): what survives, and exactly when the text
  and the number survive unchanged.
 */
module CdmaRoundTrip {
  import opened Options
  import opened CdmaBits
  import opened CdmaSms
  import opened CdmaDecode

  /** A text as it survives: the count field has eight bits and each character field seven. */
  function KeptText(m: string): string {
    seq(|m| % 256, i requires 0 <= i < |m| % 256 => (m[i] as int % 128) as char)
  }

  /** A number as it survives: eight bits of count, and the decoder's digit for each code. */
  function KeptNumber(no: string): string {
    seq(|no| % 256, i requires 0 <= i < |no| % 256 => DigitChar(DigitCode(no[i])))
  }

  lemma ByteField(s: string, d: nat)
    requires AllHex(s) && d + 2 <= |s|
    ensures ByteAt(s, d) == GetBits(s, 4 * d, 8)
  {
    hide GetBits;
    ByteBits(s, d);
  }

  // ---------------------------------------------------------------- numbers

  lemma DigitsStep(s: string, pos: nat, n: nat, rest: string)
    requires n > 0 && pos + 4 <= 4 * |s| && Digits(s, pos + 4, n - 1) == Some(rest)
    ensures Digits(s, pos, n) == Some([DigitChar(GetBits(s, pos, 4) % 16)] + rest)
  {
    hide GetBits, DigitChar;
  }

  lemma {:induction false} DigitsKept(s: string, base: nat, no: string, j: nat)
    requires NumberAt(s, base, no) && j <= |no| % 256
    ensures Digits(s, base + 10 + j * 4, |no| % 256 - j) == Some(KeptNumber(no)[j..])
    decreases |no| % 256 - j
  {
    hide GetBits, Digits, DigitCode, DigitChar;
    var n, pos := |no| % 256, base + 10 + j * 4;
    if j < n {
      DigitsKept(s, base, no, j + 1);
      assert GetBits(s, pos, 4) == DigitCode(no[j]);
      assert base + 10 + (j + 1) * 4 == pos + 4;
      DigitsStep(s, pos, n - j, KeptNumber(no)[j + 1..]);
      assert KeptNumber(no)[j..] == [KeptNumber(no)[j]] + KeptNumber(no)[j + 1..];
    } else {
      NoDigits(s, pos);
      assert KeptNumber(no)[j..] == "";
    }
  }

  lemma NoDigits(s: string, pos: nat)
    ensures Digits(s, pos, 0) == Some("")
  {
  }

  lemma NumberKept(s: string, base: nat, no: string)
    requires NumberAt(s, base, no)
    ensures NumberSpec(s, base) == Some(KeptNumber(no))
  {
    hide GetBits;
    DigitsKept(s, base, no, 0);
    assert KeptNumber(no)[0..] == KeptNumber(no);
  }

  /** decode_number inverts encode_number exactly on at most 255 characters of the digit table. */
  lemma NumberSurvivesIff(no: string)
    ensures KeptNumber(no) == no <==> |no| < 256 && forall i :: 0 <= i < |no| ==> DialChar(no[i])
  {
    if KeptNumber(no) == no {
      forall i | 0 <= i < |no|
        ensures DialChar(no[i])
      {
        assert KeptNumber(no)[i] == DigitChar(DigitCode(no[i]));
      }
    }
  }

  // ---------------------------------------------------------------- text

  lemma {:induction false} CharsKept(s: string, base: nat, m: string, j: nat)
    requires UserDataAt(s, base, m) && j <= |m| % 256
    ensures Chars(s, base + 29 + j * 7, 7, 7, |m| % 256 - j) == Some(KeptText(m)[j..])
    decreases |m| % 256 - j
  {
    hide GetBits;
    if j < |m| % 256 {
      CharsKept(s, base, m, j + 1);
      assert GetBits(s, base + 29 + j * 7, 7) == m[j] as int % 128;
      assert base + 29 + (j + 1) * 7 == base + 29 + j * 7 + 7;
      assert KeptText(m)[j..] == [KeptText(m)[j]] + KeptText(m)[j + 1..];
    } else {
      assert KeptText(m)[j..] == "";
    }
  }

  lemma UserTextKept(s: string, d: nat, m: string)
    requires d >= 4 && UserDataAt(s, 4 * (d - 4), m)
    ensures UserText(s, d) == Some(KeptText(m))
  {
    hide GetBits;
    CharsKept(s, 4 * (d - 4), m, 0);
    assert KeptText(m)[0..] == KeptText(m);
  }

  /** The text survives exactly when it has at most 255 characters, all below 128. */
  lemma TextSurvivesIff(m: string)
    requires forall i :: 0 <= i < |m| ==> m[i] as int < 256
    ensures KeptText(m) == m <==> |m| < 256 && forall i :: 0 <= i < |m| ==> m[i] as int < 128
  {
    if KeptText(m) == m {
      forall i | 0 <= i < |m|
        ensures m[i] as int < 128
      {
        assert KeptText(m)[i] as int == m[i] as int % 128;
      }
    }
  }

  /** A subparameter of `sub` content bytes that the walk does not use. */
  lemma BearerSkip(s: string, d: nat, length: nat, i: nat, code: nat, sub: nat, text: Option<string>)
    requires AllHex(s) && i < length && d + 2 * i + 4 <= |s|
    requires GetBits(s, 4 * (d + 2 * i), 8) == code && GetBits(s, 4 * (d + 2 * i) + 8, 8) == sub
    requires code != 1 && code != 11
    ensures BearerSpec(s, d, length, i, text, 0) == BearerSpec(s, d, length, i + sub + 2, text, 0)
  {
    hide GetBits;
    ByteField(s, d + 2 * i);
    ByteField(s, d + 2 * i + 2);
  }

  lemma UserDataHead(s: string, base: nat, m: string)
    requires UserDataAt(s, base, m) && UserLen(|m|) < 256
    ensures base + 8 * UserLen(|m|) <= 4 * |s| && GetBits(s, base, 8) == 1 &&
      GetBits(s, base + 8, 8) == UserLen(|m|) - 2
  {
    hide GetBits;
  }

  lemma BearerUserData(s: string, d: nat, length: nat, i: nat, m: string)
    requires AllHex(s) && i < length && UserDataAt(s, 4 * (d + 2 * i), m) && UserLen(|m|) < 256
    ensures BearerSpec(s, d, length, i, None, 0)
         == BearerSpec(s, d, length, i + UserLen(|m|), Some(KeptText(m)), 0)
  {
    hide GetBits, KeptText, UserText, UserDataAt;
    assert GetBits(s, 4 * (d + 2 * i), 8) == 1 && GetBits(s, 4 * (d + 2 * i) + 8, 8) == UserLen(|m|) - 2 by {
      UserDataHead(s, 4 * (d + 2 * i), m);
    }
    ByteField(s, d + 2 * i);
    ByteField(s, d + 2 * i + 2);
    UserTextKept(s, d + 2 * i + 4, m);
    assert "" + KeptText(m) == KeptText(m);
  }

  /** The walk over the encoded bearer data visits four subparameters and ends at its last byte. */
  lemma BearerKept(s: string, d: nat, m: string)
    requires AllHex(s) && BearerAt(s, 4 * d, m) && BearerLen(|m|) < 256
    ensures BearerSpec(s, d, BearerLen(|m|), 0, None, 0) == Some(Bearer(Some(KeptText(m)), 0, BearerLen(|m|)))
  {
    hide GetBits, KeptText, BearerSpec, UserDataAt;
    var length, user := BearerLen(|m|), UserLen(|m|);
    BearerSkip(s, d, length, 0, 0, 3, None);
    BearerUserData(s, d, length, 5, m);
    BearerSkip(s, d, length, 5 + user, 8, 1, Some(KeptText(m)));
    BearerSkip(s, d, length, 5 + user + 3, 13, 1, Some(KeptText(m)));
    BearerEnd(s, d, length, Some(KeptText(m)));
  }

  lemma BearerEnd(s: string, d: nat, length: nat, text: Option<string>)
    ensures BearerSpec(s, d, length, length, text, 0) == Some(Bearer(text, 0, length))
  {
  }

  lemma PduSkip(s: string, i: nat, code: nat, len: nat, from: string, message: string)
    requires AllHex(s) && 2 * i + 4 <= |s| && len < 256
    requires ParamAt(s, 8 * i, code, len) && code != 2 && code != 8
    ensures PduSpec(s, i, from, message, 0) == PduSpec(s, i + len + 2, from, message, 0)
  {
    hide GetBits;
    ByteField(s, 2 * i);
    ByteField(s, 2 * i + 2);
  }

  lemma PduBearer(s: string, i: nat, m: string, from: string, message: string)
    requires AllHex(s) && 2 * i + 4 <= |s| && BearerLen(|m|) < 256
    requires ParamAt(s, 8 * i, 8, BearerLen(|m|)) && BearerAt(s, 8 * i + 16, m)
    ensures PduSpec(s, i, from, message, 0) == PduSpec(s, i + BearerLen(|m|) + 2, from, KeptText(m), 0)
  {
    hide GetBits, BearerSpec, KeptText, BearerAt, BearerLen;
    ByteField(s, 2 * i);
    ByteField(s, 2 * i + 2);
    BearerKept(s, 2 * i + 4, m);
  }

  /** decode_cdma_sms on what encode_cdma_sms wrote.  The sender stays "000000": the encoder writes
      a destination address (4) and the decoder looks for an originating one (2). */
  lemma RoundTrip(s: string, to: string, m: string)
    requires |s| == PduLen(to, m) < 512 && AllHex(s) && PduAt(s, to, m)
    ensures Decode(s) == Decoded("000000", KeptText(m), 0, |s| / 2)
    ensures NumberSpec(s, 56) == Some(KeptNumber(to))
  {
    hide GetBits, KeptText, KeptNumber, NumberSpec, BearerAt, NumberAt, PduSpec;
    NumberKept(s, 56, to);
    var n, b := NumberLen(|to|), BearerLen(|m|);
    PduSkip(s, 1, 0, 2, "000000", "UNKNOWN");
    PduSkip(s, 5, 4, n, "000000", "UNKNOWN");
    PduSkip(s, 7 + n, 6, 1, "000000", "UNKNOWN");
    PduBearer(s, 10 + n, m, "000000", "UNKNOWN");
    PduEnd(s, 12 + n + b, "000000", KeptText(m));
  }

  lemma PduEnd(s: string, i: nat, from: string, message: string)
    requires 2 * i >= |s|
    ensures PduSpec(s, i, from, message, 0) == Decoded(from, message, 0, i)
  {
  }

  /** The round trip is the identity on the text exactly for 7-bit texts of at most 255 characters. */
  lemma RoundTripIff(s: string, to: string, m: string)
    requires |s| == PduLen(to, m) < 512 && AllHex(s) && PduAt(s, to, m)
    requires forall i :: 0 <= i < |m| ==> m[i] as int < 256
    ensures Decode(s) == Decoded("000000", m, 0, |s| / 2)
      <==> |m| < 256 && forall i :: 0 <= i < |m| ==> m[i] as int < 128
    ensures NumberSpec(s, 56) == Some(to)
      <==> |to| < 256 && forall i :: 0 <= i < |to| ==> DialChar(to[i])
  {
    hide *;
    RoundTrip(s, to, m);
    TextSurvivesIff(m);
    NumberSurvivesIff(to);
  }
}
