/**
  Error codes of the AT channel (huawei-generic/at_error.h, and at_get_error in
  huawei-generic/atchannel.c).
 */
module AtErrors {
  import opened Options
  import opened CStrings
  import opened AtTokens
  import opened AtLines

  const NO_ERROR: int := 0
  const GENERIC: int := 1
  const COMMAND_PENDING: int := 2
  const CHANNEL_CLOSED: int := 3
  const TIMEOUT: int := 4
  const INVALID_RESPONSE: int := 6
  const MEMORY_ALLOCATION: int := 7
  const STRING_CREATION: int := 8
  const CME_BASE: int := 1000
  const CMS_BASE: int := 2000
  const GENERIC_BASE: int := 3000
  const UNSPECIFIED: int := 3005

  /** What follows the first colon. */
  function AfterColon(s: string): Option<string> {
    if s == "" then None else if s[0] == ':' then Some(s[1..]) else AfterColon(s[1..])
  }

  /** The code of a final response that is not a success. */
  function CodeOf(line: string, number: int): int {
    if "+CME ERROR:" <= line then CME_BASE + number
    else if "+CMS ERROR:" <= line then CMS_BASE + number
    else if "ERROR:" <= line then GENERIC_BASE + 1
    else if "+NO CARRIER:" <= line then GENERIC_BASE + 2
    else if "+NO ANSWER:" <= line then GENERIC_BASE + 3
    else if "+NO DIALTONE:" <= line then GENERIC_BASE + 4
    else UNSPECIFIED
  }

  /** at_get_error on a response that is not marked as a success. */
  function GetError(final: Option<string>): int {
    match final
    case None => INVALID_RESPONSE
    case Some(line) =>
      if IsSuccess(line) then NO_ERROR
      else
        match AfterColon(line)
        case None => UNSPECIFIED
        case Some(rest) =>
          match NextInt(rest)
          case None => UNSPECIFIED
          case Some(number) => CodeOf(line, number)
  }

  lemma {:induction false} ColonAt(s: string, n: nat)
    requires n < |s| && s[n] == ':' && ':' !in s[..n]
    ensures AfterColon(s) == Some(s[n + 1..])
  {
    if n > 0 {
      assert s[0] == s[..n][0] && s[1..][..n - 1] == s[..n][1..];
      ColonAt(s[1..], n - 1);
    }
  }

  lemma {:induction false} NoColon(s: string)
    requires ':' !in s
    ensures AfterColon(s) == None
  {
    if s != "" { NoColon(s[1..]); }
  }

  lemma {:induction false} AfterColonShort(s: string)
    ensures AfterColon(s).Some? ==> |AfterColon(s).value| <= |s|
  {
    if s != "" && s[0] != ':' { AfterColonShort(s[1..]); }
  }

  /** How the tokenizer leaves a line that holds `s` behind its first colon. */
  ghost predicate CutBehindColon(before: seq<char>, after: seq<char>, s: string) {
    match AfterColon(s)
    case None => after == before
    case Some(rest) =>
      |rest| <= |s| &&
      var at, token := |s| - |rest|, NextToken(rest);
      exists ret, next :: Tokenized(before, after, at, token, ret, next)
  }

  lemma TokenReturned(
    before: seq<char>, after: seq<char>, cur: nat, token: Token, ret: Option<nat>, next: Option<nat>)
    requires Tokenized(before, after, cur, token, ret, next)
    ensures ret.Some? <==> token.Token?
    ensures ret.None? && next.None? <==> token == Overrun
  {
  }

  /** Looking for the code steps over the end of the line. */
  predicate Overruns(line: string) {
    !IsSuccess(line) && AfterColon(line).Some? && NextToken(AfterColon(line).value) == Overrun
  }

  /** at_get_error from the final response on: the code is found with the tokenizer, which may write
      behind the first colon only. */
  method CodeOfFinal(line: array<char>, s: string) returns (err: Option<int>)
    requires HoldsAt(line[..], 0, s)
    modifies line
    ensures err == if Overruns(s) then None else Some(GetError(Some(s)))
    ensures line[..] == old(line[..]) || CutBehindColon(old(line[..]), line[..], s)
  {
    hide IsSuccess, CodeOf, HoldsAt, AfterColon, NextToken, Strtol, Tokenized;
    var success := FindPrefix(s, FINAL_SUCCESSES);
    SuccessIs(s);
    AfterColonShort(s);
    Char(line[..], 0, s, |s|);
    if success { return Some(NO_ERROR); }
    var next := Start(line, 0, s);
    if next.None? {
      NoColon(s);
      return Some(UNSPECIFIED);
    }
    ColonAt(s, next.value - 1);
    ghost var was := line[..];
    var ret, rest := NextTok(line, next.value, s[next.value..]);
    TokenReturned(was, line[..], next.value, NextToken(s[next.value..]), ret, rest);
    if ret.None? { return if rest.None? then None else Some(UNSPECIFIED); }
    var token := NextToken(s[next.value..]).text;
    match Strtol(token)
    case None => return Some(UNSPECIFIED);
    case Some(number) => return Some(CodeOf(s, number));
  }

  /** What at_get_error makes of a response, if there is one. */
  function ResponseError(present: bool, success: bool, final: Option<string>): int {
    if !present then UNSPECIFIED else if success then NO_ERROR else GetError(final)
  }

  /** at_get_error: `line` is the final response, null if there is none, and holds `s`; None when the
      source would step over its end. */
  method AtGetError(present: bool, success: bool, line: array?<char>, s: string) returns (err: Option<int>)
    requires line != null ==> HoldsAt(line[..], 0, s)
    modifies line
    ensures err.None? <==> present && !success && line != null && Overruns(s)
    ensures err.Some? ==> err.value == ResponseError(present, success, if line == null then None else Some(s))
    ensures line != null ==> line[..] == old(line[..]) || CutBehindColon(old(line[..]), line[..], s)
  {
    if !present { return Some(UNSPECIFIED); }
    if success { return Some(NO_ERROR); }
    if line == null { return Some(INVALID_RESPONSE); }
    err := CodeOfFinal(line, s);
  }

  lemma SuccessIs(s: string)
    ensures IsSuccess(s) == StartsWithAny(s, FINAL_SUCCESSES)
  {
  }

  /** The number of the final response makes the code when the base of its error class is added. */
  predicate NumberMakes(line: string, code: int) {
    AfterColon(line).Some? &&
    (("+CME ERROR:" <= line && NextInt(AfterColon(line).value) == Some(code - CME_BASE)) ||
     ("+CMS ERROR:" <= line && NextInt(AfterColon(line).value) == Some(code - CMS_BASE)))
  }

  /** The number cancels the base: -1000 after "+CME ERROR:" or -2000 after "+CMS ERROR:". */
  predicate CancelsBase(line: string) { NumberMakes(line, 0) }

  /** A code below those of the final responses comes from such a number only. */
  lemma SmallCodeIff(line: string, code: int)
    requires !IsSuccess(line) && 0 <= code < CME_BASE
    ensures GetError(Some(line)) == code <==> NumberMakes(line, code)
  {
    hide IsSuccess, AfterColon, NextInt;
    assert "+CME ERROR:" <= line ==> line[2] == 'M' && line[3] == 'E';
    assert "+CMS ERROR:" <= line ==> line[2] == 'M' && line[3] == 'S';
  }

  /** A failed command gets error code 0 exactly when the modem sends such a number. */
  lemma ZeroErrorIff(line: string)
    requires IsFinal(line) && !IsSuccess(line)
    ensures GetError(Some(line)) == NO_ERROR <==> CancelsBase(line)
  {
    hide IsFinal, IsSuccess, NumberMakes, GetError;
    SmallCodeIff(line, 0);
  }

  /** An int of 32 bits. */
  function Int32(x: int): int { (x + 0x8000_0000) % 0x1_0000_0000 - 0x8000_0000 }

  /** The sum of base and number may not fit an int, but it does not become 0 by that. */
  lemma NoZeroByWrapping(final: Option<string>)
    ensures Int32(GetError(final)) == NO_ERROR <==> GetError(final) == NO_ERROR
  {
    hide IsSuccess, AfterColon, NextToken, DecimalValue, SkipSpace, DigitsEnd;
    match final
    case None =>
    case Some(line) =>
      if AfterColon(line).Some? && NextInt(AfterColon(line).value).Some? {
        assert -0x8000_0000 <= NextInt(AfterColon(line).value).value <= 0x7fff_ffff;
      }
  }

  const ZERO_ERROR := "+CME ERROR: -1000"

  /** A failed command with error code 0. */
  lemma ErrorIsZero()
    ensures IsFinal(ZERO_ERROR) && !IsSuccess(ZERO_ERROR) && GetError(Some(ZERO_ERROR)) == NO_ERROR
  {
    hide IsFinal, IsSuccess, NextInt, AfterColon, GetError;
    KindOfError(ZERO_ERROR);
    NumberBehind();
    NumberRead();
    assert CancelsBase(ZERO_ERROR);
    ZeroErrorIff(ZERO_ERROR);
  }

  lemma NumberBehind()
    ensures AfterColon(ZERO_ERROR) == Some(" -1000")
  {
    hide AfterColon;
    assert ZERO_ERROR[10] == ':' && ZERO_ERROR[11..] == " -1000";
    ColonAt(ZERO_ERROR, 10);
  }

  lemma KindOfError(line: string)
    requires "+CME ERROR:" <= line
    ensures IsFinal(line) && !IsSuccess(line)
  {
    assert FINAL_ERRORS[2] <= line;
    assert line[0] == '+' && FINAL_SUCCESSES[0][0] == 'O' && FINAL_SUCCESSES[1][0] == 'C';
  }

  lemma NumberRead()
    ensures NextInt(" -1000") == Some(-1000)
  {
    hide NextInt;
    assert Decimal(1) == "1" && Decimal(10) == "10" && Decimal(100) == "100" && Decimal(1000) == "1000";
    NextIntReads(" ", "-", 1000);
    assert " " + "-" + "1000" == " -1000";
  }

  /** The code of an error that the modem numbers is its number, from 1000 on for errors of the equipment
      and from 2000 on for errors of messages. */
  lemma NumberedError(n: nat)
    requires n <= 0x7fff_ffff
    ensures GetError(Some("+CME ERROR: " + Decimal(n))) == 1000 + n
    ensures GetError(Some("+CMS ERROR: " + Decimal(n))) == 2000 + n
  {
    hide IsFinal, IsSuccess, AfterColon, NextInt, Decimal;
    var cme, cms := "+CME ERROR: " + Decimal(n), "+CMS ERROR: " + Decimal(n);
    NextIntReads(" ", "", n);
    assert " " + "" + Decimal(n) == " " + Decimal(n);
    NotSuccess(cme);
    NotSuccess(cms);
    assert cme[10] == ':' && ':' !in cme[..10] && cme[11..] == " " + Decimal(n);
    assert cms[10] == ':' && ':' !in cms[..10] && cms[11..] == " " + Decimal(n);
    ColonAt(cme, 10);
    ColonAt(cms, 10);
    assert "+CME ERROR:" <= cme && "+CMS ERROR:" <= cms && cms[3] == 'S' && "+CME ERROR:"[3] == 'E';
  }

  /** The codes of the errors that the source names, for lines with a number behind the colon. */
  lemma NamedError(rest: string)
    requires NextInt(rest).Some?
    ensures GetError(Some("ERROR:" + rest)) == 3001
    ensures GetError(Some("+NO CARRIER:" + rest)) == 3002
    ensures GetError(Some("+NO ANSWER:" + rest)) == 3003
    ensures GetError(Some("+NO DIALTONE:" + rest)) == 3004
  {
    hide IsSuccess, AfterColon, NextInt;
    var error, carrier := "ERROR:" + rest, "+NO CARRIER:" + rest;
    var answer, tone := "+NO ANSWER:" + rest, "+NO DIALTONE:" + rest;
    NotSuccess(error);
    NotSuccess(carrier);
    NotSuccess(answer);
    NotSuccess(tone);
    assert error[5] == ':' && error[6..] == rest && carrier[11] == ':' && carrier[12..] == rest;
    assert answer[10] == ':' && answer[11..] == rest && tone[12] == ':' && tone[13..] == rest;
    ColonAt(error, 5);
    ColonAt(carrier, 11);
    ColonAt(answer, 10);
    ColonAt(tone, 12);
    assert "ERROR:" <= error && "+NO CARRIER:" <= carrier && "+NO ANSWER:" <= answer && "+NO DIALTONE:" <= tone;
    assert carrier[4] == 'C' && answer[4] == 'A' && tone[4] == 'D' && "+CME ERROR:"[1] == "+CMS ERROR:"[1] == 'C';
  }

  /** But the modem's NO CARRIER, NO ANSWER and NO DIALTONE start without a '+', so that they are final
      responses and get the unspecified code, and what would get their codes is no final response. */
  lemma CarrierUntold(line: string)
    ensures "NO CARRIER" <= line || "NO ANSWER" <= line || "NO DIALTONE" <= line ==>
      IsFinal(line) && GetError(Some(line)) == UNSPECIFIED
    ensures "+NO CARRIER:" <= line || "+NO ANSWER:" <= line || "+NO DIALTONE:" <= line ==> !IsFinal(line)
  {
    hide IsFinal, IsSuccess, AfterColon, NextInt;
    FinalIff(line);
    if |line| > 1 {
      assert "NO CARRIER"[0] == "NO ANSWER"[0] == "NO DIALTONE"[0] == 'N' && "OK"[0] == 'O' && "CONNECT"[0] == 'C';
      assert "+CME ERROR:"[0] == "+CMS ERROR:"[0] == '+' && "ERROR:"[0] == 'E';
      assert "+CME ERROR:"[1] == "+CMS ERROR:"[1] == 'C' && "+NO CARRIER:"[1] == "+NO ANSWER:"[1] == 'N';
      assert "+NO CARRIER:"[0] == "+NO ANSWER:"[0] == "+NO DIALTONE:"[0] == '+' && "+NO DIALTONE:"[1] == 'N';
    }
  }

  /** The codes of a failure: from 1000 or 2000 on by the number, 3001 for a numbered ERROR, and else the
      unspecified one. */
  lemma FinalCode(line: string)
    requires IsFinal(line) && !IsSuccess(line)
    ensures var code := GetError(Some(line));
      code == 3001 || code == UNSPECIFIED || NumberMakes(line, code)
  {
    hide IsFinal, IsSuccess, AfterColon, NextInt;
    CarrierUntold(line);
  }

  lemma NotSuccess(line: string)
    requires |line| > 0 && (line[0] == '+' || line[0] == 'E')
    ensures !IsSuccess(line)
  {
    assert FINAL_SUCCESSES[0][0] == 'O' && FINAL_SUCCESSES[1][0] == 'C';
  }
}
