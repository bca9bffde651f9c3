/**
  The in-place tokenizer for AT response lines (huawei-generic/at_tok.c): it moves a cursor through
  the line and writes a NUL behind every token.
 */
module AtTokens {
  import opened Options
  import opened CStrings

  // ---------------------------------------------------------------- what a call finds

  predicate IsSpace(c: char) { c == ' ' || '\t' <= c <= '\r' }

  function SkipSpace(s: string): (r: string)
    ensures |r| <= |s|
  {
    if s != "" && IsSpace(s[0]) then SkipSpace(s[1..]) else s
  }

  /** The index of the first comma, or the length. */
  function Comma(s: string): (n: nat)
    ensures n <= |s|
  {
    if s == "" || s[0] == ',' then 0 else 1 + Comma(s[1..])
  }

  /** What follows the next comma. */
  function AfterComma(s: string): string {
    if Comma(s) < |s| then s[Comma(s) + 1..] else ""
  }

  /** Where a quoted string ends: nowhere, at a quote, or behind the end of the line, when its last
      character is a backslash that escapes the terminator. */
  datatype Closing = Open | At(n: nat) | Beyond

  function QuoteEnd(s: string, escaped: bool): (c: Closing)
    ensures c.At? ==> c.n < |s|
  {
    if s == "" then if escaped then Beyond else Open
    else if !escaped && s[0] == '"' then At(0)
    else
      match QuoteEnd(s[1..], !escaped && s[0] == '\\')
      case At(n) => At(n + 1)
      case other => other
  }

  /** A token and what is left, NULL or a string; an unclosed quote; or a read beyond the line. */
  datatype Token = Token(text: string, more: Option<string>) | Unclosed | Overrun

  function NextToken(s: string): (r: Token)
    ensures r.Token? && r.more.Some? && s != "" ==> |r.more.value| < |s|
  {
    var t := SkipSpace(s);
    if t != "" && t[0] == '"' then
      match QuoteEnd(t[1..], false)
      case Open => Unclosed
      case Beyond => Overrun
      case At(n) => Token(t[1..1 + n], Some(AfterComma(t[2 + n..])))
    else if Comma(t) < |t| then Token(t[..Comma(t)], Some(t[Comma(t) + 1..]))
    else Token(t, None)
  }

  /** All tokens, read while there are more; Broken when one fails. */
  datatype TokenList = Tokens(list: seq<string>) | Broken | Lost

  function ReadAll(s: string): TokenList
    decreases |s|
  {
    if s == "" then Tokens([])
    else
      match NextToken(s)
      case Unclosed => Broken
      case Overrun => Lost
      case Token(text, None) => Tokens([text])
      case Token(text, Some(more)) =>
        match ReadAll(more)
        case Tokens(list) => Tokens([text] + list)
        case other => other
  }

  // ---------------------------------------------------------------- the calls

  /** at_tok_start; None is its -1. */
  method Start(line: array<char>, cur: nat, ghost s: string) returns (next: Option<nat>)
    requires HoldsAt(line[..], cur, s)
    ensures next.None? <==> ':' !in s
    ensures next.Some? ==> cur < next.value <= cur + |s| && s[next.value - cur - 1] == ':'
    ensures next.Some? ==> ':' !in s[..next.value - cur - 1] && HoldsAt(line[..], next.value, s[next.value - cur..])
  {
    hide HoldsAt;
    var at := cur;
    Char(line[..], cur, s, 0);
    while line[at] != '\0' && line[at] != ':'
      invariant cur <= at <= cur + |s| && at < line.Length && ':' !in s[..at - cur]
      invariant line[at] == '\0' <==> at == cur + |s|
      decreases cur + |s| - at
    {
      Char(line[..], cur, s, at - cur);
      at := at + 1;
      Char(line[..], cur, s, at - cur);
    }
    Char(line[..], cur, s, at - cur);
    if line[at] == '\0' {
      assert s[..at - cur] == s;
      return None;
    }
    Later(line[..], cur, s, at - cur + 1);
    return Some(at + 1);
  }

  lemma SpaceStep(s: string)
    ensures s != "" && IsSpace(s[0]) ==> SkipSpace(s) == SkipSpace(s[1..])
    ensures s == "" || !IsSpace(s[0]) ==> SkipSpace(s) == s
  {
  }

  /** skipWhiteSpace */
  method SkipWhiteSpace(line: array<char>, cur: nat, ghost s: string) returns (next: nat)
    requires HoldsAt(line[..], cur, s)
    ensures HoldsAt(line[..], next, SkipSpace(s)) && next + |SkipSpace(s)| == cur + |s|
  {
    hide HoldsAt, SkipSpace;
    next := cur;
    ghost var t := s;
    Head(line[..], next, t);
    while line[next] != '\0' && IsSpace(line[next])
      invariant HoldsAt(line[..], next, t) && next < line.Length
      invariant SkipSpace(t) == SkipSpace(s) && next + |t| == cur + |s|
      decreases |t|
    {
      Head(line[..], next, t);
      SpaceStep(t);
      Tail(line[..], next, t);
      next := next + 1;
      t := t[1..];
      Head(line[..], next, t);
    }
    Head(line[..], next, t);
    SpaceStep(t);
  }

  lemma {:induction false} CommaIs(s: string, n: nat)
    requires n <= |s| && (forall i :: 0 <= i < n ==> s[i] != ',') && (n < |s| ==> s[n] == ',')
    ensures Comma(s) == n
  {
    if n > 0 { CommaIs(s[1..], n - 1); }
  }

  /** The next comma or the end of the string: the loops of strsep and skipNextComma. */
  method FindComma(line: array<char>, cur: nat, ghost s: string) returns (at: nat)
    requires HoldsAt(line[..], cur, s)
    ensures at == cur + Comma(s) < line.Length && (line[at] == ',' <==> Comma(s) < |s|)
  {
    hide HoldsAt, Comma;
    at := cur;
    Char(line[..], cur, s, 0);
    while line[at] != '\0' && line[at] != ','
      invariant cur <= at <= cur + |s| && at < line.Length
      invariant forall i :: 0 <= i < at - cur ==> s[i] != ','
      invariant line[at] == '\0' <==> at == cur + |s|
      decreases cur + |s| - at
    {
      Char(line[..], cur, s, at - cur);
      at := at + 1;
      Char(line[..], cur, s, at - cur);
    }
    Char(line[..], cur, s, at - cur);
    CommaIs(s, at - cur);
  }

  /** skipNextComma */
  method SkipNextComma(line: array<char>, cur: nat, ghost s: string) returns (next: nat)
    requires HoldsAt(line[..], cur, s)
    ensures cur <= next && HoldsAt(line[..], next, AfterComma(s))
  {
    hide HoldsAt, Comma;
    next := FindComma(line, cur, s);
    Later(line[..], cur, s, Comma(s));
    if line[next] == ',' {
      next := next + 1;
      Later(line[..], cur, s, Comma(s) + 1);
    } else {
      assert s[Comma(s)..] == "";
    }
  }

  lemma QuoteStep(s: string, escaped: bool)
    ensures QuoteEnd(s, escaped) ==
      if s == "" then if escaped then Beyond else Open
      else if !escaped && s[0] == '"' then At(0)
      else match QuoteEnd(s[1..], !escaped && s[0] == '\\') case At(n) => At(n + 1) case other => other
  {
  }

  function Shift(c: Closing, k: nat): Closing {
    match c case At(n) => At(n + k) case other => other
  }

  /** The state machine over a quoted string that starts at the cursor: the index of its closing quote,
      or of the end of the line when there is none; `beyond` when it steps over the end. */
  method FindQuote(line: array<char>, cur: nat, ghost s: string) returns (found: bool, beyond: bool, at: nat)
    requires HoldsAt(line[..], cur, s)
    ensures found <==> QuoteEnd(s, false).At?
    ensures beyond <==> QuoteEnd(s, false) == Beyond
    ensures at == cur + match QuoteEnd(s, false) case At(n) => n case other => |s|
  {
    hide HoldsAt, QuoteEnd;
    at := cur;
    var escaped := false;
    ghost var t := s;
    while true
      invariant HoldsAt(line[..], at, t) && cur <= at && at + |t| == cur + |s|
      invariant QuoteEnd(s, false) == Shift(QuoteEnd(t, escaped), at - cur)
      decreases |t|
    {
      Head(line[..], at, t);
      QuoteStep(t, escaped);
      if escaped {
        if line[at] == '\0' { return false, true, at; }
        escaped := false;
      } else if line[at] == '\\' {
        escaped := true;
      } else if line[at] == '"' {
        return true, false, at;
      } else if line[at] == '\0' {
        return false, false, at;
      }
      Tail(line[..], at, t);
      at := at + 1;
      t := t[1..];
    }
  }

  /** What a token call leaves: the token and the rest are strings in the line, the rest behind the
      token, and nothing before the old cursor has changed.  When there is no closing quote, the line is
      as it was and the cursor at its end; and when the call steps over the end of the line, there is
      nothing to say about where it goes. */
  ghost predicate Tokenized(
    before: seq<char>, after: seq<char>, cur: nat, token: Token, ret: Option<nat>, next: Option<nat>)
  {
    |after| == |before| && cur < |before| && after[..cur] == before[..cur] &&
    match token
    case Token(text, more) =>
      ret.Some? && cur <= ret.value && HoldsAt(after, ret.value, text) && (next.None? <==> more.None?) &&
      (next.Some? ==> ret.value + |text| < next.value && HoldsAt(after, next.value, more.value))
    case Unclosed =>
      ret.None? && next.Some? && cur <= next.value && HoldsAt(after, next.value, "") && after == before
    case Overrun => ret.None? && next.None? && after == before
  }

  /** The quoted case of nextTok; `t` starts at the quote. */
  method QuotedTok(line: array<char>, at: nat, ghost t: string) returns (ret: Option<nat>, next: Option<nat>)
    requires HoldsAt(line[..], at, t) && t != "" && t[0] == '"'
    modifies line
    ensures var token := match QuoteEnd(t[1..], false)
      case At(n) => Token(t[1..1 + n], Some(AfterComma(t[2 + n..])))
      case Open => Unclosed
      case Beyond => Overrun;
      Tokenized(old(line[..]), line[..], at, token, ret, next)
  {
    hide HoldsAt, Comma, AfterComma, QuoteEnd;
    Head(line[..], at, t);
    Tail(line[..], at, t);
    var found, beyond, end := FindQuote(line, at + 1, t[1..]);
    if beyond { return None, None; }
    if !found {
      Later(line[..], at + 1, t[1..], |t| - 1);
      assert t[1..][|t| - 1..] == "";
      return None, Some(end);
    }
    ghost var n := QuoteEnd(t[1..], false).n;
    CutTwo(line[..], at + 1, t[1..], n);
    ghost var b := line[..];
    line[end] := '\0';
    assert line[..] == b[end := '\0'];
    assert t[1..][..n] == t[1..1 + n] && t[1..][n + 1..] == t[2 + n..];
    var rest := SkipNextComma(line, end + 1, t[2 + n..]);
    return Some(at + 1), Some(rest);
  }

  /** The case of nextTok without quotes: strsep. */
  method PlainTok(line: array<char>, at: nat, ghost t: string) returns (ret: Option<nat>, next: Option<nat>)
    requires HoldsAt(line[..], at, t)
    modifies line
    ensures var token := if Comma(t) < |t| then Token(t[..Comma(t)], Some(t[Comma(t) + 1..])) else Token(t, None);
      Tokenized(old(line[..]), line[..], at, token, ret, next)
  {
    hide HoldsAt, Comma;
    Head(line[..], at, t);
    var comma := FindComma(line, at, t);
    if line[comma] != ',' { return Some(at), None; }
    CutTwo(line[..], at, t, Comma(t));
    ghost var b := line[..];
    line[comma] := '\0';
    assert line[..] == b[comma := '\0'];
    return Some(at), Some(comma + 1);
  }

  /** nextTok; nothing is returned when the source would step over the end of the line. */
  method NextTok(line: array<char>, cur: nat, ghost s: string) returns (ret: Option<nat>, next: Option<nat>)
    requires HoldsAt(line[..], cur, s)
    modifies line
    ensures Tokenized(old(line[..]), line[..], cur, NextToken(s), ret, next)
  {
    hide HoldsAt, Comma, AfterComma, QuoteEnd, SkipSpace, Tokenized;
    ghost var t, was := SkipSpace(s), line[..];
    var at := SkipWhiteSpace(line, cur, s);
    Head(line[..], at, t);
    if line[at] == '"' {
      ret, next := QuotedTok(line, at, t);
    } else {
      ret, next := PlainTok(line, at, t);
    }
    FromEarlier(was, line[..], cur, at, NextToken(s), ret, next);
  }

  lemma FromEarlier(
    before: seq<char>, after: seq<char>, cur: nat, at: nat, token: Token, ret: Option<nat>, next: Option<nat>)
    requires Tokenized(before, after, at, token, ret, next) && cur <= at
    ensures Tokenized(before, after, cur, token, ret, next)
  {
    hide HoldsAt;
    assert after[..cur] == after[..at][..cur] == before[..cur];
  }

  /** at_tok_nextstr while at_tok_hasmore: the tokens, each still readable in the line at the end. */
  method ReadTokens(line: array<char>, start: nat, ghost s: string) returns (ok: bool, beyond: bool, starts: seq<nat>)
    requires HoldsAt(line[..], start, s)
    modifies line
    ensures ok <==> ReadAll(s).Tokens?
    ensures beyond <==> ReadAll(s) == Lost
    ensures ok ==> |starts| == |ReadAll(s).list|
    ensures ok ==> forall k :: 0 <= k < |starts| ==> HoldsAt(line[..], starts[k], ReadAll(s).list[k])
  {
    hide HoldsAt, NextToken, ReadAll;
    starts := [];
    var cur: Option<nat> := Some(start);
    ghost var left, done := s, [];
    while cur.Some?
      invariant cur.Some? ==> HoldsAt(line[..], cur.value, left)
      invariant cur.Some? ==> ReadAll(s) == Prefixed(done, ReadAll(left))
      invariant cur.None? ==> ReadAll(s) == Tokens(done)
      invariant |starts| == |done|
      invariant forall k :: 0 <= k < |starts| ==> HoldsAt(line[..], starts[k], done[k])
      invariant cur.Some? ==> forall k :: 0 <= k < |starts| ==> starts[k] + |done[k]| < cur.value
      decreases cur.Some?, |left|
    {
      Head(line[..], cur.value, left);
      ReadStep(left);
      if line[cur.value] == '\0' {
        return true, false, starts;
      }
      ghost var was, token := line[..], NextToken(left);
      var ret, next := NextTok(line, cur.value, left);
      if ret.None? { return false, next.None?, starts; }
      forall k | 0 <= k < |starts|
        ensures HoldsAt(line[..], starts[k], done[k])
      {
        assert forall i :: 0 <= i < cur.value ==> line[..][i] == line[..][..cur.value][i] == was[i];
        SameBefore(was, line[..], starts[k], done[k]);
      }
      starts, done := starts + [ret.value], done + [token.text];
      cur := next;
      left := if token.more.Some? then token.more.value else left;
    }
    ok, beyond := true, false;
  }

  function Prefixed(done: seq<string>, t: TokenList): TokenList {
    match t case Tokens(list) => Tokens(done + list) case other => other
  }

  lemma ReadStep(s: string)
    ensures s == "" ==> ReadAll(s) == Tokens([])
    ensures s != "" && !NextToken(s).Token? ==> ReadAll(s) == if NextToken(s).Unclosed? then Broken else Lost
    ensures s != "" && NextToken(s).Token? ==>
      var t := NextToken(s);
      ReadAll(s) == if t.more.None? then Tokens([t.text]) else Prefixed([t.text], ReadAll(t.more.value))
    ensures s != "" && NextToken(s).Token? && NextToken(s).more.Some? ==> |NextToken(s).more.value| < |s|
  {
    hide NextToken;
  }

  // ---------------------------------------------------------------- stepping over the end

  /** The backslashes at the end. */
  function Backslashes(s: string): nat {
    if s != "" && s[|s| - 1] == '\\' then 1 + Backslashes(s[..|s| - 1]) else 0
  }

  /** Every quote has an odd run of backslashes before it, so that none of them closes. */
  predicate NoneCloses(s: string) {
    forall k :: 0 <= k < |s| && s[k] == '"' ==> Backslashes(s[..k]) % 2 == 1
  }

  lemma OneMoreBackslash(before: string, c: char)
    ensures Backslashes(before + [c]) == if c == '\\' then 1 + Backslashes(before) else 0
  {
    assert (before + [c])[..|before|] == before;
  }

  /** What the state machine makes of a string, of which `before` has been read. */
  lemma {:induction false} QuoteEndIs(before: string, s: string)
    requires NoneCloses(before)
    ensures var end := QuoteEnd(s, Backslashes(before) % 2 == 1);
      (end.At? <==> !NoneCloses(before + s)) &&
      (end == Beyond <==> NoneCloses(before + s) && Backslashes(before + s) % 2 == 1)
    decreases |s|
  {
    if s == "" {
      assert before + s == before;
    } else {
      var all, more := before + s, before + [s[0]];
      OneMoreBackslash(before, s[0]);
      QuoteStep(s, Backslashes(before) % 2 == 1);
      assert all == more + s[1..] && all[..|before|] == before && all[|before|] == s[0];
      if s[0] == '"' && Backslashes(before) % 2 == 0 {
        assert !NoneCloses(all);
      } else {
        NoneClosesMore(before, s[0]);
        QuoteEndIs(more, s[1..]);
      }
    }
  }

  lemma NoneClosesMore(before: string, c: char)
    requires NoneCloses(before) && (c == '"' ==> Backslashes(before) % 2 == 1)
    ensures NoneCloses(before + [c])
  {
    forall k | 0 <= k < |before + [c]| && (before + [c])[k] == '"'
      ensures Backslashes((before + [c])[..k]) % 2 == 1
    {
      assert (before + [c])[..k] == before[..k];
    }
  }

  /** A call steps over the end of the line exactly when the token starts with a quote that nothing
      closes, and the line ends in an odd run of backslashes. */
  lemma OverrunIff(s: string)
    ensures NextToken(s) == Overrun <==>
      var t := SkipSpace(s);
      t != "" && t[0] == '"' && NoneCloses(t[1..]) && Backslashes(t[1..]) % 2 == 1
  {
    hide QuoteEnd, SkipSpace, NoneCloses, Backslashes, Comma;
    var t := SkipSpace(s);
    if t != "" && t[0] == '"' {
      NothingRead();
      QuoteEndIs("", t[1..]);
      assert "" + t[1..] == t[1..];
    }
  }

  lemma NothingRead()
    ensures NoneCloses("") && Backslashes("") == 0
  {
  }

  /** Such a line: a quote, a letter and a backslash. */
  lemma BackslashOverruns()
    ensures NextToken("\"a\\") == Overrun
  {
    var s, t := "\"a\\", "a\\";
    SpaceStep(s);
    assert s[1..] == t && t[..1] == "a" && "a"[..0] == "";
    OneMoreBackslash("a", '\\');
    OneMoreBackslash("", 'a');
    assert "" + ['a'] == "a" && "a" + ['\\'] == t;
    assert NoneCloses(t) by {
      assert t[0] == 'a' && t[1] == '\\';
    }
    OverrunIff(s);
  }

  // ---------------------------------------------------------------- printing fields

  /** Space, tab, newline, vertical tab, form feed and carriage return. */
  const SPACES: string := " \t\n\U{0B}\U{0C}\r"

  predicate AllSpaces(s: string) { forall i :: 0 <= i < |s| ==> s[i] in SPACES }

  lemma SpaceIs(c: char)
    ensures IsSpace(c) <==> c in SPACES
  {
    assert SPACES[0] == ' ' && SPACES[1] == '\t' && SPACES[2] == '\n' && SPACES[5] == '\r';
    assert SPACES[3] as int == 11 && SPACES[4] as int == 12;
    assert c in SPACES <==> c as int == 32 || 9 <= c as int <= 13;
  }

  /** A field as a modem prints it, behind any spaces: quoted, with backslash escapes and anything but a
      comma behind the closing quote, or as it is. */
  datatype Field = Quoted(spaces: string, body: string, behind: string) | Plain(spaces: string, text: string) {
    function Value(): string {
      match this case Quoted(_, body, _) => body case Plain(_, text) => text
    }

    function Bare(): string {
      match this case Quoted(_, body, behind) => "\"" + body + "\"" + behind case Plain(_, text) => text
    }

    function Render(): string { spaces + Bare() }

    predicate WellFormed() {
      AllSpaces(spaces) &&
      match this
      case Quoted(_, body, behind) => Escaped(body) && ',' !in behind
      case Plain(_, text) => ',' !in text && (text != "" ==> text[0] != '"' && text[0] !in SPACES)
    }
  }

  /** Every quote, and every backslash, has a backslash before it. */
  predicate Escaped(body: string) {
    body == "" ||
    if body[0] == '\\' then |body| >= 2 && Escaped(body[2..]) else body[0] != '"' && Escaped(body[1..])
  }

  function Join(fields: seq<Field>): string {
    if |fields| == 0 then ""
    else if |fields| == 1 then fields[0].Render()
    else fields[0].Render() + "," + Join(fields[1..])
  }

  function Values(fields: seq<Field>): seq<string> {
    if |fields| == 0 then [] else [fields[0].Value()] + Values(fields[1..])
  }

  lemma {:induction false} EscapedCloses(body: string, rest: string)
    requires Escaped(body)
    ensures QuoteEnd(body + "\"" + rest, false) == At(|body|)
  {
    var s := body + "\"" + rest;
    if body == "" {
    } else if body[0] == '\\' {
      assert s[1..][0] == body[1] && s[1..][1..] == body[2..] + "\"" + rest;
      EscapedCloses(body[2..], rest);
      QuoteStep(s, false);
      QuoteStep(s[1..], true);
    } else {
      assert s[1..] == body[1..] + "\"" + rest;
      EscapedCloses(body[1..], rest);
    }
  }

  lemma {:induction false} CommaAfter(text: string, rest: string)
    requires ',' !in text
    ensures Comma(text) == |text| && Comma(text + "," + rest) == |text|
  {
    CommaIs(text, |text|);
    CommaIs(text + "," + rest, |text|);
  }

  lemma {:induction false} SpacesSkipped(spaces: string, rest: string)
    requires AllSpaces(spaces)
    ensures SkipSpace(spaces + rest) == SkipSpace(rest)
  {
    if spaces != "" {
      SpaceIs(spaces[0]);
      SpacesSkipped(spaces[1..], rest);
      assert (spaces + rest)[1..] == spaces[1..] + rest;
    } else {
      assert spaces + rest == rest;
    }
  }

  /** The spaces before a token do not matter. */
  lemma SpacesBefore(spaces: string, rest: string)
    requires AllSpaces(spaces)
    ensures NextToken(spaces + rest) == NextToken(rest)
  {
    hide SkipSpace, QuoteEnd, Comma, AfterComma;
    SpacesSkipped(spaces, rest);
  }

  lemma BareRead(f: Field, rest: string)
    requires f.WellFormed()
    ensures NextToken(f.Bare() + "," + rest) == Token(f.Value(), Some(rest))
    ensures NextToken(f.Bare()) == Token(f.Value(), if f.Quoted? then Some("") else None)
  {
    hide QuoteEnd, Comma, SkipSpace;
    match f {
      case Quoted(_, body, behind) =>
        QuotedRead(body, behind + "," + rest);
        QuotedRead(body, behind);
        CommaAfter(behind, rest);
        assert f.Bare() + "," + rest == "\"" + body + "\"" + (behind + "," + rest);
      case Plain(_, text) =>
        SpaceStep(text + "," + rest);
        SpaceStep(text);
        if text != "" { SpaceIs(text[0]); }
        CommaAfter(text, rest);
    }
  }

  /** A printed field is read back, with a comma behind it or at the end. */
  lemma FieldRead(f: Field, rest: string)
    requires f.WellFormed()
    ensures NextToken(f.Render() + "," + rest) == Token(f.Value(), Some(rest))
    ensures NextToken(f.Render()) == Token(f.Value(), if f.Quoted? then Some("") else None)
  {
    hide NextToken;
    BareRead(f, rest);
    SpacesBefore(f.spaces, f.Bare() + "," + rest);
    SpacesBefore(f.spaces, f.Bare());
    assert f.Render() + "," + rest == f.spaces + (f.Bare() + "," + rest);
  }

  lemma QuotedRead(body: string, rest: string)
    requires Escaped(body)
    ensures NextToken("\"" + body + "\"" + rest) == Token(body, Some(AfterComma(rest)))
  {
    hide QuoteEnd, SkipSpace, AfterComma;
    var s := "\"" + body + "\"" + rest;
    SpaceStep(s);
    assert s[1..] == body + "\"" + rest;
    EscapedCloses(body, rest);
    assert s[1..1 + |body|] == body && s[2 + |body|..] == rest;
  }

  /** The fields that come back: an empty last one is lost. */
  function Kept(fields: seq<Field>): seq<Field> {
    if |fields| > 0 && fields[|fields| - 1].Render() == "" then fields[..|fields| - 1] else fields
  }

  lemma {:induction false} KeptTail(fields: seq<Field>)
    requires |fields| > 1
    ensures Values(Kept(fields)) == [fields[0].Value()] + Values(Kept(fields[1..]))
  {
    assert fields[1..][|fields| - 2] == fields[|fields| - 1];
    assert Kept(fields)[0] == fields[0] && Kept(fields)[1..] == Kept(fields[1..]);
  }

  /** Reading the tokens of printed fields gives the fields. */
  lemma {:induction false} TokensInvertJoin(fields: seq<Field>)
    requires forall f :: f in fields ==> f.WellFormed()
    ensures ReadAll(Join(fields)) == Tokens(Values(Kept(fields)))
  {
    hide NextToken, ReadAll;
    if |fields| == 0 {
      ReadStep("");
    } else if |fields| == 1 {
      FieldRead(fields[0], "");
      ReadStep(Join(fields));
      ReadStep("");
      assert Values(fields) == [fields[0].Value()];
    } else {
      var f, rest := fields[0], Join(fields[1..]);
      FieldRead(f, rest);
      TokensInvertJoin(fields[1..]);
      ReadStep(f.Render() + "," + rest);
      KeptTail(fields);
    }
  }

  lemma {:induction false} ValuesLength(fields: seq<Field>)
    ensures |Values(fields)| == |fields|
  {
    if |fields| > 0 { ValuesLength(fields[1..]); }
  }

  /** All fields come back exactly when the last one is not printed as nothing. */
  lemma TokensInvertJoinIff(fields: seq<Field>)
    requires forall f :: f in fields ==> f.WellFormed()
    ensures ReadAll(Join(fields)) == Tokens(Values(fields)) <==> |fields| == 0 || fields[|fields| - 1].Render() != ""
  {
    TokensInvertJoin(fields);
    ValuesLength(fields);
    ValuesLength(Kept(fields));
  }

  /** The reading of a response: behind its prefix, the tokens are the fields, each in the line. */
  method ReadResponse(line: array<char>, ghost prefix: string, ghost fields: seq<Field>)
    returns (ok: bool, starts: seq<nat>)
    requires HoldsAt(line[..], 0, prefix + ":" + Join(fields)) && ':' !in prefix
    requires forall f :: f in fields ==> f.WellFormed()
    modifies line
    ensures ok && |starts| == |Kept(fields)|
    ensures forall k :: 0 <= k < |starts| ==> HoldsAt(line[..], starts[k], Kept(fields)[k].Value())
  {
    hide HoldsAt, ReadAll, Join, Kept;
    ghost var s := prefix + ":" + Join(fields);
    FirstColon(prefix, Join(fields));
    var cur := Start(line, 0, s);
    TokensInvertJoin(fields);
    ValuesAre(Kept(fields));
    var beyond;
    ok, beyond, starts := ReadTokens(line, cur.value, Join(fields));
  }

  /** The first colon of a printed response is the one behind its prefix. */
  lemma FirstColon(prefix: string, rest: string)
    requires ':' !in prefix
    ensures var s := prefix + ":" + rest;
      ':' in s && s[|prefix| + 1..] == rest &&
      forall n: nat :: n < |s| && s[n] == ':' && ':' !in s[..n] ==> n == |prefix|
  {
    var s := prefix + ":" + rest;
    assert s[|prefix|] == ':';
    assert forall k :: 0 <= k < |prefix| ==> s[k] == prefix[k] != ':';
    assert forall n :: |prefix| < n <= |s| ==> s[..n][|prefix|] == ':';
  }

  lemma {:induction false} ValuesAre(fields: seq<Field>)
    ensures |Values(fields)| == |fields| && forall k :: 0 <= k < |fields| ==> Values(fields)[k] == fields[k].Value()
  {
    if |fields| > 0 { ValuesAre(fields[1..]); }
  }

  /** Two fields, the second of them empty, come back as one. */
  lemma EmptyLastLost()
    ensures var fields := [Plain("", "1"), Plain("", "")];
      Join(fields) == "1," && ReadAll(Join(fields)) == Tokens(["1"]) && Values(fields) == ["1", ""]
  {
    var fields := [Plain("", "1"), Plain("", "")];
    assert fields[1..] == [Plain("", "")] && Kept(fields) == [Plain("", "1")];
    TokensInvertJoin(fields);
  }

  // ---------------------------------------------------------------- integers

  function DigitsEnd(s: string): (n: nat)
    ensures n <= |s|
  {
    if s != "" && '0' <= s[0] <= '9' then 1 + DigitsEnd(s[1..]) else 0
  }

  function DecimalValue(s: string): nat
    requires DigitsEnd(s) == |s|
  {
    if s == "" then 0
    else
      DigitsInit(s);
      10 * DecimalValue(s[..|s| - 1]) + (s[|s| - 1] as int - '0' as int)
  }

  lemma {:induction false} DigitsInit(s: string)
    requires DigitsEnd(s) == |s| && s != ""
    ensures DigitsEnd(s[..|s| - 1]) == |s| - 1 && '0' <= s[|s| - 1] <= '9'
  {
    if |s| > 1 {
      DigitsInit(s[1..]);
      assert s[..|s| - 1][1..] == s[1..][..|s| - 2];
    }
  }

  lemma {:induction false} DigitsTake(s: string)
    ensures DigitsEnd(s[..DigitsEnd(s)]) == DigitsEnd(s)
  {
    if s != "" && '0' <= s[0] <= '9' {
      DigitsTake(s[1..]);
      assert s[..DigitsEnd(s)][1..] == s[1..][..DigitsEnd(s[1..])];
    }
  }

  /** strtol with base 10 and 32-bit long; None when there are no digits. */
  function Strtol(s: string): Option<int> {
    var t := SkipSpace(s);
    var negative := t != "" && t[0] == '-';
    var u := if negative || (t != "" && t[0] == '+') then t[1..] else t;
    if DigitsEnd(u) == 0 then None
    else
      DigitsTake(u);
      var v: int := DecimalValue(u[..DigitsEnd(u)]);
      Some(if negative then (if v > 0x8000_0000 then -0x8000_0000 else -v)
           else if v > 0x7fff_ffff then 0x7fff_ffff else v)
  }

  // Numbers as a modem prints them.

  function DecimalDigit(d: nat): char
    requires d < 10
  {
    "0123456789"[d]
  }

  function Decimal(n: nat): (s: string)
    ensures |s| > 0
  {
    if n < 10 then [DecimalDigit(n)] else Decimal(n / 10) + [DecimalDigit(n % 10)]
  }

  lemma DigitIs(d: nat)
    requires d < 10
    ensures DecimalDigit(d) as int == '0' as int + d
  {
  }

  lemma {:induction false} DigitsEndJoin(a: string, b: string)
    requires forall i :: 0 <= i < |a| ==> '0' <= a[i] <= '9'
    ensures DigitsEnd(a + b) == |a| + DigitsEnd(b)
  {
    if a != "" {
      DigitsEndJoin(a[1..], b);
      assert (a + b)[1..] == a[1..] + b;
    } else {
      assert a + b == b;
    }
  }

  lemma {:induction false} DecimalRead(n: nat)
    ensures forall i :: 0 <= i < |Decimal(n)| ==> '0' <= Decimal(n)[i] <= '9'
    ensures DigitsEnd(Decimal(n)) == |Decimal(n)| && DecimalValue(Decimal(n)) == n
  {
    hide DecimalDigit;
    DigitIs(n % 10);
    var s, last := Decimal(n), [DecimalDigit(n % 10)];
    if n < 10 {
      assert s == last && s[..0] == "" && s[1..] == "";
      assert DecimalValue("") == 0;
    } else {
      DecimalRead(n / 10);
      assert s[..|s| - 1] == Decimal(n / 10);
      DigitsEndJoin(s, "");
      assert s + "" == s;
    }
  }

  /** What a number of any size and sign is read as: itself, or the nearest int. */
  function Clamped(negative: bool, n: nat): int {
    var v: int := n;
    if negative then (if v > 0x8000_0000 then -0x8000_0000 else -v) else if v > 0x7fff_ffff then 0x7fff_ffff else v
  }

  /** strtol reads any printed number, behind spaces and a sign, up to what is no digit. */
  lemma StrtolReads(spaces: string, sign: string, n: nat, rest: string)
    requires AllSpaces(spaces) && (sign == "" || sign == "-" || sign == "+")
    requires rest == "" || !('0' <= rest[0] <= '9')
    ensures Strtol(spaces + sign + Decimal(n) + rest) == Some(Clamped(sign == "-", n))
  {
    hide Decimal, SkipSpace, DecimalValue;
    DecimalRead(n);
    var number := Decimal(n) + rest;
    var signed := sign + number;
    assert spaces + sign + Decimal(n) + rest == spaces + signed;
    SpacesSkipped(spaces, signed);
    assert signed[0] == if sign == "" then Decimal(n)[0] else sign[0];
    SpaceStep(signed);
    assert sign != "" ==> signed[1..] == number;
    assert sign == "" ==> signed == number;
    DigitsEndJoin(Decimal(n), rest);
    assert DigitsEnd(rest) == 0;
    assert number[..|Decimal(n)|] == Decimal(n);
  }

  /** at_tok_nextint: the integer of the next token. */
  function NextInt(s: string): Option<int> {
    match NextToken(s) case Token(text, _) => Strtol(text) case other => None
  }

  /** at_tok_nextint reads a printed integer, behind spaces. */
  lemma NextIntReads(spaces: string, sign: string, n: nat)
    requires AllSpaces(spaces) && (sign == "" || sign == "-" || sign == "+")
    ensures NextInt(spaces + sign + Decimal(n)) == Some(Clamped(sign == "-", n))
  {
    hide Strtol, Decimal, NextToken;
    DecimalRead(n);
    var f := Plain(spaces, sign + Decimal(n));
    assert f.text[0] == if sign == "" then Decimal(n)[0] else sign[0];
    FieldRead(f, "");
    assert f.Render() == spaces + sign + Decimal(n);
    StrtolReads("", sign, n, "");
    assert "" + sign + Decimal(n) + "" == f.text;
  }
}
