/**
  What the AT channel does with each line (processLine in huawei-generic/atchannel.c): final
  responses, the SMS prompt, intermediate responses, and everything else.
 */
module AtLines {
  import LineReaders
  import opened Options

  // ---------------------------------------------------------------- prefixes

  /** strStartsWith (huawei-generic/misc.c) */
  method StrStartsWith(line: string, prefix: string) returns (r: bool)
    ensures r <==> prefix <= line
  {
    var i := 0;
    while i < |line| && i < |prefix|
      invariant 0 <= i <= |line| && i <= |prefix| && prefix[..i] == line[..i]
    {
      if line[i] != prefix[i] { return false; }
      i := i + 1;
    }
    return i == |prefix|;
  }

  predicate StartsWithAny(line: string, table: seq<string>) {
    exists i :: 0 <= i < |table| && table[i] <= line
  }

  /** The loops of isFinalResponseError, isFinalResponseSuccess and isSMSUnsolicited. */
  method FindPrefix(line: string, table: seq<string>) returns (r: bool)
    ensures r <==> StartsWithAny(line, table)
  {
    var i := 0;
    while i < |table|
      invariant 0 <= i <= |table| && forall k :: 0 <= k < i ==> !(table[k] <= line)
    {
      r := StrStartsWith(line, table[i]);
      if r { return; }
      i := i + 1;
    }
    return false;
  }

  /** Annex B of 3GPP TS 27.007. */
  const FINAL_ERRORS: seq<string> := ["ERROR", "+CMS ERROR:", "+CME ERROR:", "NO CARRIER", "NO ANSWER", "NO DIALTONE"]
  const FINAL_SUCCESSES: seq<string> := ["OK", "CONNECT"]
  const SMS_UNSOLICITED: seq<string> := ["+CMT:", "+CDS:", "+CBM:"]

  predicate IsSuccess(line: string) { StartsWithAny(line, FINAL_SUCCESSES) }

  predicate IsFinal(line: string) { IsSuccess(line) || StartsWithAny(line, FINAL_ERRORS) }

  /** The final responses, spelled out. */
  lemma FinalIff(line: string)
    ensures IsSuccess(line) <==> "OK" <= line || "CONNECT" <= line
    ensures IsFinal(line) <==>
      IsSuccess(line) || "ERROR" <= line || "+CMS ERROR:" <= line || "+CME ERROR:" <= line ||
      "NO CARRIER" <= line || "NO ANSWER" <= line || "NO DIALTONE" <= line
  {
    assert FINAL_SUCCESSES[0] == "OK" && FINAL_SUCCESSES[1] == "CONNECT";
    assert FINAL_ERRORS[0] == "ERROR" && FINAL_ERRORS[1] == "+CMS ERROR:" && FINAL_ERRORS[2] == "+CME ERROR:";
    assert FINAL_ERRORS[3] == "NO CARRIER" && FINAL_ERRORS[4] == "NO ANSWER" && FINAL_ERRORS[5] == "NO DIALTONE";
  }

  // ---------------------------------------------------------------- one line

  datatype CommandType = NoResult | Numeric | SingleLine | MultiLine

  /** A pending response: what was asked, the text that waits for a prompt, and what has come in, in
      the order it came. */
  datatype Pending = Pending(
    kind: CommandType, prefix: string, pdu: Option<string>,
    success: bool, final: Option<string>, intermediates: seq<string>)

  function NewPending(kind: CommandType, prefix: string, pdu: Option<string>): Pending {
    Pending(kind, prefix, pdu, false, None, [])
  }

  /** Where a line goes. */
  datatype Target = Final | Prompt | Intermediate | Unsolicited

  predicate Expected(kind: CommandType, prefix: string, line: string) {
    match kind
    case NoResult => false
    case Numeric => line != "" && '0' <= line[0] <= '9'
    case SingleLine => prefix <= line
    case MultiLine => prefix <= line
  }

  function Classify(p: Pending, line: string): Target {
    if IsFinal(line) then Final
    else if p.pdu.Some? && line == LineReaders.PROMPT then Prompt
    else if Expected(p.kind, p.prefix, line) && (p.kind == MultiLine || p.intermediates == []) then Intermediate
    else Unsolicited
  }

  function Absorb(p: Pending, line: string): Pending {
    match Classify(p, line)
    case Final => p.(success := IsSuccess(line), final := Some(line))
    case Prompt => p.(pdu := None)
    case Intermediate => p.(intermediates := p.intermediates + [line])
    case Unsolicited => p
  }

  /** After all the lines that came in while it was pending. */
  function AbsorbAll(p: Pending, window: seq<string>): Pending {
    if |window| == 0 then p else Absorb(AbsorbAll(p, window[..|window| - 1]), window[|window| - 1])
  }

  /** The lines of the window that went to `t`, in order. */
  function Went(p: Pending, window: seq<string>, t: Target): seq<string> {
    if |window| == 0 then []
    else
      var before, line := window[..|window| - 1], window[|window| - 1];
      Went(p, before, t) + if Classify(AbsorbAll(p, before), line) == t then [line] else []
  }

  // ---------------------------------------------------------------- conservation

  /** The lines that satisfy a condition on the line alone. */
  function Filter(f: string -> bool, lines: seq<string>): seq<string> {
    if |lines| == 0 then []
    else Filter(f, lines[..|lines| - 1]) + if f(lines[|lines| - 1]) then [lines[|lines| - 1]] else []
  }

  function First(lines: seq<string>): seq<string> { if |lines| == 0 then [] else [lines[0]] }

  function Last(lines: seq<string>): Option<string> {
    if |lines| == 0 then None else Some(lines[|lines| - 1])
  }

  lemma WentStep(p: Pending, before: seq<string>, line: string, t: Target)
    ensures Went(p, before + [line], t) ==
      Went(p, before, t) + if Classify(AbsorbAll(p, before), line) == t then [line] else []
  {
    assert (before + [line])[..|before|] == before;
  }

  lemma AbsorbStep(p: Pending, before: seq<string>, line: string)
    ensures AbsorbAll(p, before + [line]) == Absorb(AbsorbAll(p, before), line)
  {
    assert (before + [line])[..|before|] == before;
  }

  lemma OneMore<T>(a: seq<T>, x: T)
    ensures multiset(a + [x]) == multiset(a) + multiset{x} && multiset(a + []) == multiset(a)
  {
    assert a + [] == a;
  }

  lemma WentMore(p: Pending, before: seq<string>, line: string, t: Target)
    ensures multiset(Went(p, before + [line], t)) ==
      if Classify(AbsorbAll(p, before), line) == t then multiset(Went(p, before, t)) + multiset{line}
      else multiset(Went(p, before, t))
  {
    hide Classify, AbsorbAll, Went;
    WentStep(p, before, line, t);
    OneMore(Went(p, before, t), line);
  }

  lemma AddToOne<T>(a: multiset<T>, b: multiset<T>, c: multiset<T>, d: multiset<T>, x: multiset<T>)
    ensures a + b + c + d + x == (a + x) + b + c + d == a + (b + x) + c + d
    ensures a + b + c + d + x == a + b + (c + x) + d == a + b + c + (d + x)
  {
  }

  /** No line goes to two places, or to none. */
  lemma {:induction false} OnePlace(p: Pending, window: seq<string>)
    ensures multiset(window) == multiset(Went(p, window, Final)) + multiset(Went(p, window, Prompt)) +
      multiset(Went(p, window, Intermediate)) + multiset(Went(p, window, Unsolicited))
  {
    if |window| > 0 {
      hide Classify, AbsorbAll, Went;
      var before, line := window[..|window| - 1], window[|window| - 1];
      assert window == before + [line];
      OnePlace(p, before);
      OneMore(before, line);
      WentMore(p, before, line, Final);
      WentMore(p, before, line, Prompt);
      WentMore(p, before, line, Intermediate);
      WentMore(p, before, line, Unsolicited);
      AddToOne(multiset(Went(p, before, Final)), multiset(Went(p, before, Prompt)),
               multiset(Went(p, before, Intermediate)), multiset(Went(p, before, Unsolicited)), multiset{line});
    } else {
      assert window == [];
    }
  }

  /** What a response holds is what went to it: the intermediate responses in order, the last of the
      final ones, and at most one prompt, for which the text was used up. */
  lemma {:induction false} HoldsWhatWent(p: Pending, window: seq<string>)
    ensures var q := AbsorbAll(p, window);
      var finals := Went(p, window, Final);
      q.intermediates == p.intermediates + Went(p, window, Intermediate) &&
      q.final == (if finals == [] then p.final else Last(finals)) &&
      q.success == (if finals == [] then p.success else IsSuccess(finals[|finals| - 1])) &&
      Went(p, window, Prompt) == if p.pdu.Some? && q.pdu.None? then [LineReaders.PROMPT] else []
  {
    hide AbsorbAll, Went, IsFinal, IsSuccess, Expected;
    if |window| > 0 {
      var before, line := window[..|window| - 1], window[|window| - 1];
      assert window == before + [line];
      HoldsWhatWent(p, before);
      AbsorbStep(p, before, line);
      NoTextBack(p, before);
      WentStep(p, before, line, Final);
      WentStep(p, before, line, Prompt);
      WentStep(p, before, line, Intermediate);
    } else {
      NothingWent(p, window);
    }
  }

  lemma NothingWent(p: Pending, window: seq<string>)
    requires |window| == 0
    ensures AbsorbAll(p, window) == p && forall t: Target :: Went(p, window, t) == []
  {
  }

  lemma {:induction false} NoTextBack(p: Pending, window: seq<string>)
    ensures AbsorbAll(p, window).pdu == p.pdu || AbsorbAll(p, window).pdu == None
  {
    hide Classify;
    if |window| > 0 { NoTextBack(p, window[..|window| - 1]); }
  }

  /** Line conservation for one command: the lines of its window are the final ones, of which the last
      is kept, the prompt that the text was sent for, the intermediate responses, and those that go to
      the unsolicited handler. */
  lemma LinesConserved(kind: CommandType, prefix: string, pdu: Option<string>, window: seq<string>)
    ensures var p := NewPending(kind, prefix, pdu);
      var q := AbsorbAll(p, window);
      var finals := Went(p, window, Final);
      q.final == Last(finals) &&
      multiset(window) ==
        multiset(finals) + multiset(if pdu.Some? && q.pdu.None? then [LineReaders.PROMPT] else []) +
        multiset(q.intermediates) + multiset(Went(p, window, Unsolicited))
  {
    hide AbsorbAll, Went;
    var p := NewPending(kind, prefix, pdu);
    OnePlace(p, window);
    HoldsWhatWent(p, window);
  }

  /** The lines that an intermediate response can be. */
  function Matching(kind: CommandType, prefix: string): string -> bool {
    line => !IsFinal(line) && Expected(kind, prefix, line)
  }

  /** The window without its first prompt. */
  function Unprompted(window: seq<string>): seq<string> {
    if |window| == 0 then []
    else
      var before, line := window[..|window| - 1], window[|window| - 1];
      if line == LineReaders.PROMPT && LineReaders.PROMPT !in before then before else Unprompted(before) + [line]
  }

  /** The window that counts for intermediate responses. */
  function Counted(pdu: Option<string>, window: seq<string>): seq<string> {
    if pdu.Some? then Unprompted(window) else window
  }

  lemma FilterStep(f: string -> bool, before: seq<string>, line: string)
    ensures Filter(f, before + [line]) == Filter(f, before) + if f(line) then [line] else []
  {
    assert (before + [line])[..|before|] == before;
  }

  /** The last final response decides. */
  lemma {:induction false} LastFinal(kind: CommandType, prefix: string, pdu: Option<string>, window: seq<string>)
    ensures var p := AbsorbAll(NewPending(kind, prefix, pdu), window);
      p.kind == kind && p.prefix == prefix && p.final == Last(Filter(IsFinal, window)) &&
      p.success == (p.final.Some? && IsSuccess(p.final.value))
  {
    if |window| > 0 {
      hide IsFinal, IsSuccess, Expected, AbsorbAll, Filter;
      var before, line := window[..|window| - 1], window[|window| - 1];
      assert window == before + [line];
      LastFinal(kind, prefix, pdu, before);
      FilterStep(IsFinal, before, line);
      AbsorbStep(NewPending(kind, prefix, pdu), before, line);
    }
  }

  /** A text is sent for the first prompt, and for no other. */
  lemma {:induction false} Prompted(p: Pending, window: seq<string>)
    ensures AbsorbAll(p, window).pdu == if p.pdu.Some? && LineReaders.PROMPT !in window then p.pdu else None
  {
    if |window| > 0 {
      hide IsSuccess, Expected, AbsorbAll, IsFinal;
      var before, line := window[..|window| - 1], window[|window| - 1];
      assert window == before + [line];
      Prompted(p, before);
      PromptIsNotFinal();
      AbsorbStep(p, before, line);
    }
  }

  /** All lines that match, not counting the prompt that a text is sent for. */
  function AllMatches(kind: CommandType, prefix: string, pdu: Option<string>, window: seq<string>): seq<string> {
    Filter(Matching(kind, prefix), Counted(pdu, window))
  }

  lemma AllMatchesStep(kind: CommandType, prefix: string, pdu: Option<string>, before: seq<string>, line: string)
    ensures var isPrompt := pdu.Some? && line == LineReaders.PROMPT && LineReaders.PROMPT !in before;
      AllMatches(kind, prefix, pdu, before + [line]) ==
        AllMatches(kind, prefix, pdu, before) + if Matching(kind, prefix)(line) && !isPrompt then [line] else []
  {
    hide Filter, Unprompted, Matching;
    NoPrompt(before);
    UnpromptedStep(before, line);
    FilterStep(Matching(kind, prefix), Counted(pdu, before), line);
  }

  /** The intermediate responses are all matches of a multi-line command, and at most the first match
      of the others. */
  lemma {:induction false} IntermediatesAre(kind: CommandType, prefix: string, pdu: Option<string>, window: seq<string>)
    ensures var matches := AllMatches(kind, prefix, pdu, window);
      AbsorbAll(NewPending(kind, prefix, pdu), window).intermediates ==
        if kind == MultiLine then matches else First(matches)
  {
    hide Absorb, AbsorbAll, AllMatches, Matching;
    if |window| > 0 {
      var before, line := window[..|window| - 1], window[|window| - 1];
      assert window == before + [line];
      var p := NewPending(kind, prefix, pdu);
      IntermediatesAre(kind, prefix, pdu, before);
      LastFinal(kind, prefix, pdu, before);
      Prompted(p, before);
      AbsorbStep(p, before, line);
      IntermediateStep(AbsorbAll(p, before), line);
      AllMatchesStep(kind, prefix, pdu, before, line);
    } else {
      NothingYet(kind, prefix, pdu);
      assert window == [];
    }
  }

  // ---------------------------------------------------------------- by the type of the command

  /** A line that is no final response and starts with the prefix. */
  function StartsWith(prefix: string): string -> bool { line => prefix <= line && !IsFinal(line) }

  /** A line that is no final response and starts with a digit. */
  function StartsWithDigit(): string -> bool {
    line => |line| > 0 && line[0] in "0123456789" && !IsFinal(line)
  }

  lemma {:induction false} SameFilter(f: string -> bool, g: string -> bool, lines: seq<string>)
    requires forall line :: f(line) == g(line)
    ensures Filter(f, lines) == Filter(g, lines)
  {
    if |lines| > 0 { SameFilter(f, g, lines[..|lines| - 1]); }
  }

  lemma {:induction false} NonePass(f: string -> bool, lines: seq<string>)
    requires forall line :: !f(line)
    ensures Filter(f, lines) == []
  {
    if |lines| > 0 { NonePass(f, lines[..|lines| - 1]); }
  }

  lemma {:induction false} OnlyPassing(f: string -> bool, lines: seq<string>)
    ensures forall k :: 0 <= k < |Filter(f, lines)| ==> f(Filter(f, lines)[k]) && Filter(f, lines)[k] in lines
  {
    if |lines| > 0 {
      var init := lines[..|lines| - 1];
      OnlyPassing(f, init);
      forall k | 0 <= k < |Filter(f, lines)|
        ensures f(Filter(f, lines)[k]) && Filter(f, lines)[k] in lines
      {
        if k < |Filter(f, init)| { assert Filter(f, lines)[k] == Filter(f, init)[k] && Filter(f, init)[k] in init; }
      }
    }
  }

  /** What a response holds after the lines of a window, for each type of command: a command without
      result none; a numeric one the first line that starts with a digit; a single-line one the first
      that starts with its prefix; a multi-line one all that do.  Final responses are never held, nor is
      the prompt that a text was sent for. */
  lemma LinesHeld(kind: CommandType, prefix: string, pdu: Option<string>, window: seq<string>)
    ensures var held := AbsorbAll(NewPending(kind, prefix, pdu), window).intermediates;
      var lines := Counted(pdu, window);
      held ==
        match kind
        case NoResult => []
        case Numeric => First(Filter(StartsWithDigit(), lines))
        case SingleLine => First(Filter(StartsWith(prefix), lines))
        case MultiLine => Filter(StartsWith(prefix), lines)
  {
    hide AbsorbAll, Filter, IsFinal, Counted;
    IntermediatesAre(kind, prefix, pdu, window);
    var lines := Counted(pdu, window);
    match kind {
      case NoResult => NonePass(Matching(kind, prefix), lines);
      case Numeric => SameFilter(Matching(kind, prefix), StartsWithDigit(), lines);
      case SingleLine => SameFilter(Matching(kind, prefix), StartsWith(prefix), lines);
      case MultiLine => SameFilter(Matching(kind, prefix), StartsWith(prefix), lines);
    }
  }

  /** So an answer to one command is not taken for that to another. */
  lemma OtherAnswerIsUnsolicited()
    ensures var p := NewPending(SingleLine, "+CSQ:", None); var window := ["+CREG: 1", "+CSQ: 20,99", "OK"];
      AbsorbAll(p, window).intermediates == ["+CSQ: 20,99"] && AbsorbAll(p, window).success
  {
    var p := NewPending(SingleLine, "+CSQ:", None);
    var a, b, c := "+CREG: 1", "+CSQ: 20,99", "OK";
    KindOf(a);
    KindOf(b);
    assert IsSuccess(c) by { assert FINAL_SUCCESSES[0] <= c; }
    assert "+CSQ:" <= b && !("+CSQ:" <= a) by { assert a[2] == 'R' && b[2] == 'S'; }
    hide IsFinal, IsSuccess;
    AbsorbStep(p, [a, b], c);
    AbsorbStep(p, [a], b);
    AbsorbStep(p, [], a);
    NothingWent(p, []);
    assert [a, b] == [a] + [b] && [a, b, c] == [a, b] + [c] && [a] == [] + [a];
    FinalWhenSuccess(c);
  }

  lemma FinalWhenSuccess(line: string)
    requires IsSuccess(line)
    ensures IsFinal(line)
  {
  }

  /** A line that starts with '+' and no 'M' as its third character is not final. */
  lemma KindOf(line: string)
    requires |line| > 2 && line[0] == '+' && line[2] != 'M'
    ensures !IsFinal(line)
  {
    forall table: seq<string>, i | 0 <= i < |table| && |table[i]| > 2 && (table[i][0] != '+' || table[i][2] == 'M')
      ensures !(table[i] <= line)
    {
    }
    assert FINAL_SUCCESSES[0][0] == 'O' && FINAL_SUCCESSES[1][0] == 'C';
    assert !(FINAL_SUCCESSES[0] <= line);
  }

  lemma NothingYet(kind: CommandType, prefix: string, pdu: Option<string>)
    ensures AbsorbAll(NewPending(kind, prefix, pdu), []).intermediates == [] == AllMatches(kind, prefix, pdu, [])
  {
  }

  lemma IntermediateStep(p: Pending, line: string)
    ensures var isPrompt := p.pdu.Some? && line == LineReaders.PROMPT;
      Absorb(p, line).intermediates ==
        if Matching(p.kind, p.prefix)(line) && !isPrompt && (p.kind == MultiLine || p.intermediates == [])
        then p.intermediates + [line] else p.intermediates
  {
    hide IsFinal, IsSuccess, Expected;
  }

  lemma UnpromptedStep(before: seq<string>, line: string)
    ensures Unprompted(before + [line]) ==
      if line == LineReaders.PROMPT && LineReaders.PROMPT !in before then before else Unprompted(before) + [line]
  {
    assert (before + [line])[..|before|] == before;
  }

  lemma {:induction false} NoPrompt(window: seq<string>)
    ensures LineReaders.PROMPT !in window ==> Unprompted(window) == window
  {
    if |window| > 0 {
      NoPrompt(window[..|window| - 1]);
      assert window == window[..|window| - 1] + [window[|window| - 1]];
    }
  }

  lemma PromptIsNotFinal()
    ensures !IsFinal(LineReaders.PROMPT)
  {
    assert LineReaders.PROMPT[0] == '>';
    forall table: seq<string>, i | 0 <= i < |table| && |table[i]| > 0 && table[i][0] != '>'
      ensures !(table[i] <= LineReaders.PROMPT)
    {
    }
  }
}
