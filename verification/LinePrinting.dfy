/**
  Reading printed lines: whatever lines a modem sends, with line ends of any kind and number around them,
  readline returns these lines, however the stream is cut.
 */
module LinePrinting {
  import opened LineReaders
  import opened LineFraming

  predicate AllEnds(s: string) { forall i :: 0 <= i < |s| ==> s[i] == '\r' || s[i] == '\n' }

  /** A line as it is sent, behind any line ends and in front of one. */
  datatype Printed = Printed(before: string, line: string, end: char) {
    predicate Valid() {
      AllEnds(before) && line != "" && '\r' !in line && '\n' !in line && (end == '\r' || end == '\n')
    }

    function Text(): string { before + line + [end] }
  }

  predicate AllValid(lines: seq<Printed>) { forall k :: 0 <= k < |lines| ==> lines[k].Valid() }

  /** The lines, and what is behind them: line ends, or a prompt. */
  function Print(lines: seq<Printed>, tail: string): string {
    if |lines| == 0 then tail else lines[0].Text() + Print(lines[1..], tail)
  }

  /** The lines that should come out. */
  function Sent(lines: seq<Printed>, tail: string): seq<string> {
    if |lines| == 0 then if tail == "> " then ["> "] else [] else [lines[0].line] + Sent(lines[1..], tail)
  }

  predicate IsTail(tail: string) { AllEnds(tail) || tail == "> " }

  // ---------------------------------------------------------------- one line

  lemma {:induction false} EndsSkipped(ends: string, rest: string)
    requires AllEnds(ends)
    ensures Skip(ends + rest) == Skip(rest)
  {
    if ends == "" {
      assert ends + rest == rest;
    } else {
      EndsSkipped(ends[1..], rest);
      assert (ends + rest)[1..] == ends[1..] + rest;
    }
  }

  /** What readline sees of a printed line. */
  lemma LineSeen(p: Printed, rest: string)
    requires p.Valid()
    ensures var u := p.Text() + rest; var s := p.line + [p.end] + rest;
      Skip(u) == s && Skip(s) == s && LineLen(s) == |p.line| < |s| &&
      s[..|p.line|] == p.line && s[|p.line| + 1..] == rest && s[|p.line|..] == [p.end] + rest
  {
    hide Skip, LineLen;
    var u, s := p.Text() + rest, p.line + [p.end] + rest;
    assert u == p.before + s;
    EndsSkipped(p.before, s);
    assert s[0] == p.line[0] && p.line[0] in p.line;
    SkipNone(s);
    forall i | 0 <= i < |p.line|
      ensures !IsEol(s[i])
    {
      assert s[i] == p.line[i] && p.line[i] in p.line;
    }
    assert s[|p.line|] == p.end;
    LineLenIs(s, |p.line|);
  }

  lemma LineTaken(p: Printed, rest: string)
    requires p.Valid()
    ensures AllLines(p.Text() + rest) == [p.line] + AllLines(rest)
    ensures Unambiguous(p.Text() + rest) <==> !("> " < p.line) && Unambiguous(rest)
  {
    hide Skip, LineLen, AllLines, Unambiguous;
    LineSeen(p, rest);
    var u, s := p.Text() + rest, p.line + [p.end] + rest;
    SameLines(u, s);
    LinesStep(s);
  }

  // ---------------------------------------------------------------- all lines

  lemma TailRead(tail: string)
    requires IsTail(tail)
    ensures AllLines(tail) == Sent([], tail) && Unambiguous(tail)
  {
    if tail == "> " {
      PromptLen();
      SkipNone(tail);
    } else {
      EndsSkipped(tail, "");
      assert tail + "" == tail;
    }
  }

  /** The lines of a stream are those that were printed. */
  lemma {:induction false} LinesRead(lines: seq<Printed>, tail: string)
    requires AllValid(lines) && IsTail(tail)
    ensures AllLines(Print(lines, tail)) == Sent(lines, tail)
    ensures Unambiguous(Print(lines, tail)) <==> forall k :: 0 <= k < |lines| ==> !("> " < lines[k].line)
  {
    hide AllLines, Unambiguous;
    if |lines| == 0 {
      TailRead(tail);
    } else {
      LinesRead(lines[1..], tail);
      LineTaken(lines[0], Print(lines[1..], tail));
    }
  }

  /** Each line, with the line ends before it, fits the buffer. */
  predicate Fit(lines: seq<Printed>, tail: string) {
    (forall k :: 0 <= k < |lines| ==> |lines[k].before| + |lines[k].line| + 3 < MAX_AT_RESPONSE) &&
    |tail| + 3 < MAX_AT_RESPONSE
  }

  lemma TailShort(tail: string, ends: string)
    requires IsTail(tail) && |tail| + 3 < MAX_AT_RESPONSE && AllEnds(ends) && |ends| <= 1
    ensures ShortFrom(ends + tail, 0)
  {
    EndsSkipped(ends, tail);
    if tail == "> " {
      PromptLen();
      SkipNone(tail);
    } else {
      EndsSkipped(tail, "");
      assert tail + "" == tail;
    }
  }

  lemma {:induction false} PrintedShort(lines: seq<Printed>, tail: string, ends: string)
    requires AllValid(lines) && IsTail(tail) && Fit(lines, tail) && AllEnds(ends) && |ends| <= 1
    ensures ShortFrom(ends + Print(lines, tail), 0)
  {
    hide Skip, LineLen;
    if |lines| == 0 {
      TailShort(tail, ends);
    } else {
      var p, rest := lines[0], Print(lines[1..], tail);
      LineSeen(p, rest);
      EndsSkipped(ends, p.Text() + rest);
      PrintedShort(lines[1..], tail, [p.end]);
      OneShort(ends + (p.Text() + rest), p.line + [p.end] + rest, |p.line|);
    }
  }

  lemma OneShort(u: string, s: string, n: nat)
    requires Skip(u) == s && LineLen(s) == n < |s| && |s| <= |u| && |u| - |s| + n + 2 < MAX_AT_RESPONSE
    requires ShortFrom(s[n..], 0)
    ensures ShortFrom(u, 0)
  {
    hide Skip, LineLen;
    SkipIs(u);
    LineStart(s);
  }

  /** However the stream is cut, a run that has read all of it has returned the lines that were sent, if
      each fits the buffer and none goes on after "> ". */
  lemma PrintedDelivered(lines: seq<Printed>, tail: string, events: seq<Event>)
    requires AllValid(lines) && IsTail(tail) && Fit(lines, tail)
    requires forall k :: 0 <= k < |lines| ==> !("> " < lines[k].line)
    requires ReadAll("", Print(lines, tail), events).rest == ""
    ensures ReadAll("", Print(lines, tail), events).lines == Sent(lines, tail)
  {
    hide Delivers, Unambiguous, ReadAll, ShortFrom, AllLines;
    var stream := Print(lines, tail);
    LinesRead(lines, tail);
    PrintedShort(lines, tail, "");
    assert "" + stream == stream;
    NoOverflow("", stream, events);
    FramingIndependent(stream, events);
    NothingLeft(stream, events);
  }
}
