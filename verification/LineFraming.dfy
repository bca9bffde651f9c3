/**
  Framing does not depend on how read() cuts the stream: the lines that readline returns are the
  non-empty runs between line ends, exactly when no line goes on after "> ".
 */
module LineFraming {
  import opened Options
  import opened LineReaders

  // ---------------------------------------------------------------- the lines of a stream

  /** All lines: the terminated ones, and a prompt at the very end. */
  function AllLines(u: string): seq<string>
    decreases |u|
  {
    SkipIs(u);
    var s := Skip(u);
    var n := LineLen(s);
    if n < |s| then [s[..n]] + AllLines(s[n + 1..])
    else if s == PROMPT then [s] else []
  }

  /** The first line, terminated or not, is not a longer one that begins like a prompt. */
  predicate FirstClear(u: string) {
    !(PROMPT < Skip(u)[..LineLen(Skip(u))])
  }

  /** No line goes on after "> ". */
  predicate Unambiguous(u: string)
    decreases |u|
  {
    SkipIs(u);
    var s := Skip(u);
    var n := LineLen(s);
    FirstClear(u) && (n < |s| ==> Unambiguous(s[n + 1..]))
  }

  /** Line ends, with `extra` bytes before them, and the line behind them fit the buffer, and so on. */
  predicate ShortFrom(u: string, extra: nat)
    decreases |u|
  {
    SkipIs(u);
    var s := Skip(u);
    var n := LineLen(s);
    extra + (|u| - |s|) + n + 2 < MAX_AT_RESPONSE && 
    (n < |s| ==> (LineStart(s); ShortFrom(s[n..], 0)))
  }

  predicate Short(u: string) { ShortFrom(u, 0) }

  lemma LineStart(s: string)
    requires s != "" && !IsEol(s[0])
    ensures LineLen(s) > 0
  {
  }

  // ---------------------------------------------------------------- text in two parts

  lemma {:induction false} SkipConcat(a: string, b: string)
    ensures Skip(a + b) == if Skip(a) == "" then Skip(b) else Skip(a) + b
  {
    if a == "" {
      assert a + b == b;
    } else if IsEol(a[0]) {
      assert (a + b)[1..] == a[1..] + b;
      SkipConcat(a[1..], b);
    }
  }

  lemma {:induction false} LineLenConcat(a: string, b: string)
    ensures LineLen(a + b) == if LineLen(a) < |a| then LineLen(a) else |a| + LineLen(b)
  {
    if a == "" {
      assert a + b == b;
    } else if !IsEol(a[0]) {
      assert (a + b)[1..] == a[1..] + b;
      LineLenConcat(a[1..], b);
    }
  }

  lemma {:induction false} AtLineLen(s: string)
    ensures LineLen(s) < |s| ==> IsEol(s[LineLen(s)])
  {
    if s != "" && !IsEol(s[0]) { AtLineLen(s[1..]); }
  }

  /** Only what is behind the leading line ends matters. */
  lemma SameLines(u: string, v: string)
    requires Skip(u) == Skip(v)
    ensures AllLines(u) == AllLines(v) && Unambiguous(u) == Unambiguous(v) && FirstClear(u) == FirstClear(v)
  {
    SkipIs(u);
    SkipIs(v);
  }

  lemma SkipNone(u: string)
    requires u == "" || !IsEol(u[0])
    ensures Skip(u) == u
  {
  }

  // ---------------------------------------------------------------- one call

  /** The call takes the first line of `u`, or no line, and leaves the rest. */
  ghost predicate Frames(r: Reading, u: string) {
    var v := r.data + r.rest;
    (Unambiguous(v) <==> Unambiguous(u)) &&
    if r.line.Some? then |v| < |u| && AllLines(u) == [r.line.value] + AllLines(v)
    else |v| <= |u| && AllLines(u) == AllLines(v) && FirstClear(u) == FirstClear(v)
  }

  lemma TakenFrames(m: string, rest: string, events: seq<Event>)
    requires m != "" && !IsEol(m[0]) && FindEol(m).Some? && FirstClear(m + rest)
    ensures Frames(Taken(m, rest, events), m + rest)
  {
    hide Skip, AllLines, Unambiguous, LineLen;
    var u := m + rest;
    SkipNone(u);
    LineLenConcat(m, rest);
    if m == PROMPT {
      PromptAlone(rest);
      PromptTaken(rest);
      assert m[..2] == m && "" + rest == rest;
    } else {
      var n := LineLen(m);
      assert u[..n] == m[..n] && u[n + 1..] == m[n + 1..] + rest;
      LinesStep(u);
    }
  }

  lemma PromptLen()
    ensures LineLen(PROMPT) == 2
  {
    assert PROMPT[1..] == " " && PROMPT[1..][1..] == "";
  }

  lemma GoesOn(rest: string)
    requires LineLen(rest) > 0
    ensures !FirstClear(PROMPT + rest)
  {
    hide LineLen;
    PromptLen();
    SkipNone(PROMPT + rest);
    LineLenConcat(PROMPT, rest);
  }

  lemma PromptAlone(rest: string)
    requires FirstClear(PROMPT + rest)
    ensures LineLen(rest) == 0
  {
    hide FirstClear, LineLen;
    if LineLen(rest) > 0 { GoesOn(rest); }
  }

  lemma LinesStep(u: string)
    requires Skip(u) == u && LineLen(u) < |u|
    ensures var n := LineLen(u);
      AllLines(u) == [u[..n]] + AllLines(u[n + 1..]) && (Unambiguous(u) <==> FirstClear(u) && Unambiguous(u[n + 1..]))
  {
    hide Skip, LineLen, FirstClear;
  }

  lemma PromptTaken(rest: string)
    requires LineLen(rest) == 0 && FirstClear(PROMPT + rest)
    ensures AllLines(PROMPT + rest) == [PROMPT] + AllLines(rest)
    ensures Unambiguous(PROMPT + rest) <==> Unambiguous(rest)
  {
    var u := PROMPT + rest;
    SkipNone(u);
    LineLenConcat(PROMPT, rest);
    PromptLen();
    if rest != "" {
      assert u[..2] == PROMPT && u[3..] == rest[1..];
      SameLines(rest, rest[1..]);
    } else {
      assert u == PROMPT;
    }
  }

  /** Reading more behind a partial line moves the boundary between read and unread bytes only. */
  lemma MoreRead(data: string, rest: string, k: nat)
    requires k <= |rest|
    ensures var more := Skip(data + rest[..k]); Skip(more + rest[k..]) == Skip(data + rest)
  {
    var mid := data + rest[..k];
    assert data + rest == mid + rest[k..];
    SkipConcat(mid, rest[k..]);
    SkipIs(mid);
    SkipConcat(Skip(mid), rest[k..]);
  }

  lemma {:induction false} FillFrames(data: string, off: nat, rest: string, events: seq<Event>)
    requires Skip(data) == data && FindEol(data).None? && FirstClear(data + rest)
    ensures var r := Fill(data, off, rest, events); !r.ditched ==> Frames(r, data + rest)
    decreases |events|
  {
    hide FirstClear, Skip, FindEol, Frames, AllLines, Unambiguous;
    FillStep(data, off, rest, events);
    var over := off + 2 >= MAX_AT_RESPONSE;
    var off0 := if over then 0 else off;
    if over && data != "" {
    } else if |events| == 0 || events[0].Fail? {
      Nothing(data, rest, events);
    } else if events[0].Wake? {
      FillFrames(data, off0, rest, events[1..]);
    } else {
      var k := ReadCount(events[0].size, off0, |rest|);
      if k == 0 {
        Nothing(data, rest, events);
      } else {
        TurnFrames(data, off0, rest, events, k);
      }
    }
  }

  lemma Nothing(data: string, rest: string, events: seq<Event>)
    ensures forall es, lost :: Frames(Reading(None, data, rest, es, lost), data + rest)
  {
  }

  lemma TurnFrames(data: string, off: nat, rest: string, events: seq<Event>, k: nat)
    requires Skip(data) == data && FirstClear(data + rest) && |events| > 0 && 0 < k <= |rest|
    ensures var more := Skip(data + rest[..k]);
      if FindEol(more).Some? then Frames(Taken(more, rest[k..], events[1..]), data + rest)
      else
        var r := Fill(more, off + k, rest[k..], events[1..]);
        !r.ditched ==> Frames(r, data + rest)
    decreases |events|, 0
  {
    hide FirstClear, Skip, FindEol, Frames, AllLines, Unambiguous, Fill;
    var more := Skip(data + rest[..k]);
    MoreRead(data, rest, k);
    SkipIs(data + rest[..k]);
    SameLines(more + rest[k..], data + rest);
    assert FirstClear(more + rest[k..]);
    FindNothing();
    if FindEol(more).Some? {
      TakenFrames(more, rest[k..], events[1..]);
      FramesSame(Taken(more, rest[k..], events[1..]), more + rest[k..], data + rest);
    } else {
      FillFrames(more, off + k, rest[k..], events[1..]);
      FramesSame(Fill(more, off + k, rest[k..], events[1..]), more + rest[k..], data + rest);
    }
  }

  lemma FramesSame(r: Reading, u: string, v: string)
    requires AllLines(u) == AllLines(v) && Unambiguous(u) == Unambiguous(v) && FirstClear(u) == FirstClear(v) &&
      |u| <= |v|
    ensures Frames(r, u) ==> Frames(r, v)
  {
    hide AllLines, Unambiguous, FirstClear;
  }

  /** One call of readline takes the first line, unless the buffer overflowed. */
  lemma ReadFrames(data: string, rest: string, events: seq<Event>)
    requires FirstClear(data + rest)
    ensures var r := ReadLine(data, rest, events); !r.ditched ==> Frames(r, data + rest)
  {
    hide FirstClear, Skip, FindEol, Frames, AllLines, Unambiguous, Fill, Taken;
    var left := Skip(data);
    SkipIs(data);
    SkipConcat(data, rest);
    SkipIs(rest);
    SkipConcat(left, rest);
    SameLines(left + rest, data + rest);
    FindNothing();
    if FindEol(left).Some? {
      TakenFrames(left, rest, events);
    } else {
      FillFrames(left, |left|, rest, events);
    }
    FramesSame(ReadLine(data, rest, events), left + rest, data + rest);
  }

  // ---------------------------------------------------------------- a whole run

  /** Everything that readline returns before its first NULL, and what it leaves. */
  datatype Run = Run(lines: seq<string>, data: string, rest: string, ditched: bool)

  function ReadAll(data: string, rest: string, events: seq<Event>): Run
    decreases |data| + |rest|
  {
    ReadShrinks(data, rest, events);
    var r := ReadLine(data, rest, events);
    if r.line.None? then Run([], r.data, r.rest, r.ditched)
    else
      var more := ReadAll(r.data, r.rest, r.events);
      Run([r.line.value] + more.lines, more.data, more.rest, r.ditched || more.ditched)
  }

  lemma ReadShrinks(data: string, rest: string, events: seq<Event>)
    ensures var r := ReadLine(data, rest, events); r.line.Some? ==> |r.data| + |r.rest| < |data| + |rest|
  {
    hide FindEol, Skip, Taken, Fill;
    SkipIs(data);
    if FindEol(Skip(data)).Some? {
      TakenShrinks(Skip(data), rest, events);
    } else {
      FillShrinks(Skip(data), |Skip(data)|, rest, events);
    }
  }

  lemma TakenShrinks(data: string, rest: string, events: seq<Event>)
    requires FindEol(data).Some?
    ensures var r := Taken(data, rest, events); |r.data| + |r.rest| < |data| + |rest|
  {
  }

  lemma {:induction false} FillShrinks(data: string, off: nat, rest: string, events: seq<Event>)
    ensures var r := Fill(data, off, rest, events); r.line.Some? ==> |r.data| + |r.rest| < |data| + |rest|
    decreases |events|
  {
    hide FindEol, Skip, Taken, Fill;
    FillStep(data, off, rest, events);
    var over := off + 2 >= MAX_AT_RESPONSE;
    var data0, off0 := if over then "" else data, if over then 0 else off;
    if |events| > 0 && events[0].Wake? {
      FillShrinks(data0, off0, rest, events[1..]);
    } else if |events| > 0 && events[0].Data? {
      var k := ReadCount(events[0].size, off0, |rest|);
      var more := Skip(data0 + rest[..k]);
      SkipIs(data0 + rest[..k]);
      if FindEol(more).Some? {
        TakenShrinks(more, rest[k..], events[1..]);
      } else {
        FillShrinks(more, off0 + k, rest[k..], events[1..]);
      }
    }
  }

  /** The lines returned, and those still in what was left, are the lines of the stream. */
  ghost predicate Delivers(stream: string, events: seq<Event>) {
    var run := ReadAll("", stream, events);
    run.lines + AllLines(run.data + run.rest) == AllLines(stream)
  }

  lemma {:induction false} RunDelivers(data: string, rest: string, events: seq<Event>)
    requires Unambiguous(data + rest)
    ensures var run := ReadAll(data, rest, events);
      !run.ditched ==> run.lines + AllLines(run.data + run.rest) == AllLines(data + rest)
    decreases |data| + |rest|
  {
    hide ReadLine, AllLines, FirstClear;
    var r := ReadLine(data, rest, events);
    ReadFrames(data, rest, events);
    if r.line.Some? && !r.ditched {
      ReadShrinks(data, rest, events);
      RunDelivers(r.data, r.rest, r.events);
      var more := ReadAll(r.data, r.rest, r.events);
      assert [r.line.value] + (more.lines + AllLines(more.data + more.rest)) ==
        [r.line.value] + more.lines + AllLines(more.data + more.rest);
    } else {
      assert [] + AllLines(r.data + r.rest) == AllLines(r.data + r.rest);
    }
  }

  /** However read() cuts the stream, as long as the buffer does not overflow. */
  lemma FramingIndependent(stream: string, events: seq<Event>)
    requires Unambiguous(stream) && !ReadAll("", stream, events).ditched
    ensures Delivers(stream, events)
  {
    assert "" + stream == stream;
    RunDelivers("", stream, events);
  }

  /** A run that reached the end of the stream has returned all its lines. */
  lemma NothingLeft(stream: string, events: seq<Event>)
    requires Delivers(stream, events) && ReadAll("", stream, events).rest == ""
    ensures ReadAll("", stream, events).lines == AllLines(stream)
  {
    var run := ReadAll("", stream, events);
    RunLeavesPartial("", stream, events);
    assert run.data + run.rest == run.data;
    SkipIs(run.data);
    assert AllLines(run.data) == [];
    assert run.lines + [] == run.lines;
  }

  lemma {:induction false} RunLeavesPartial(data: string, rest: string, events: seq<Event>)
    ensures FindEol(Skip(ReadAll(data, rest, events).data)) == None
    decreases |data| + |rest|
  {
    hide FindEol, Skip, Taken, Fill;
    ReadShrinks(data, rest, events);
    var r := ReadLine(data, rest, events);
    if r.line.Some? {
      RunLeavesPartial(r.data, r.rest, r.events);
    } else if FindEol(Skip(data)).Some? {
      TakenLine(Skip(data), rest, events);
    } else {
      SkipIs(data);
      FillLeavesPartial(Skip(data), |Skip(data)|, rest, events);
    }
  }

  lemma {:induction false} FillLeavesPartial(data: string, off: nat, rest: string, events: seq<Event>)
    requires Skip(data) == data && FindEol(data) == None
    ensures var r := Fill(data, off, rest, events); r.line.None? ==> FindEol(Skip(r.data)) == None
    decreases |events|
  {
    hide FindEol, Skip, Taken, Fill;
    FillStep(data, off, rest, events);
    FindNothing();
    SkipNone("");
    var over := off + 2 >= MAX_AT_RESPONSE;
    var data0, off0 := if over then "" else data, if over then 0 else off;
    if |events| > 0 && events[0].Wake? {
      FillLeavesPartial(data0, off0, rest, events[1..]);
    } else if |events| > 0 && events[0].Data? {
      var k := ReadCount(events[0].size, off0, |rest|);
      var more := Skip(data0 + rest[..k]);
      SkipIs(data0 + rest[..k]);
      if FindEol(more).None? {
        FillLeavesPartial(more, off0 + k, rest[k..], events[1..]);
      } else {
        TakenLine(more, rest[k..], events[1..]);
      }
    }
  }

  lemma TakenLine(data: string, rest: string, events: seq<Event>)
    requires FindEol(data).Some?
    ensures Taken(data, rest, events).line.Some?
  {
  }

  // ---------------------------------------------------------------- no overflow

  /** After the call every line and the line ends before it still fit. */
  ghost predicate Fits(r: Reading) {
    !r.ditched && Short(r.data + r.rest)
  }

  /** Dropping what a call takes keeps the rest short. */
  lemma TakenFits(m: string, rest: string, events: seq<Event>, extra: nat)
    requires m != "" && !IsEol(m[0]) && FindEol(m).Some? && ShortFrom(m + rest, extra)
    ensures Fits(Taken(m, rest, events))
  {
    hide Skip, LineLen, ShortFrom;
    var u := m + rest;
    SkipNone(u);
    LineLenConcat(m, rest);
    ShortStep(u, extra);
    if m == PROMPT {
      PromptLen();
      PromptFits(rest, extra);
      assert "" + rest == rest;
    } else {
      var n := LineLen(m);
      AtLineLen(u);
      assert u[n..][1..] == m[n + 1..] + rest;
      ShortTail(u[n..]);
    }
  }

  lemma ShortStep(u: string, extra: nat)
    requires Skip(u) == u
    ensures var n := LineLen(u);
      ShortFrom(u, extra) <==> extra + n + 2 < MAX_AT_RESPONSE && (n < |u| ==> ShortFrom(u[n..], 0))
  {
    SkipIs(u);
  }

  lemma ShortTail(u: string)
    requires u != "" && IsEol(u[0]) && ShortFrom(u, 0)
    ensures Short(u[1..])
  {
  }

  lemma PromptFits(rest: string, extra: nat)
    requires ShortFrom(PROMPT + rest, extra)
    ensures Short(rest)
  {
    hide ShortFrom;
    var u := PROMPT + rest;
    SkipNone(u);
    LineLenConcat(PROMPT, rest);
    PromptLen();
    ShortStep(u, extra);
    if LineLen(rest) == 0 {
      if rest != "" {
        assert u[2..] == rest;
      } else {
        ShortEmpty();
      }
    } else {
      SkipNone(rest);
      ShortStep(rest, 0);
      assert LineLen(rest) < |rest| ==> u[LineLen(u)..] == rest[LineLen(rest)..];
    }
  }

  lemma ShortEmpty()
    ensures Short("")
  {
  }

  lemma ShortLess(u: string, extra: nat, less: nat)
    requires ShortFrom(u, extra) && less <= extra
    ensures ShortFrom(u, less)
  {
  }

  /** Leading line ends count like other bytes before the line. */
  lemma ShortSkipped(u: string, extra: nat)
    ensures |Skip(u)| <= |u| && (ShortFrom(u, extra) <==> ShortFrom(Skip(u), extra + |u| - |Skip(u)|))
  {
    SkipIs(u);
  }

  lemma {:induction false} FillFits(data: string, off: nat, rest: string, events: seq<Event>)
    requires Skip(data) == data && FindEol(data) == None && |data| <= off
    requires ShortFrom(data + rest, off - |data|)
    ensures Fits(Fill(data, off, rest, events))
    decreases |events|
  {
    hide FindEol, Skip, Taken, Fill, ShortFrom;
    FillStep(data, off, rest, events);
    ShortBound(data, rest, off - |data|);
    ShortLess(data + rest, off - |data|, 0);
    if |events| > 0 && events[0].Wake? {
      FillFits(data, off, rest, events[1..]);
    } else if |events| > 0 && events[0].Data? {
      var k := ReadCount(events[0].size, off, |rest|);
      if k > 0 {
        var more := Skip(data + rest[..k]);
        SkipIs(data + rest[..k]);
        MoreFits(data, rest, k, off - |data|);
        FindNothing();
        if FindEol(more).Some? {
          TakenFits(more, rest[k..], events[1..], off + k - |more|);
        } else {
          FillFits(more, off + k, rest[k..], events[1..]);
        }
      }
    }
  }

  lemma ShortBound(data: string, rest: string, extra: nat)
    requires Skip(data) == data && FindEol(data) == None && ShortFrom(data + rest, extra)
    ensures extra + |data| + 2 < MAX_AT_RESPONSE
  {
    hide ShortFrom;
    if data != "" {
      SkipIs(data);
      SkipNone(data + rest);
      ShortStep(data + rest, extra);
      LineLenConcat(data, rest);
    } else {
      assert data + rest == rest;
      ShortRoom(rest, extra);
    }
  }

  lemma ShortRoom(u: string, extra: nat)
    requires ShortFrom(u, extra)
    ensures extra + 2 < MAX_AT_RESPONSE
  {
    SkipIs(u);
  }

  lemma MoreFits(data: string, rest: string, k: nat, extra: nat)
    requires k <= |rest| && ShortFrom(data + rest, extra)
    ensures var mid := data + rest[..k];
      |Skip(mid)| <= |mid| && ShortFrom(Skip(mid) + rest[k..], extra + |mid| - |Skip(mid)|)
  {
    hide ShortFrom, Skip;
    var mid := data + rest[..k];
    assert data + rest == mid + rest[k..];
    MoreRead(data, rest, k);
    SkipIs(mid);
    SkipIs(data + rest);
    SkipIs(Skip(mid) + rest[k..]);
    ShortSkipped(data + rest, extra);
    ShortSkipped(Skip(mid) + rest[k..], extra + |mid| - |Skip(mid)|);
  }

  /** A stream of short lines never overflows the buffer, however it is cut. */
  lemma {:induction false} NoOverflow(data: string, rest: string, events: seq<Event>)
    requires Short(data + rest)
    ensures !ReadAll(data, rest, events).ditched
    decreases |data| + |rest|
  {
    hide FindEol, Skip, Taken, Fill, ShortFrom;
    var left := Skip(data);
    SkipIs(data);
    assert data + rest[..0] == data && rest[0..] == rest;
    SkipConcat(data, rest);
    MoreFits(data, rest, 0, 0);
    FindNothing();
    if FindEol(left).Some? {
      TakenFits(left, rest, events, |data| - |left|);
    } else {
      ShortLess(left + rest, |data| - |left|, 0);
      FillFits(left, |left|, rest, events);
    }
    ReadShrinks(data, rest, events);
    var r := ReadLine(data, rest, events);
    if r.line.Some? {
      NoOverflow(r.data, r.rest, r.events);
    }
  }

  // ---------------------------------------------------------------- one byte at a time

  /** `n` reads of one byte. */
  function Ones(n: nat): seq<Event> {
    if n == 0 then [] else [Data(1)] + Ones(n - 1)
  }

  /** A partial line and one more byte. */
  lemma OneMore(data: string, c: char)
    requires Skip(data) == data && FindEol(data) == None
    ensures var m := Skip(data + [c]);
      m == (if data == "" && IsEol(c) then "" else data + [c]) && LineLen(m) >= |m| - 1 &&
      (m == ">" ==> FindEol(m) == None)
  {
    hide Skip, LineLen;
    SkipIs(data);
    LineLenConcat(data, [c]);
    SingleChar(c);
    SingleChar('>');
    if data == "" {
      assert data + [c] == [c];
    } else {
      SkipNone(data + [c]);
    }
  }

  lemma SingleChar(c: char)
    ensures Skip([c]) == (if IsEol(c) then "" else [c]) && LineLen([c]) == if IsEol(c) then 0 else 1
  {
    assert [c][1..] == "";
  }

  /** How a line that begins with "> " comes in. */
  lemma PromptFirst(data: string, rest: string)
    requires Skip(data) == data && FindEol(data) == None && rest != ""
    ensures |data| <= 1 && PROMPT <= Skip(data + rest) ==>
      var m := Skip(data + [rest[0]]);
      m == "" || m == ">" || (m == PROMPT && FindEol(m) == Some(2))
  {
    hide Skip, LineLen;
    SkipIs(data);
    SkipConcat(data, rest);
    OneMore(data, rest[0]);
    var m := data + [rest[0]];
    if data == "" {
      assert data + rest == rest && m == [rest[0]];
      if !IsEol(rest[0]) {
        SkipNone(rest);
        assert PROMPT <= rest ==> m == ">";
      }
    } else if |data| == 1 && PROMPT <= Skip(data + rest) {
      SkipNone(data + rest);
      assert data[0] == (data + rest)[0] == '>' && rest[0] == (data + rest)[1] == ' ';
      assert m == PROMPT;
    }
  }

  lemma OnesStep(off: nat, rest: string)
    requires rest != "" && off + 2 < MAX_AT_RESPONSE
    ensures var e := Ones(|rest|);
      |e| > 0 && e[0] == Data(1) && e[1..] == Ones(|rest[1..]|) && ReadCount(1, off, |rest|) == 1
  {
  }

  lemma OnesNone()
    ensures Ones(0) == []
  {
  }

  /** A line was taken and nothing is left in the buffer. */
  ghost predicate TakesAll(r: Reading, m: string, rest: string) {
    r.line.Some? && r.data == "" && r.rest == rest && r.events == Ones(|rest|) &&
    (m == PROMPT ==> r.line == Some(PROMPT))
  }

  lemma TakenAll(m: string, rest: string)
    requires FindEol(m).Some? && LineLen(m) >= |m| - 1
    ensures TakesAll(Taken(m, rest, Ones(|rest|)), m, rest)
  {
    hide LineLen, Ones;
    assert m == PROMPT ==> m[..2] == m;
  }

  /** One turn of the loop with a read of one byte. */
  lemma BytewiseTurn(data: string, off: nat, rest: string)
    requires Skip(data) == data && FindEol(data) == None && |data| <= off
    requires rest != "" && ShortFrom(data + rest, off - |data|)
    ensures var more, later := Skip(data + [rest[0]]), Ones(|rest[1..]|);
      |more| <= |data| + 1 && Skip(more) == more && ShortFrom(more + rest[1..], off + 1 - |more|) &&
      Skip(more + rest[1..]) == Skip(data + rest) &&
      Fill(data, off, rest, Ones(|rest|)) ==
        if FindEol(more).Some? then Taken(more, rest[1..], later) else Fill(more, off + 1, rest[1..], later)
    ensures var more := Skip(data + [rest[0]]);
      FindEol(more).Some? ==> TakesAll(Taken(more, rest[1..], Ones(|rest[1..]|)), more, rest[1..])
  {
    hide *;
    var more := Skip(data + [rest[0]]);
    MoreByte(data, rest, off - |data|);
    ByteStep(data, off, rest);
    if FindEol(more).Some? {
      TakenAll(more, rest[1..]);
    }
  }

  lemma MoreByte(data: string, rest: string, extra: nat)
    requires Skip(data) == data && FindEol(data) == None && rest != "" && ShortFrom(data + rest, extra)
    ensures var more := Skip(data + [rest[0]]);
      |more| <= |data| + 1 && Skip(more) == more && ShortFrom(more + rest[1..], extra + |data| + 1 - |more|) &&
      Skip(more + rest[1..]) == Skip(data + rest) && LineLen(more) >= |more| - 1
  {
    hide FindEol, Skip, ShortFrom, LineLen;
    assert rest[..1] == [rest[0]];
    SkipIs(data + [rest[0]]);
    MoreFits(data, rest, 1, extra);
    MoreRead(data, rest, 1);
    OneMore(data, rest[0]);
  }

  lemma ByteStep(data: string, off: nat, rest: string)
    requires Skip(data) == data && FindEol(data) == None && |data| <= off
    requires rest != "" && ShortFrom(data + rest, off - |data|)
    ensures var more, later := Skip(data + [rest[0]]), Ones(|rest[1..]|);
      Fill(data, off, rest, Ones(|rest|)) ==
        if FindEol(more).Some? then Taken(more, rest[1..], later) else Fill(more, off + 1, rest[1..], later)
  {
    hide FindEol, Skip, Taken, Fill, ShortFrom, LineLen, Ones, ReadCount;
    ShortBound(data, rest, off - |data|);
    FillStep(data, off, rest, Ones(|rest|));
    OnesStep(off, rest);
    assert rest[..1] == [rest[0]];
  }

  /** Reading byte by byte never reads past a line. */
  lemma {:induction false} BytewiseFill(data: string, off: nat, rest: string)
    requires Skip(data) == data && FindEol(data) == None && |data| <= off
    requires ShortFrom(data + rest, off - |data|)
    ensures var r := Fill(data, off, rest, Ones(|rest|));
      if r.line.Some? then r.data == "" && r.events == Ones(|r.rest|) else r.rest == ""
    decreases |rest|
  {
    hide FindEol, Skip, Taken, Fill, ShortFrom, Ones;
    if rest == "" {
      FillStep(data, off, rest, Ones(|rest|));
      OnesNone();
    } else {
      var more := Skip(data + [rest[0]]);
      BytewiseTurn(data, off, rest);
      if FindEol(more).None? {
        BytewiseFill(more, off + 1, rest[1..]);
      }
    }
  }

  /** Read byte by byte, the first "> " of a line is taken for a prompt. */
  lemma {:induction false} BytewisePrompt(data: string, off: nat, rest: string)
    requires Skip(data) == data && FindEol(data) == None && |data| <= off && |data| <= 1
    requires ShortFrom(data + rest, off - |data|) && PROMPT <= Skip(data + rest)
    ensures Fill(data, off, rest, Ones(|rest|)).line == Some(PROMPT)
    decreases |rest|
  {
    hide FindEol, Skip, Taken, Fill, ShortFrom, Ones;
    SkipIs(data + rest);
    assert rest == "" ==> data + rest == data;
    var more := Skip(data + [rest[0]]);
    BytewiseTurn(data, off, rest);
    PromptFirst(data, rest);
    if more != PROMPT {
      FindNothing();
      OneMore(data, rest[0]);
      BytewisePrompt(more, off + 1, rest[1..]);
    }
  }

  lemma FirstBytewise(u: string)
    requires Short(u)
    ensures var r := ReadLine("", u, Ones(|u|));
      Fits(r) &&
      if r.line.Some? then r.data == "" && r.events == Ones(|r.rest|) && |r.rest| < |u|
      else r.rest == "" && FindEol(Skip(r.data)) == None
    ensures !FirstClear(u) ==> ReadLine("", u, Ones(|u|)).line == Some(PROMPT)
  {
    hide Skip, Taken, Fill, ShortFrom, LineLen, FindEol;
    SkipNone("");
    FindNothing();
    assert "" + u == u;
    BytewiseFill("", 0, u);
    if !FirstClear(u) { BytewisePrompt("", 0, u); }
    FillFits("", 0, u, Ones(|u|));
    ReadShrinks("", u, Ones(|u|));
    FillLeavesPartial("", 0, u, Ones(|u|));
    SkipIs(u);
  }

  lemma NotPrompt(u: string)
    requires !FirstClear(u)
    ensures AllLines(u) == [] || AllLines(u)[0] != PROMPT
  {
    SkipIs(u);
  }

  lemma PartialUnambiguous(data: string)
    requires FindEol(Skip(data)) == None && FirstClear(data)
    ensures Unambiguous(data)
  {
  }

  /** An ambiguous stream is framed differently when it is read byte by byte. */
  lemma {:induction false} BytewiseDiffers(u: string)
    requires Short(u) && !Unambiguous(u)
    ensures !Delivers(u, Ones(|u|))
    decreases |u|
  {
    hide FindEol, Skip, Taken, Fill, ShortFrom, LineLen, FirstClear;
    var r := ReadLine("", u, Ones(|u|));
    assert "" + u == u;
    FirstBytewise(u);
    if FirstClear(u) {
      ReadFrames("", u, Ones(|u|));
      if r.line.Some? {
        assert r.data + r.rest == r.rest;
        BytewiseDiffers(r.rest);
        var more := ReadAll("", r.rest, Ones(|r.rest|));
        var ends := AllLines(more.data + more.rest);
        assert ([r.line.value] + more.lines + ends)[1..] == more.lines + ends;
        assert ([r.line.value] + AllLines(r.rest))[1..] == AllLines(r.rest);
      } else {
        assert r.data + r.rest == r.data;
        PartialUnambiguous(r.data);
      }
    } else {
      NotPrompt(u);
      assert (ReadAll("", u, Ones(|u|)).lines)[0] == PROMPT;
    }
  }

  /** For a stream of lines that fit the buffer: every way of cutting it gives the same lines exactly
      when no line goes on after "> ". */
  lemma FramingIff(stream: string)
    requires Short(stream)
    ensures Unambiguous(stream) <==> forall events :: Delivers(stream, events)
  {
    hide Delivers, Unambiguous, ReadAll;
    if Unambiguous(stream) {
      forall events
        ensures Delivers(stream, events)
      {
        assert "" + stream == stream;
        NoOverflow("", stream, events);
        FramingIndependent(stream, events);
      }
    } else {
      BytewiseDiffers(stream);
      assert !Delivers(stream, Ones(|stream|));
    }
  }

  // ---------------------------------------------------------------- the end of reading

  /** The events that a call has used up. */
  function Used(r: Reading, events: seq<Event>): seq<Event>
    requires |r.events| <= |events|
  {
    events[..|events| - |r.events|]
  }

  /** The last of them is a failure, or a read that delivers nothing. */
  predicate Stops(r: Reading, used: seq<Event>) {
    |used| > 0 &&
    match used[|used| - 1] case Fail => true case Wake => false case Data(size) => size == 0 || r.rest == ""
  }

  /** A failure ends a call: one that returns a line has met none, and any other at most as its last event. */
  predicate NoFailureBefore(r: Reading, used: seq<Event>) {
    forall k :: 0 <= k < |used| && used[k] == Fail ==> r.line.None? && k == |used| - 1
  }

  ghost predicate EndsWell(r: Reading, events: seq<Event>) {
    |r.events| <= |events| && r.events == events[|events| - |r.events|..] && NoFailureBefore(r, Used(r, events)) &&
    (r.line.None? ==> r.events == [] || Stops(r, Used(r, events)))
  }

  /** The first event is the last that is used. */
  lemma EndsNow(r: Reading, events: seq<Event>)
    requires |events| > 0 && r.events == events[1..] && (events[0] == Fail ==> r.line.None?)
    requires r.line.None? ==> Stops(r, [events[0]])
    ensures EndsWell(r, events)
  {
    assert Used(r, events) == [events[0]];
  }

  lemma NothingHappens(r: Reading)
    requires r.events == [] && r.line.None?
    ensures EndsWell(r, [])
  {
  }

  lemma DitchedEnds(r: Reading, lost: bool, events: seq<Event>)
    ensures EndsWell(AlsoDitched(r, lost), events) <==> EndsWell(r, events)
  {
  }

  lemma {:induction false} FillEnds(data: string, off: nat, rest: string, events: seq<Event>)
    ensures EndsWell(Fill(data, off, rest, events), events)
    decreases |events|, 1
  {
    hide Skip, FindEol, EndsWell, Taken, AlsoDitched;
    var over := off + 2 >= MAX_AT_RESPONSE;
    var data0, off0 := if over then "" else data, if over then 0 else off;
    var lost, r := over && data != "", Fill(data, off, rest, events);
    if |events| == 0 {
      NothingHappens(r);
    } else if events[0] == Fail {
      EndsNow(r, events);
    } else if events[0] == Wake {
      GoesOnEnding(data0, off0, rest, lost, events);
    } else {
      var count := ReadCount(events[0].size, off0, |rest|);
      var more := Skip(data0 + rest[..count]);
      if count == 0 {
        EndsNow(r, events);
      } else if FindEol(more).Some? {
        TakenEnds(more, rest[count..], lost, events);
      } else {
        GoesOnEnding(more, off0 + count, rest[count..], lost, events);
      }
    }
  }

  lemma {:induction false} GoesOnEnding(data: string, off: nat, rest: string, lost: bool, events: seq<Event>)
    requires |events| > 0 && events[0] != Fail
    ensures EndsWell(AlsoDitched(Fill(data, off, rest, events[1..]), lost), events)
    decreases |events|, 0
  {
    hide Fill, EndsWell, AlsoDitched;
    var r := Fill(data, off, rest, events[1..]);
    FillEnds(data, off, rest, events[1..]);
    UsedStep(r, events);
    DitchedEnds(r, lost, events);
  }

  lemma TakenEnds(data: string, rest: string, lost: bool, events: seq<Event>)
    requires FindEol(data).Some? && |events| > 0 && events[0] != Fail
    ensures EndsWell(AlsoDitched(Taken(data, rest, events[1..]), lost), events)
  {
    hide FindEol, EndsWell;
    EndsNow(AlsoDitched(Taken(data, rest, events[1..]), lost), events);
  }

  lemma UsedStep(r: Reading, events: seq<Event>)
    requires |events| > 0 && events[0] != Fail && EndsWell(r, events[1..])
    ensures EndsWell(r, events)
  {
    var used, more := Used(r, events), Used(r, events[1..]);
    assert used == [events[0]] + more;
    assert r.events == events[1..][|events| - 1 - |r.events|..];
  }

  /** readline returns no line only at a failure of poll or read, at the end of the stream, or when nothing
      happens any more; and it goes on after no failure. */
  lemma EndOfReading(data: string, rest: string, events: seq<Event>)
    ensures EndsWell(ReadLine(data, rest, events), events)
  {
    hide Fill, Skip, FindEol;
    FillEnds(Skip(data), |Skip(data)|, rest, events);
  }
}
