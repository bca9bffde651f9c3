/**
  The state that the reader and a command share (huawei-generic/atchannel.c): the pending response
  with its linked list of intermediate responses, and what is written to the channel.
 */
module AtContexts {
  import opened Options
  import opened AtLines
  import opened LineReaders
  import opened LineFraming

  // ---------------------------------------------------------------- responses

  class AtLine {
    var next: AtLine?
    const line: string

    constructor (line: string, next: AtLine?)
      ensures this.line == line && this.next == next
    {
      this.line := line;
      this.next := next;
    }
  }

  /** The lines that the nodes hold. */
  ghost function TextOf(nodes: seq<AtLine>): (r: seq<string>)
    ensures |r| == |nodes|
  {
    seq(|nodes|, i requires 0 <= i < |nodes| => nodes[i].line)
  }

  /** `nodes` are all nodes of a list, in its order. */
  ghost predicate Linked(head: AtLine?, nodes: seq<AtLine>)
    reads nodes
  {
    if |nodes| == 0 then head == null
    else head == nodes[0] && nodes[0] !in nodes[1..] && Linked(nodes[0].next, nodes[1..])
  }

  function Reversed<T>(s: seq<T>): (r: seq<T>)
    ensures |r| == |s|
  {
    if |s| == 0 then [] else Reversed(s[1..]) + [s[0]]
  }

  lemma {:induction false} ReversedAppend<T>(s: seq<T>, x: T)
    ensures Reversed(s + [x]) == [x] + Reversed(s)
  {
    if |s| > 0 {
      assert (s + [x])[1..] == s[1..] + [x];
      ReversedAppend(s[1..], x);
    }
  }

  lemma {:induction false} ReversedTwice<T>(s: seq<T>)
    ensures Reversed(Reversed(s)) == s
  {
    if |s| > 0 {
      ReversedTwice(s[1..]);
      ReversedAppend(Reversed(s[1..]), s[0]);
    }
  }

  lemma {:induction false} ReversedText(nodes: seq<AtLine>)
    ensures TextOf(Reversed(nodes)) == Reversed(TextOf(nodes))
  {
    if |nodes| > 0 {
      ReversedText(nodes[1..]);
      assert TextOf(nodes)[1..] == TextOf(nodes[1..]);
    }
  }

  class AtResponse {
    var success: bool
    var final: Option<string>
    var intermediates: AtLine?
    ghost var nodes: seq<AtLine>

    /** at_response_new */
    constructor ()
      ensures Valid() && !success && final == None && nodes == []
    {
      success, final, intermediates, nodes := false, None, null, [];
    }

    ghost predicate Valid()
      reads this, nodes
    {
      Linked(intermediates, nodes)
    }

    /** addIntermediate: at the head. */
    method AddIntermediate(line: string)
      requires Valid()
      modifies this`intermediates, this`nodes
      ensures Valid() && TextOf(nodes) == [line] + TextOf(old(nodes))
      ensures fresh(nodes[0]) && nodes[1..] == old(nodes)
    {
      var node := new AtLine(line, intermediates);
      intermediates := node;
      nodes := [node] + nodes;
    }

    /** reverseIntermediates */
    method ReverseIntermediates()
      requires Valid()
      modifies this`intermediates, this`nodes, nodes
      ensures Valid() && nodes == Reversed(old(nodes)) && TextOf(nodes) == Reversed(TextOf(old(nodes)))
    {
      ghost var left, done := nodes, [];
      ghost var all := nodes;
      var cur := intermediates;
      intermediates := null;
      assert all[0..] == all;
      while cur != null
        invariant Linked(cur, left) && Linked(intermediates, done)
        invariant forall n :: n in left ==> n !in done && n in all
        invariant forall n :: n in done ==> n in all
        invariant Reversed(left) + done == Reversed(all)
        decreases |left|
        modifies this`intermediates, all
      {
        ghost var node, rest := left[0], left[1..];
        var next := cur.next;
        assert node in left && cur in all;
        cur.next := intermediates;
        intermediates := cur;
        done := [node] + done;
        left := rest;
        cur := next;
      }
      nodes := done;
      ReversedText(all);
    }
  }

  // ---------------------------------------------------------------- the shared context

  const CTRL_Z: char := 26 as char

  /** `more` is the start of `text`, all of it if `whole`. */
  ghost predicate WrittenSoFar(more: string, text: string, whole: bool) {
    more <= text && (whole ==> more == text) && (!whole ==> |more| < |text|)
  }

  class AtContext {
    var fd: int
    var readerClosed: bool
    /** What write() is going to do: accept up to n bytes, or fail when n is negative. */
    var writes: seq<int>
    /** What the modem has been sent, and the lines that the unsolicited handler has been given, alone
        and in pairs. */
    var wire: string
    var unsolicited: seq<string>
    var messages: seq<(string, string)>

    var kind: CommandType
    var prefix: string
    var smsPdu: Option<string>
    var response: AtResponse?

    constructor (fd: int, writes: seq<int>)
      ensures response == null && smsPdu == None && wire == "" && !readerClosed
      ensures unsolicited == [] && messages == []
    {
      this.fd := fd;
      this.writes := writes;
      readerClosed, wire, unsolicited, messages := false, "", [], [];
      kind, prefix, smsPdu, response := NoResult, "", None, null;
    }

    ghost predicate Valid()
      reads this, response, if response == null then [] else response.nodes
    {
      response != null ==> response.Valid()
    }

    /** What is pending, with the intermediate responses in the order they came in. */
    ghost function Now(): Pending
      requires response != null
      reads this, response
    {
      Pending(kind, prefix, smsPdu, response.success, response.final, Reversed(TextOf(response.nodes)))
    }

    /** write() until it accepts something or fails; the bytes accepted, or -1. */
    method WriteSome(s: string) returns (n: int)
      modifies this`writes, this`wire
      ensures -1 <= n <= |s| && |writes| <= |old(writes)|
      ensures wire == old(wire) + if n < 0 then "" else s[..n]
      ensures n >= 0 ==> |writes| < |old(writes)|
    {
      if |writes| == 0 || writes[0] < 0 {
        n := -1;
      } else {
        n := if writes[0] < |s| then writes[0] else |s|;
        writes := writes[1..];
        wire := wire + s[..n];
      }
    }

    /** The common part of writeline and writeCtrlZ: 0 when all of the string and the terminator has
        been written, and otherwise something less. */
    method WriteAll(s: string, terminator: char) returns (ok: bool)
      modifies this`writes, this`wire
      ensures |wire| >= |old(wire)| && wire[..|old(wire)|] == old(wire)
      ensures WrittenSoFar(wire[|old(wire)|..], s + [terminator], ok)
      ensures fd < 0 || readerClosed ==> wire == old(wire)
    {
      if fd < 0 || readerClosed { return false; }
      ghost var was := wire;
      var cur, written := 0, 0;
      while cur < |s|
        invariant 0 <= cur <= |s| && wire == was + s[..cur]
        decreases |writes|
      {
        written := WriteSome(s[cur..]);
        if written < 0 { return false; }
        assert s[..cur] + s[cur..][..written] == s[..cur + written];
        cur := cur + written;
      }
      written := 0;
      while written == 0
        invariant 0 <= written <= 1 && wire == was + s + [terminator][..written]
        decreases written == 0, |writes|
      {
        written := WriteSome([terminator]);
        if written < 0 { return false; }
      }
      return true;
    }

    /** Whether the line can be an intermediate response of the command. */
    method Expects(line: string) returns (expected: bool)
      ensures expected == Expected(kind, prefix, line)
    {
      expected := kind != NoResult;
      if kind == Numeric {
        expected := line != "" && '0' <= line[0] <= '9';
      } else if kind != NoResult {
        expected := StrStartsWith(line, prefix);
      }
    }

    /** processLine: a line without a command pending goes to the unsolicited handler; otherwise it
        goes where Classify says.  A prompt uses up the text, whether or not it could be written. */
    method ProcessLine(line: string)
      requires Valid()
      modifies this, response
      ensures Valid() && response == old(response) && messages == old(messages)
      ensures fd == old(fd) && readerClosed == old(readerClosed)
      ensures response == null ==>
        unsolicited == old(unsolicited) + [line] && wire == old(wire) && smsPdu == old(smsPdu)
      ensures response != null ==> Now() == Absorb(old(Now()), line)
      ensures response != null ==>
        unsolicited == old(unsolicited) + if Classify(old(Now()), line) == Unsolicited then [line] else []
      ensures old(wire) <= wire
      ensures response != null ==>
        if Classify(old(Now()), line) != Prompt then wire == old(wire)
        else exists ok :: WrittenSoFar(wire[|old(wire)|..], old(smsPdu).value + [CTRL_Z], ok)
    {
      hide IsFinal, IsSuccess, Expected, Reversed;
      if response == null {
        unsolicited := unsolicited + [line];
        return;
      }
      ghost var before, given := Now(), TextOf(response.nodes);
      var success := FindPrefix(line, FINAL_SUCCESSES);
      var failed := FindPrefix(line, FINAL_ERRORS);
      FinalIs(line);
      if success || failed {
        response.success := success;
        response.final := Some(line);
      } else if smsPdu.Some? && line == PROMPT {
        var ok := WriteAll(smsPdu.value, CTRL_Z);
        smsPdu := None;
      } else {
        var expected := Expects(line);
        NoneYet(response);
        if expected && (kind == MultiLine || response.intermediates == null) {
          response.AddIntermediate(line);
          ReversedFirst(line, given);
        } else {
          unsolicited := unsolicited + [line];
        }
      }
    }

    /** The start of a command: a fresh response, if there is memory for it. */
    method Install(kind: CommandType, prefix: string, pdu: Option<string>, memory: bool) returns (ok: bool)
      requires response == null
      modifies this`kind, this`prefix, this`smsPdu, this`response
      ensures Valid() && smsPdu == pdu && ok == memory
      ensures ok ==> response != null && fresh(response) && Now() == NewPending(kind, prefix, pdu)
      ensures !ok ==> response == null
    {
      this.kind := kind;
      this.prefix := prefix;
      smsPdu := pdu;
      if memory {
        response := new AtResponse();
      }
      return memory;
    }

    /** clearPendingCommand: the response is freed if it is still there. */
    method ClearPending()
      modifies this`response, this`prefix, this`smsPdu
      ensures Valid() && response == null && smsPdu == None
    {
      response, prefix, smsPdu := null, "", None;
    }

    /** The end of a command whose caller does not want the response. */
    method DropResponse()
      modifies this`response
      ensures Valid() && response == null
    {
      response := null;
    }

    /** The end of a command whose caller wants the response: it is turned over and detached. */
    method HandOut() returns (r: AtResponse)
      requires Valid() && response != null
      modifies this`response, response`intermediates, response`nodes, response.nodes
      ensures r == old(response) && response == null && r.Valid()
      ensures TextOf(r.nodes) == old(Now()).intermediates && r.success == old(Now()).success &&
        r.final == old(Now()).final
    {
      r := response;
      r.ReverseIntermediates();
      response := null;
    }
  }

  lemma FinalIs(line: string)
    ensures IsSuccess(line) == StartsWithAny(line, FINAL_SUCCESSES)
    ensures IsFinal(line) == (StartsWithAny(line, FINAL_SUCCESSES) || StartsWithAny(line, FINAL_ERRORS))
  {
  }

  lemma NoneYet(r: AtResponse)
    requires r.Valid()
    ensures r.intermediates == null <==> Reversed(TextOf(r.nodes)) == []
  {
  }

  lemma ReversedFirst(x: string, s: seq<string>)
    ensures Reversed([x] + s) == Reversed(s) + [x]
  {
    assert ([x] + s)[1..] == s;
  }

  // ---------------------------------------------------------------- the reader's loop

  /** What the reader does with lines: the two lines of an SMS message are handed on together. */
  datatype Handled = Single(line: string) | Pair(first: string, second: string)

  function Dispatch(lines: seq<string>): seq<Handled> {
    if |lines| == 0 then []
    else if !StartsWithAny(lines[0], SMS_UNSOLICITED) then [Single(lines[0])] + Dispatch(lines[1..])
    else if |lines| == 1 then []
    else [Pair(lines[0], lines[1])] + Dispatch(lines[2..])
  }

  /** The first line of a message. */
  predicate AnnouncesMessage(line: string) { "+CMT:" <= line || "+CDS:" <= line || "+CBM:" <= line }

  function LinesOf(handled: seq<Handled>): seq<string> {
    if |handled| == 0 then []
    else
      (match handled[0] case Single(line) => [line] case Pair(first, second) => [first, second]) +
      LinesOf(handled[1..])
  }

  /** Lines are handled one by one and in order, those of a message together with the next one; a last line
      is left out if it is one of a message. */
  predicate HandlesLines(handled: seq<Handled>, lines: seq<string>) {
    (forall k :: 0 <= k < |handled| ==>
      match handled[k] case Single(line) => !AnnouncesMessage(line) case Pair(first, _) => AnnouncesMessage(first)) &&
    LinesOf(handled) <= lines && |lines| <= |LinesOf(handled)| + 1 &&
    (|lines| > |LinesOf(handled)| ==> AnnouncesMessage(lines[|lines| - 1]))
  }

  lemma AnnouncesIs(line: string)
    ensures AnnouncesMessage(line) <==> StartsWithAny(line, SMS_UNSOLICITED)
  {
    assert SMS_UNSOLICITED[0] == "+CMT:" && SMS_UNSOLICITED[1] == "+CDS:" && SMS_UNSOLICITED[2] == "+CBM:";
  }

  /** This decides what the reader does with some lines. */
  lemma {:induction false} DispatchIff(lines: seq<string>, handled: seq<Handled>)
    ensures handled == Dispatch(lines) <==> HandlesLines(handled, lines)
    decreases |lines|
  {
    hide StartsWithAny, AnnouncesMessage;
    if |lines| == 0 {
    } else {
      AnnouncesIs(lines[0]);
      if |handled| > 0 {
        var n := if handled[0].Single? then 1 else 2;
        if |lines| >= n && lines[..n] == LinesOf([handled[0]]) {
          DispatchIff(lines[n..], handled[1..]);
          HandlesTail(handled, lines, n);
        } else {
          NotTaken(handled, lines, n);
        }
      }
    }
  }

  lemma LinesOfFirst(handled: seq<Handled>)
    requires |handled| > 0
    ensures LinesOf(handled) == LinesOf([handled[0]]) + LinesOf(handled[1..])
    ensures |LinesOf([handled[0]])| == if handled[0].Single? then 1 else 2
  {
    assert [handled[0]][1..] == [] && LinesOf([]) == [];
  }

  lemma HandlesTail(handled: seq<Handled>, lines: seq<string>, n: nat)
    requires |handled| > 0 && n == (if handled[0].Single? then 1 else 2)
    requires n <= |lines| && lines[..n] == LinesOf([handled[0]])
    ensures HandlesLines(handled, lines) <==>
      HandlesLines(handled[1..], lines[n..]) &&
      (if handled[0].Single? then !AnnouncesMessage(handled[0].line) else AnnouncesMessage(handled[0].first))
  {
    hide AnnouncesMessage;
    LinesOfFirst(handled);
    assert lines == lines[..n] + lines[n..];
  }

  lemma NotTaken(handled: seq<Handled>, lines: seq<string>, n: nat)
    requires |handled| > 0 && n == (if handled[0].Single? then 1 else 2)
    requires |lines| < n || lines[..n] != LinesOf([handled[0]])
    ensures !HandlesLines(handled, lines)
  {
    hide AnnouncesMessage;
    LinesOfFirst(handled);
  }

  /** The lines that the rest of a run returns. */
  ghost function LinesLeft(reader: Reader): seq<string>
    reads reader
  {
    ReadAll(reader.unread, reader.stream, reader.events).lines
  }

  /** One call of readline, in terms of the whole run. */
  method NextLine(reader: Reader) returns (line: Option<string>)
    requires reader.Valid() && reader.Clean() && '\0' !in reader.stream
    modifies reader, reader.buf
    ensures reader.Valid() && reader.Clean() && '\0' !in reader.stream
    ensures line.None? ==> old(LinesLeft(reader)) == []
    ensures line.Some? ==> old(LinesLeft(reader)) == [line.value] + LinesLeft(reader)
    ensures line.Some? ==> |reader.unread| + |reader.stream| < old(|reader.unread| + |reader.stream|)
  {
    hide LineReaders.ReadLine;
    ReadShrinks(reader.unread, reader.stream, reader.events);
    line := reader.ReadNext();
  }

  lemma DispatchStep(line: string, rest: seq<string>)
    ensures Dispatch([]) == []
    ensures !StartsWithAny(line, SMS_UNSOLICITED) ==> Dispatch([line] + rest) == [Single(line)] + Dispatch(rest)
    ensures StartsWithAny(line, SMS_UNSOLICITED) ==>
      Dispatch([line] + rest) == if rest == [] then [] else [Pair(line, rest[0])] + Dispatch(rest[1..])
  {
    hide StartsWithAny;
    assert ([line] + rest)[1..] == rest && (rest != [] ==> ([line] + rest)[2..] == rest[1..]);
  }

  /** One turn of readerLoop; None when it ends. */
  method HandleNext(reader: Reader) returns (h: Option<Handled>)
    requires reader.Valid() && reader.Clean() && '\0' !in reader.stream
    modifies reader, reader.buf
    ensures reader.Valid() && reader.Clean() && '\0' !in reader.stream
    ensures h.None? ==> Dispatch(old(LinesLeft(reader))) == []
    ensures h.Some? ==> Dispatch(old(LinesLeft(reader))) == [h.value] + Dispatch(LinesLeft(reader))
    ensures h.Some? ==> |reader.unread| + |reader.stream| < old(|reader.unread| + |reader.stream|)
  {
    hide ReadAll, StartsWithAny, Dispatch, LinesLeft;
    DispatchStep("", []);
    var line := NextLine(reader);
    if line.None? { return None; }
    ghost var rest := LinesLeft(reader);
    DispatchStep(line.value, rest);
    var two := FindPrefix(line.value, SMS_UNSOLICITED);
    if !two { return Some(Single(line.value)); }
    var line2 := NextLine(reader);
    if line2.None? { return None; }
    assert rest[1..] == LinesLeft(reader);
    return Some(Pair(line.value, line2.value));
  }

  /** The lines that are handled alone, and those that are in pairs. */
  function Singles(handled: seq<Handled>): seq<string> {
    if |handled| == 0 then []
    else
      var last := handled[|handled| - 1];
      Singles(handled[..|handled| - 1]) + if last.Single? then [last.line] else []
  }

  function Pairs(handled: seq<Handled>): seq<(string, string)> {
    if |handled| == 0 then []
    else
      var last := handled[|handled| - 1];
      Pairs(handled[..|handled| - 1]) + if last.Pair? then [(last.first, last.second)] else []
  }

  /** What a response and the unsolicited handler have come to. */
  datatype Fate = Fate(pending: Option<Pending>, unsolicited: seq<string>, messages: seq<(string, string)>)

  /** What handling some lines makes of it: a single line is processed, a message goes to the handler. */
  function Handle(f: Fate, handled: seq<Handled>): Fate {
    var lines := Singles(handled);
    match f.pending
    case None => Fate(None, f.unsolicited + lines, f.messages + Pairs(handled))
    case Some(p) =>
      Fate(Some(AbsorbAll(p, lines)), f.unsolicited + Went(p, lines, Unsolicited), f.messages + Pairs(handled))
  }

  ghost function FateOf(ac: AtContext): Fate
    reads ac, ac.response
  {
    Fate(if ac.response == null then None else Some(ac.Now()), ac.unsolicited, ac.messages)
  }

  lemma HandleStep(f: Fate, handled: seq<Handled>, h: Handled)
    ensures var g := Handle(f, handled);
      Handle(f, handled + [h]) ==
        match h
        case Pair(first, second) => g.(messages := g.messages + [(first, second)])
        case Single(line) =>
          if g.pending.None? then g.(unsolicited := g.unsolicited + [line])
          else
            g.(pending := Some(Absorb(g.pending.value, line)),
               unsolicited := g.unsolicited + if Classify(g.pending.value, line) == Unsolicited then [line] else [])
  {
    hide Absorb, AbsorbAll, Classify, Went, Singles, Pairs;
    var lines := Singles(handled);
    SinglesStep(handled, h);
    if f.pending.Some? && h.Single? {
      AbsorbStep(f.pending.value, lines, h.line);
      WentStep(f.pending.value, lines, h.line, Unsolicited);
    }
    assert lines + [] == lines;
  }

  lemma SinglesStep(handled: seq<Handled>, h: Handled)
    ensures Singles(handled + [h]) == Singles(handled) + if h.Single? then [h.line] else []
    ensures Pairs(handled + [h]) == Pairs(handled) + if h.Pair? then [(h.first, h.second)] else []
  {
    assert (handled + [h])[..|handled|] == handled;
  }

  /** What the reader does with one line, or with the two lines of a message. */
  method HandOn(ac: AtContext, h: Handled)
    requires ac.Valid()
    modifies ac, ac.response
    ensures ac.Valid() && ac.response == old(ac.response) && ac.readerClosed == old(ac.readerClosed)
    ensures FateOf(ac) == Handle(old(FateOf(ac)), [h])
  {
    hide Absorb, Classify, Reversed;
    HandleStep(FateOf(ac), [], h);
    NothingHandled(FateOf(ac));
    assert [] + [h] == [h];
    match h
    case Single(line) => ac.ProcessLine(line);
    case Pair(first, second) => ac.messages := ac.messages + [(first, second)];
  }

  lemma NothingHandled(f: Fate)
    ensures Handle(f, []) == f
  {
  }

  lemma {:induction false} HandleMore(f: Fate, handled: seq<Handled>, h: Handled)
    ensures Handle(Handle(f, handled), [h]) == Handle(f, handled + [h])
  {
    hide Handle;
    HandleStep(f, handled, h);
    HandleStep(Handle(f, handled), [], h);
    NothingHandled(Handle(f, handled));
    assert [] + [h] == [h];
  }

  /** onReaderClosed */
  method ReaderClosed(ac: AtContext, callback: bool)
    requires ac.Valid()
    modifies ac`readerClosed
    ensures ac.readerClosed == (old(ac.readerClosed) || callback)
    ensures ac.Valid() && FateOf(ac) == old(FateOf(ac))
  {
    if callback && !ac.readerClosed { ac.readerClosed := true; }
  }

  /** One turn of readerLoop, with what it does to the context. */
  method HandleOne(reader: Reader, ac: AtContext) returns (h: Option<Handled>)
    requires reader.Valid() && reader.Clean() && '\0' !in reader.stream && ac.Valid()
    modifies reader, reader.buf, ac, ac.response
    ensures reader.Valid() && reader.Clean() && '\0' !in reader.stream
    ensures ac.Valid() && ac.response == old(ac.response) && ac.readerClosed == old(ac.readerClosed)
    ensures h.None? ==> Dispatch(old(LinesLeft(reader))) == [] && FateOf(ac) == old(FateOf(ac))
    ensures h.Some? ==> Dispatch(old(LinesLeft(reader))) == [h.value] + Dispatch(LinesLeft(reader))
    ensures h.Some? ==> FateOf(ac) == Handle(old(FateOf(ac)), [h.value])
    ensures h.Some? ==> |reader.unread| + |reader.stream| < old(|reader.unread| + |reader.stream|)
  {
    hide LinesLeft, Dispatch, Handle, FateOf;
    h := HandleNext(reader);
    if h.Some? { HandOn(ac, h.value); }
  }

  /** readerLoop: every line that readline returns is handled, in order, a message that needs two
      lines only when both came in; what becomes of the pending response and of the unsolicited handler
      is what these lines make of it.  At the end the channel is closed, if there is a callback. */
  method ReaderLoop(reader: Reader, ac: AtContext, callback: bool) returns (handled: seq<Handled>)
    requires reader.Valid() && reader.Clean() && '\0' !in reader.stream && ac.Valid()
    modifies reader, reader.buf, ac, ac.response
    ensures handled == Dispatch(old(LinesLeft(reader)))
    ensures ac.Valid() && ac.response == old(ac.response) && FateOf(ac) == Handle(old(FateOf(ac)), handled)
    ensures ac.readerClosed == (old(ac.readerClosed) || callback)
  {
    hide LinesLeft, Dispatch, Handle, FateOf;
    handled := [];
    NothingHandled(FateOf(ac));
    while true
      invariant reader.Valid() && reader.Clean() && '\0' !in reader.stream
      invariant ac.Valid() && ac.response == old(ac.response) && ac.readerClosed == old(ac.readerClosed)
      invariant Dispatch(old(LinesLeft(reader))) == handled + Dispatch(LinesLeft(reader))
      invariant FateOf(ac) == Handle(old(FateOf(ac)), handled)
      decreases |reader.unread| + |reader.stream|
    {
      var h := HandleOne(reader, ac);
      if h.None? { break; }
      HandleMore(old(FateOf(ac)), handled, h.value);
      handled := handled + [h.value];
    }
    ReaderClosed(ac, callback);
  }
}
