/**
  The streaming line splitter under the AT channel (readline and findNextEOL in
  huawei-generic/atchannel.c): a fixed buffer that partial lines are moved down in, and the SMS
  prompt "> " that no line end follows (section 4.3 of 3GPP TS 27.005).

  What the operating system does is given as a list of events, one for each turn of the loop.
 */
module LineReaders {
  import opened Options
  import opened CStrings

  const MAX_AT_RESPONSE: nat := 8192

  /** Data(n): poll reports input and read delivers at most n bytes (none is end of file, or an error).
      Wake: nothing to read, or the wake-up pipe was drained.  Fail: closed, or poll reports an error. */
  datatype Event = Data(size: nat) | Wake | Fail

  // ---------------------------------------------------------------- what a call returns

  predicate IsEol(c: char) { c == '\r' || c == '\n' }

  /** The text behind its leading line ends. */
  function Skip(s: string): string {
    if |s| > 0 && IsEol(s[0]) then Skip(s[1..]) else s
  }

  lemma {:induction false} SkipIs(s: string)
    ensures var r := Skip(s); |r| <= |s| && r == s[|s| - |r|..] && (r != "" ==> !IsEol(r[0]))
    ensures Skip(Skip(s)) == Skip(s)
    ensures forall i :: 0 <= i < |s| - |Skip(s)| ==> IsEol(s[i])
  {
    if |s| > 0 && IsEol(s[0]) {
      SkipIs(s[1..]);
      forall i | 0 <= i < |s| - |Skip(s)|
        ensures IsEol(s[i])
      {
        assert i > 0 ==> s[i] == s[1..][i - 1];
      }
    }
  }

  /** Characters before the first line end. */
  function LineLen(s: string): (n: nat)
    ensures n <= |s|
  {
    if |s| == 0 || IsEol(s[0]) then 0 else 1 + LineLen(s[1..])
  }

  lemma SkipStep(s: string)
    requires s != "" && IsEol(s[0])
    ensures Skip(s) == Skip(s[1..])
  {
  }

  lemma SkipDone(s: string)
    requires s == "" || !IsEol(s[0])
    ensures Skip(s) == s
  {
  }

  lemma {:induction false} LineLenIs(s: string, n: nat)
    requires n <= |s| && (forall i :: 0 <= i < n ==> !IsEol(s[i])) && (n < |s| ==> IsEol(s[n]))
    ensures LineLen(s) == n
  {
    if n > 0 {
      LineLenIs(s[1..], n - 1);
    }
  }

  const PROMPT := "> "

  /** findNextEOL */
  function FindEol(s: string): (n: Option<nat>)
    ensures n.Some? ==> n.value <= |s| && (n.value == |s| ==> s == PROMPT)
  {
    if s == PROMPT then Some(2)
    else if LineLen(s) < |s| then Some(LineLen(s))
    else None
  }

  /** What a call of readline leaves: the line or NULL, the characters read but not returned, those
      not read yet, the events to come, and whether characters were thrown away on an overflow. */
  datatype Reading = Reading(line: Option<string>, data: string, rest: string, events: seq<Event>, ditched: bool)

  function Taken(data: string, rest: string, events: seq<Event>): Reading
    requires FindEol(data).Some?
  {
    var n := FindEol(data).value;
    Reading(Some(data[..n]), if n < |data| then data[n + 1..] else "", rest, events, false)
  }

  /** The loop: `data` is a line so far without an end, and ends `off` bytes into the buffer. */
  function Fill(data: string, off: nat, rest: string, events: seq<Event>): Reading
    decreases |events|
  {
    var over := off + 2 >= MAX_AT_RESPONSE;
    var data0, off0 := if over then "" else data, if over then 0 else off;
    var lost := over && data != "";
    if |events| == 0 then Reading(None, data0, rest, [], lost)
    else
      match events[0]
      case Fail => Reading(None, data0, rest, events[1..], lost)
      case Wake => AlsoDitched(Fill(data0, off0, rest, events[1..]), lost)
      case Data(size) =>
        var count := ReadCount(size, off0, |rest|);
        var more := Skip(data0 + rest[..count]);
        if count == 0 then Reading(None, data0, rest, events[1..], lost)
        else if FindEol(more).Some? then AlsoDitched(Taken(more, rest[count..], events[1..]), lost)
        else AlsoDitched(Fill(more, off0 + count, rest[count..], events[1..]), lost)
  }

  function AlsoDitched(r: Reading, lost: bool): Reading { r.(ditched := r.ditched || lost) }

  /** How many bytes a read delivers: it is offered what is left of the buffer. */
  function ReadCount(size: nat, off: nat, available: nat): (n: nat)
    requires off + 2 < MAX_AT_RESPONSE
    ensures n <= available && off + n + 2 <= MAX_AT_RESPONSE && n <= size
  {
    var n := if size < available then size else available;
    if n < MAX_AT_RESPONSE - off - 2 then n else MAX_AT_RESPONSE - off - 2
  }

  function ReadLine(data: string, rest: string, events: seq<Event>): Reading {
    var left := Skip(data);
    if FindEol(left).Some? then Taken(left, rest, events)
    else Fill(left, |left|, rest, events)
  }

  /** The three characters that findNextEOL looks at first. */
  lemma IsPrompt(b: seq<char>, cur: nat, s: string)
    requires HoldsAt(b, cur, s)
    ensures cur < |b| && (b[cur] == '>' ==> cur + 1 < |b| && (b[cur + 1] == ' ' ==> cur + 2 < |b|))
    ensures s == PROMPT <==> b[cur] == '>' && b[cur + 1] == ' ' && b[cur + 2] == '\0'
  {
    Head(b, cur, s);
    if |s| > 0 { Char(b, cur, s, 1); }
    if |s| > 1 { Char(b, cur, s, 2); }
  }

  // ---------------------------------------------------------------- the reader

  class Reader {
    const buf: array<char>
    /** ATBufferCur */
    var cur: nat
    /** Bytes not read yet, and what is going to happen. */
    var stream: string
    var events: seq<Event>
    var readCount: nat

    /** What has been read but not returned: the characters at the cursor. */
    ghost var unread: string
    /** Whether the last call returned a line, and where the last read ended then. */
    ghost var whole: bool
    ghost var last: nat

    constructor (stream: string, events: seq<Event>)
      ensures Valid() && Clean() && unread == "" && this.stream == stream && this.events == events
    {
      hide Skip, FindEol;
      buf := new char[MAX_AT_RESPONSE + 1](_ => '\0');
      cur := 0;
      this.stream := stream;
      this.events := events;
      readCount := 0;
      unread, whole, last := "", true, 0;
    }

    /** The cursor is inside the buffer, on characters that a NUL ends, or on a NUL. */
    ghost predicate Holding()
      reads this, buf
    {
      buf.Length == MAX_AT_RESPONSE + 1 && HoldsAt(buf[..], cur, unread)
    }

    ghost predicate Valid()
      reads this, buf
    {
      Holding() &&
      if whole then cur <= last + 1 < MAX_AT_RESPONSE && buf[last] == buf[last + 1] == '\0' else Partial()
    }

    /** No line end behind the leading ones, and room to read more. */
    ghost predicate Partial()
      reads this
    {
      FindEol(Skip(unread)) == None && cur + |unread| + 2 <= MAX_AT_RESPONSE
    }

    /** No NUL has come in. */
    ghost predicate Clean()
      reads this
    {
      whole ==> last + 1 == cur || last == cur + |unread|
    }

    /** while (*cur == '\r' || *cur == '\n') cur++ */
    method SkipNewlines()
      requires Holding()
      modifies this`cur, this`unread
      ensures Holding() && unread == Skip(old(unread)) && cur + |unread| == old(cur) + |old(unread)|
    {
      hide Skip, HoldsAt;
      Head(buf[..], cur, unread);
      while buf[cur] == '\r' || buf[cur] == '\n'
        invariant Holding() && cur < buf.Length
        invariant Skip(unread) == Skip(old(unread)) && cur + |unread| == old(cur) + |old(unread)|
        decreases |unread|
      {
        Head(buf[..], cur, unread);
        SkipStep(unread);
        Tail(buf[..], cur, unread);
        cur := cur + 1;
        unread := unread[1..];
        Head(buf[..], cur, unread);
      }
      Head(buf[..], cur, unread);
      SkipDone(unread);
    }

    /** findNextEOL at the cursor; the index of the line end. */
    method FindNextEol() returns (eol: Option<nat>)
      requires Holding()
      ensures eol == match FindEol(unread) case None => None case Some(n) => Some(cur + n)
    {
      hide LineLen, HoldsAt;
      IsPrompt(buf[..], cur, unread);
      if buf[cur] == '>' && buf[cur + 1] == ' ' && buf[cur + 2] == '\0' { return Some(cur + 2); }
      var at := cur;
      while buf[at] != '\0' && buf[at] != '\r' && buf[at] != '\n'
        invariant cur <= at <= cur + |unread| && at < buf.Length
        invariant forall i :: 0 <= i < at - cur ==> !IsEol(unread[i])
        decreases buf.Length - at
      {
        Char(buf[..], cur, unread, at - cur);
        at := at + 1;
        Char(buf[..], cur, unread, at - cur);
      }
      Char(buf[..], cur, unread, at - cur);
      LineLenIs(unread, at - cur);
      return if buf[at] == '\0' then None else Some(at);
    }

    /** strlen */
    method Length() returns (len: nat)
      requires Holding()
      ensures len == |unread|
    {
      hide HoldsAt;
      len := 0;
      Char(buf[..], cur, unread, 0);
      while buf[cur + len] != '\0'
        invariant len <= |unread| && cur + len < buf.Length
        decreases |unread| - len
      {
        Char(buf[..], cur, unread, len);
        len := len + 1;
        Char(buf[..], cur, unread, len);
      }
      Char(buf[..], cur, unread, len);
    }

    /** memmove of a partial line to the start of the buffer. */
    method MoveUp() returns (len: nat)
      requires Holding()
      modifies this`cur, buf
      ensures Holding() && cur == 0 && len == |unread|
    {
      len := Length();
      ghost var was := buf[..];
      var i := 0;
      while i < len + 1
        invariant 0 <= i <= len + 1
        invariant buf[..i] == was[cur..cur + i]
        invariant forall k :: cur + i <= k < buf.Length ==> buf[k] == was[k]
        modifies buf
      {
        buf[i] := buf[cur + i];
        i := i + 1;
      }
      assert buf[..len] == buf[..len + 1][..len] == unread;
      assert buf[len] == buf[..len + 1][len];
      cur := 0;
    }

    /** memcpy into the buffer. */
    method StoreChars(at: nat, s: string)
      requires at + |s| <= buf.Length
      modifies buf
      ensures buf[at..at + |s|] == s && buf[..at] == old(buf[..at]) && buf[at + |s|..] == old(buf[at + |s|..])
    {
      var i := 0;
      while i < |s|
        invariant 0 <= i <= |s|
        invariant buf[at..at + i] == s[..i] && buf[..at] == old(buf[..at])
        invariant forall k :: at + i <= k < buf.Length ==> buf[k] == old(buf[k])
      {
        buf[at + i] := s[i];
        i := i + 1;
      }
    }

    /** read() into the buffer at `at`, and two terminators behind the bytes. */
    method Receive(at: nat, size: nat) returns (count: nat)
      requires Holding() && at + 2 < MAX_AT_RESPONSE && cur + |unread| <= at
      modifies this`stream, this`readCount, this`unread, buf
      ensures count == ReadCount(size, at, |old(stream)|) && stream == old(stream)[count..]
      ensures Holding() && cur + |unread| <= at + count
      ensures count == 0 ==> unread == old(unread) && buf[at] == old(buf[at])
      ensures count > 0 ==> buf[at + count] == buf[at + count + 1] == '\0'
      ensures cur + |old(unread)| == at && '\0' !in old(stream) ==> unread == old(unread) + old(stream)[..count]
    {
      hide HoldsAt;
      count := ReadCount(size, at, |stream|);
      if count == 0 {
        assert unread + stream[..0] == unread;
        return;
      }
      ghost var was, got := buf[..], stream[..count];
      StoreChars(at, stream[..count]);
      buf[at + count] := '\0';
      buf[at + count + 1] := '\0';
      readCount := readCount + count;
      stream := stream[count..];
      unread := HoldsSome(buf[..], cur, at + count);
      if cur + |old(unread)| == at && '\0' !in old(stream) {
        assert forall c :: c in got ==> c in old(stream);
        assert buf[..at] == was[..at] && buf[at..at + count] == got;
        Grown(was, buf[..], cur, old(unread), got);
        HoldsOne(buf[..], cur, unread, old(unread) + got);
      }
    }

    /** A line without an end is in the buffer and `read` is where the next bytes go. */
    ghost predicate Filling(read: nat)
      reads this, buf
    {
      Holding() && cur + |unread| <= read <= MAX_AT_RESPONSE - 2 && FindEol(unread) == None && Skip(unread) == unread
    }

    /** No NUL has been read since the buffer was last empty, and none will be. */
    ghost predicate NulFree(read: nat)
      reads this
    {
      cur + |unread| == read && '\0' !in stream
    }

    /** What the call comes to when it ends like this. */
    ghost function Now(eol: Option<nat>, lost: bool): Reading
      requires eol.Some? ==> FindEol(unread).Some?
      reads this
    {
      if eol.Some? then AlsoDitched(Taken(unread, stream, events), lost)
      else Reading(None, unread, stream, events, lost)
    }

    /** The overflow check at the top of the loop. */
    method Ditch(read0: nat) returns (read: nat, ghost lost: bool)
      requires Filling(read0)
      modifies this`cur, this`unread, buf
      ensures Filling(read) && read + 2 < MAX_AT_RESPONSE
      ensures read == if read0 + 2 >= MAX_AT_RESPONSE then 0 else read0
      ensures unread == if read0 + 2 >= MAX_AT_RESPONSE then "" else old(unread)
      ensures lost <==> read0 + 2 >= MAX_AT_RESPONSE && old(unread) != ""
      ensures old(NulFree(read0)) ==> NulFree(read)
    {
      lost := false;
      read := read0;
      if read0 + 2 >= MAX_AT_RESPONSE {
        lost := unread != "";
        cur := 0;
        buf[0] := '\0';
        read := 0;
        unread := "";
      }
    }

    /** The loop is left: a line end was found, or NULL is to be returned. */
    ghost predicate Left(eol: Option<nat>)
      reads this, buf
    {
      Holding() && if eol.None? then Partial() else Found(eol.value)
    }

    ghost predicate Found(eol: nat)
      reads this, buf
    {
      buf.Length == MAX_AT_RESPONSE + 1 && FindEol(unread) == Some(eol - cur) && Skip(unread) == unread &&
      cur + |unread| <= last < MAX_AT_RESPONSE - 1 && buf[last] == buf[last + 1] == '\0'
    }

    ghost predicate LeftClean(eol: Option<nat>)
      reads this
    {
      '\0' !in stream && (eol.Some? ==> last == cur + |unread|)
    }

    /** Read more, and look for a line end. */
    method ReadMore(read0: nat, size: nat) returns (count: nat, eol: Option<nat>)
      requires Filling(read0) && read0 + 2 < MAX_AT_RESPONSE
      modifies this`cur, this`unread, this`stream, this`readCount, this`last, buf
      ensures count == ReadCount(size, read0, |old(stream)|) && stream == old(stream)[count..]
      ensures count > 0 && eol.None? ==> Filling(read0 + count)
      ensures count == 0 ==> eol.None?
      ensures count == 0 || eol.Some? ==> Left(eol)
      ensures old(NulFree(read0)) ==> NulFree(read0 + count) && LeftClean(eol) && (count > 0 ==>
        unread == Skip(old(unread) + old(stream)[..count]) && (eol.Some? <==> FindEol(unread).Some?))
      ensures old(NulFree(read0)) && count == 0 ==> unread == old(unread)
    {
      hide FindEol, Skip, HoldsAt;
      count := Receive(read0, size);
      eol := None;
      if count > 0 {
        SkipIs(unread);
        SkipNewlines();
        eol := FindNextEol();
        last := read0 + count;
      }
    }

    /** One turn of the loop. */
    method Turn(read0: nat) returns (again: bool, eol: Option<nat>, read: nat, ghost lost: bool)
      requires Filling(read0)
      modifies this, buf
      ensures again ==> Filling(read) && |events| < |old(events)|
      ensures !again ==> Left(eol)
      ensures var all := Fill(old(unread), read0, old(stream), old(events));
        old(NulFree(read0)) ==>
          if again then NulFree(read) && all == AlsoDitched(Fill(unread, read, stream, events), lost)
          else LeftClean(eol) && all == Now(eol, lost)
    {
      hide FindEol, Skip, HoldsAt, Fill, Taken;
      FillStep(unread, read0, stream, events);
      read, lost := Ditch(read0);
      eol := None;
      again := false;
      if |events| == 0 { return; }
      var event := events[0];
      events := events[1..];
      if event.Fail? { return; }
      if event.Wake? {
        again := true;
        return;
      }
      var count;
      count, eol := ReadMore(read, event.size);
      again := count > 0 && eol.None?;
      read := read + count;
    }

    /** The loop of readline; the index of the line end, or None for its NULL returns. */
    method Refill(read0: nat) returns (eol: Option<nat>, ghost lost: bool)
      requires Filling(read0)
      modifies this, buf
      ensures Left(eol)
      ensures old(NulFree(read0)) ==>
        LeftClean(eol) && Fill(old(unread), read0, old(stream), old(events)) == Now(eol, lost)
    {
      hide FindEol, Skip, HoldsAt, Fill, Taken, Filling;
      ghost var clean, all := NulFree(read0), Fill(unread, read0, stream, events);
      var read, again := read0, true;
      eol, lost := None, false;
      while again
        invariant if again then Filling(read) else Left(eol)
        invariant clean && again ==> NulFree(read) && all == AlsoDitched(Fill(unread, read, stream, events), lost)
        invariant clean && !again ==> LeftClean(eol) && all == Now(eol, lost)
        decreases again, |events|
      {
        ghost var dropped;
        again, eol, read, dropped := Turn(read);
        lost := lost || dropped;
      }
    }

    /** The start of readline: an empty buffer is reset; a line that is already there is found; a
        partial one is moved up. */
    method Scan() returns (eol: Option<nat>, read: nat)
      requires Valid()
      modifies this`cur, this`unread, buf
      ensures unread == Skip(old(unread)) && (eol.Some? <==> FindEol(unread).Some?)
      ensures eol.None? ==> Filling(read) && read == cur + |unread| == |unread|
      ensures eol.Some? ==> Holding() && Found(eol.value) && (old(Clean()) ==> last == cur + |unread|)
    {
      hide FindEol, Skip, HoldsAt;
      Head(buf[..], cur, unread);
      SkipIs(unread);
      if buf[cur] == '\0' {
        FindNothing();
        cur := 0;
        buf[0] := '\0';
        Emptied(buf[..]);
        return None, 0;
      }
      if whole { EndsBy(buf[..], cur, unread, last); }
      SkipNewlines();
      eol := FindNextEol();
      read := 0;
      if eol.None? { read := MoveUp(); }
    }

    /** readline: the line, without its end, or None for NULL.  Whatever comes in, the cursor stays
        inside the buffer on characters that a NUL ends, and no empty line is returned; as long as
        no NUL comes in the call is ReadLine. */
    method ReadNext() returns (line: Option<string>)
      requires Valid()
      modifies this, buf
      ensures Valid()
      ensures line.Some? ==> line.value != "" && whole
      ensures old(Clean()) && '\0' !in old(stream) ==>
        Clean() && '\0' !in stream &&
        var r := ReadLine(old(unread), old(stream), old(events));
        line == r.line && unread == r.data && stream == r.rest && events == r.events
    {
      hide FindEol, Skip, HoldsAt, Fill, Found;
      var eol, read := Scan();
      if eol.None? {
        ghost var lost;
        eol, lost := Refill(read);
        if eol.None? {
          whole := false;
          return None;
        }
      }
      line := TakeLine(eol.value);
    }

    /** The end of readline: the line is cut off at its end and the cursor goes behind it. */
    method TakeLine(eol: nat) returns (line: Option<string>)
      requires Holding() && Found(eol)
      modifies this`cur, this`unread, this`whole, buf
      ensures Valid() && whole && line.Some? && line.value != ""
      ensures old(LeftClean(Some(eol))) ==> Clean()
      ensures var r := Taken(old(unread), stream, events);
        old(LeftClean(Some(eol))) ==> line == r.line && unread == r.data
    {
      hide HoldsAt;
      ghost var n, s, was := eol - cur, unread, buf[..];
      LineStarts(s);
      line := Some(buf[cur..eol]);
      Cut(was, cur, s, n);
      buf[eol] := '\0';
      cur := eol + 1;
      whole := true;
      if n < |s| {
        unread := s[n + 1..];
        SameBehind(was, buf[..], cur, unread);
      } else {
        unread := HoldsSome(buf[..], cur, if eol < last then last else last + 1);
        if eol == last { Emptied(buf[..]); }
      }
    }
  }

  lemma FindNothing()
    ensures Skip("") == "" && FindEol("") == None
  {
  }

  lemma LineStarts(s: string)
    requires FindEol(s).Some? && Skip(s) == s
    ensures 0 < FindEol(s).value <= |s|
  {
    if s != "" { SkipIs(s[1..]); }
  }

  /** One turn of the loop. */
  lemma FillStep(data: string, off: nat, rest: string, events: seq<Event>)
    ensures var over := off + 2 >= MAX_AT_RESPONSE;
      var data0, off0, lost := if over then "" else data, if over then 0 else off, over && data != "";
      Fill(data, off, rest, events) ==
        if |events| == 0 then Reading(None, data0, rest, [], lost)
        else if events[0].Fail? then Reading(None, data0, rest, events[1..], lost)
        else if events[0].Wake? then AlsoDitched(Fill(data0, off0, rest, events[1..]), lost)
        else
          var count := ReadCount(events[0].size, off0, |rest|);
          var more := Skip(data0 + rest[..count]);
          if count == 0 then Reading(None, data0, rest, events[1..], lost)
          else if FindEol(more).Some? then AlsoDitched(Taken(more, rest[count..], events[1..]), lost)
          else AlsoDitched(Fill(more, off0 + count, rest[count..], events[1..]), lost)
  {
    hide FindEol, Skip;
  }
}
