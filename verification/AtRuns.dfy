/**
  The AT channel over whole runs: what no interleaving of command threads, reader and closing can do.
 */
module AtRuns {
  import opened Options
  import opened AtLines
  import opened AtErrors
  import opened AtChannel
  import opened AtSafety

  /** At most one thread has either mutex, and the reader works only while no thread has the first. */
  lemma MutualExclusion(states: seq<State>, actions: seq<Action>, k: nat, i: nat, j: nat)
    requires Run(states, actions) && k < |states| && i < |states[k].threads| && j < |states[k].threads|
    ensures HasCommand(states[k].threads[i].pc) && HasCommand(states[k].threads[j].pc) ==> i == j
    ensures HasRequest(states[k].threads[i].pc) && HasRequest(states[k].threads[j].pc) ==> i == j
    ensures states[k].reader.Processing? ==> !HasCommand(states[k].threads[i].pc)
  {
    hide Run, Inv;
    RunInv(states, actions, k);
    ThreadFacts(states[k], i);
    ThreadFacts(states[k], j);
  }

  /** A pending response means that the thread it is for has the request mutex, so a thread that gets
      that mutex never finds another command pending. */
  lemma NeverPending(states: seq<State>, actions: seq<Action>, k: nat, i: nat)
    requires Run(states, actions) && k < |states|
    ensures At(states[k], i, Checking) ==> states[k].response.None?
    ensures states[k].response.Some? ==>
      states[k].response.value < |states[k].heap| &&
      states[k].request == Some(states[k].heap[states[k].response.value].owner)
  {
    hide Run, Inv;
    RunInv(states, actions, k);
    SharedFacts(states[k]);
    if i < |states[k].threads| { ThreadFacts(states[k], i); }
  }

  /** No wakeup is lost: a thread waits for the request condition only while another has the request
      mutex and is still to broadcast, and for the command condition only while its final response is
      missing and the channel is open. */
  lemma NoWakeupLost(states: seq<State>, actions: seq<Action>, k: nat, i: nat)
    requires Run(states, actions) && k < |states| && i < |states[k].threads|
    ensures var s := states[k];
      s.threads[i].pc == Parked ==>
        s.request.Some? && s.request.value < |s.threads| && s.request.value != i &&
        HasRequest(s.threads[s.request.value].pc) && s.threads[s.request.value].pc != Releasing
    ensures var s := states[k];
      s.threads[i].pc == Sleeping ==>
        s.response.Some? && s.response.value < |s.heap| && s.heap[s.response.value].owner == i &&
        s.heap[s.response.value].content.final.None? && !s.readerClosed
  {
    hide Run, Inv;
    RunInv(states, actions, k);
    ThreadFacts(states[k], i);
    if states[k].request.Some? { ThreadFacts(states[k], states[k].request.value); }
  }

  /** The enabling conditions that only say that the pending response exists always hold. */
  lemma PendingExists(states: seq<State>, actions: seq<Action>, k: nat, i: nat)
    requires Run(states, actions) && k < |states| && i < |states[k].threads|
    ensures var s := states[k];
      (HasResponse(s.threads[i].pc) ==> s.response.Some? && s.response.value < |s.heap|) &&
      (s.threads[i].pc == Wrapping && s.threads[i].out.Some? ==> s.threads[i].out.value < |s.heap|)
  {
    hide Run, Inv;
    RunInv(states, actions, k);
    ThreadFacts(states[k], i);
  }

  // ---------------------------------------------------------------- what a call returns

  /** What the wrappers return to a caller that wants the response: 0 only with it, and it has an
      intermediate response if the wrapper asks for one; on an error no response, except from the raw one. */
  lemma WrapperResult(states: seq<State>, actions: seq<Action>, k: nat, i: nat)
    requires Run(states, actions) && k < |states| && At(states[k], i, Idle) && states[k].threads[i].call.wanted
    ensures var s := states[k]; var t := s.threads[i];
      (t.err == NO_ERROR ==> t.out.Some?) &&
      (t.err != NO_ERROR && t.call.wrapper != Raw ==> t.out.None?) &&
      (t.out.Some? ==>
        t.out.value < |s.heap| && s.heap[t.out.value].owner == i && s.heap[t.out.value].status == Given &&
        (t.call.wrapper == Single || t.call.wrapper == Digits || t.call.wrapper == Sms ==>
          s.heap[t.out.value].content.intermediates != []))
    ensures var s := states[k]; var t := s.threads[i];
      t.err == NO_ERROR ==> Acknowledged(s.heap[t.out.value].content)
  {
    hide Run, Inv, Acknowledged, Answered;
    RunInv(states, actions, k);
    ThreadFacts(states[k], i);
    var t := states[k].threads[i];
    if t.out.Some? && t.err == NO_ERROR { ResponseAcknowledged(states, actions, k, t.out.value); }
  }

  /** The final response is a success, or a number that cancels its error class. */
  predicate Acknowledged(p: Pending) {
    p.final.Some? && IsFinal(p.final.value) && (IsSuccess(p.final.value) || CancelsBase(p.final.value))
  }

  /** Every wrapper, and the handshake: 0 means that the modem acknowledged the last request, whether or
      not the caller gets the response. */
  lemma ZeroResult(states: seq<State>, actions: seq<Action>, k: nat, i: nat)
    requires Run(states, actions) && k < |states| && At(states[k], i, Idle)
    requires states[k].threads[i].tries > 0 && states[k].threads[i].err == NO_ERROR
    ensures var s := states[k]; var last := s.threads[i].last;
      last.Some? && last.value < |s.heap| && s.heap[last.value].owner == i &&
      s.heap[last.value].call == s.threads[i].call && Acknowledged(s.heap[last.value].content)
  {
    hide Run, Inv, Acknowledged, Answered;
    RunInv(states, actions, k);
    ThreadFacts(states[k], i);
    ResponseAcknowledged(states, actions, k, states[k].threads[i].last.value);
  }

  lemma ResponseAcknowledged(states: seq<State>, actions: seq<Action>, k: nat, r: nat)
    requires Run(states, actions) && k < |states| && r < |states[k].heap| && Answered(states[k].heap[r].content)
    ensures Acknowledged(states[k].heap[r].content)
  {
    hide Run, IsSuccess, IsFinal, CancelsBase, Filter, Answered;
    ContentFromWindow(states, actions, k, r);
    LastPasses(IsFinal, states[k].heap[r].window);
    AnsweredIs(states[k].heap[r].content);
  }

  lemma AnsweredIs(p: Pending)
    requires p.success == (p.final.Some? && IsSuccess(p.final.value)) && (p.final.Some? ==> IsFinal(p.final.value))
    ensures Answered(p) <==> p.final.Some? && (IsSuccess(p.final.value) || CancelsBase(p.final.value))
  {
    hide IsSuccess, IsFinal, CancelsBase;
    if p.final.Some? && !IsSuccess(p.final.value) { ZeroErrorIff(p.final.value); }
  }

  lemma {:induction false} LastPasses(f: string -> bool, lines: seq<string>)
    ensures Last(Filter(f, lines)).Some? ==> f(Last(Filter(f, lines)).value)
  {
    if |lines| > 0 { LastPasses(f, lines[..|lines| - 1]); }
  }

  // ---------------------------------------------------------------- lines

  /** What a response holds, whether pending or given out, follows from the lines processed while it
      was pending. */
  lemma ContentFromWindow(states: seq<State>, actions: seq<Action>, k: nat, r: nat)
    requires Run(states, actions) && k < |states| && r < |states[k].heap|
    ensures var e := states[k].heap[r];
      var matches := AllMatches(e.call.Kind(), e.call.prefix, e.call.pdu, e.window);
      e.content.final == Last(Filter(IsFinal, e.window)) &&
      e.content.success == (e.content.final.Some? && IsSuccess(e.content.final.value)) &&
      e.content.intermediates == if e.call.Kind() == MultiLine then matches else First(matches)
  {
    hide Run, Inv, AbsorbAll, AllMatches, Filter, IsSuccess, IsFinal;
    RunInv(states, actions, k);
    ResponseFacts(states[k], r);
    var e := states[k].heap[r];
    LastFinal(e.call.Kind(), e.call.prefix, e.call.pdu, e.window);
    IntermediatesAre(e.call.Kind(), e.call.prefix, e.call.pdu, e.window);
  }

  /** The lines that a response holds, by the wrapper of its call and not by the type it passes on.  In
      particular every line of a response to a single-line, SMS or multi-line command starts with the
      prefix that was asked for. */
  lemma WrapperLines(states: seq<State>, actions: seq<Action>, k: nat, r: nat)
    requires Run(states, actions) && k < |states| && r < |states[k].heap|
    ensures var e := states[k].heap[r];
      var lines := Counted(e.call.pdu, e.window);
      e.content.intermediates ==
        match e.call.wrapper
        case Plain => []
        case Handshake => []
        case Digits => First(Filter(StartsWithDigit(), lines))
        case Single => First(Filter(StartsWith(e.call.prefix), lines))
        case Sms => First(Filter(StartsWith(e.call.prefix), lines))
        case Multi => Filter(StartsWith(e.call.prefix), lines)
        case Raw => Filter(StartsWith(""), lines)
    ensures var e := states[k].heap[r];
      e.call.wrapper == Single || e.call.wrapper == Sms || e.call.wrapper == Multi ==>
        forall n :: 0 <= n < |e.content.intermediates| ==> e.call.prefix <= e.content.intermediates[n]
  {
    hide Run, Inv, AbsorbAll, Filter, IsSuccess, IsFinal, Counted;
    RunInv(states, actions, k);
    ResponseFacts(states[k], r);
    var e := states[k].heap[r];
    LinesHeld(e.call.Kind(), e.call.prefix, e.call.pdu, e.window);
    OnlyPassing(StartsWith(e.call.prefix), Counted(e.call.pdu, e.window));
  }

  /** A line goes into the window of the pending response, and nowhere else if nothing is pending. */
  lemma LineGoes(states: seq<State>, actions: seq<Action>, k: nat)
    requires Run(states, actions) && k < |actions| && actions[k].Process? && states[k].reader.Processing?
    ensures var s, s', line := states[k], states[k + 1], states[k].reader.line;
      if s.response.None? then s'.heap == s.heap && s'.wire == s.wire && s'.unsolicited == s.unsolicited + [line]
      else
        var r := s.response.value;
        r < |s.heap| == |s'.heap| && s'.heap[r].window == s.heap[r].window + [line] &&
        (forall q :: 0 <= q < |s.heap| && q != r ==> s'.heap[q] == s.heap[q]) &&
        s'.unsolicited == s.unsolicited + if Classify(s.heap[r].content, line) == Unsolicited then [line] else []
  {
    hide Inv, Absorb, Classify;
    RunInv(states, actions, k);
    var s := states[k];
    assert states[k + 1] == DoProcess(s, actions[k].whole, actions[k].woken);
    if s.response.Some? {
      OwnerWaits(s);
      var e := s.heap[s.response.value];
      assert e.content.(pdu := s.smsPdu) == e.content;
    }
  }

  // ---------------------------------------------------------------- what goes out

  /** A text goes out at most once for a command, and only after the whole command line. */
  lemma TextAfterCommand(states: seq<State>, actions: seq<Action>, k: nat, n: nat, m: nat)
    requires Run(states, actions) && k < |states| && n < |states[k].wire| && m < |states[k].wire|
    requires states[k].wire[n].Text?
    ensures exists j :: 0 <= j < n && IsCommand(states[k].wire[j], states[k].wire[n].id)
    ensures states[k].wire[m].Text? && states[k].wire[m].id == states[k].wire[n].id ==> m == n
  {
    hide Run, Inv;
    RunInv(states, actions, k);
    SentFacts(states[k], n);
    SentFacts(states[k], m);
  }

  lemma SentFacts(s: State, n: nat)
    requires Inv(s) && n < |s.wire|
    ensures SentOk(s, n)
  {
  }

  /** The actions that deal with responses or write. */
  predicate Touches(a: Action) { a.Check? || a.Write? || a.Return? || a.Finish? || a.Wrap? || a.Process? }

  lemma OthersTouchNothing(s: State, a: Action)
    requires Enabled(s, a) && !Touches(a)
    ensures Next(s, a).heap == s.heap && Next(s, a).wire == s.wire && Next(s, a).unsolicited == s.unsolicited
  {
  }

  /** A text goes out only while the response of its command is pending, and what goes out whole does so
      while the channel is open. */
  lemma TextWhilePending(states: seq<State>, actions: seq<Action>, k: nat)
    requires Run(states, actions) && k < |actions|
    ensures var s, s' := states[k], states[k + 1];
      s.wire <= s'.wire && |s'.wire| <= |s.wire| + 1 &&
      (|s'.wire| > |s.wire| && s'.wire[|s.wire|].Text? ==> s.response == Some(s'.wire[|s.wire|].id)) &&
      (|s'.wire| > |s.wire| && s'.wire[|s.wire|].whole ==> s.open && !s.readerClosed)
  {
    hide Inv, Absorb, Classify, AbsorbAll, GetError, Run, Next, Enabled;
    RunStep(states, actions, k);
    var s, a := states[k], actions[k];
    if !Touches(a) {
      OthersTouchNothing(s, a);
    } else {
      TextSent(s, a);
    }
  }

  lemma RunStep(states: seq<State>, actions: seq<Action>, k: nat)
    requires Run(states, actions) && k < |actions|
    ensures k + 1 < |states| && Enabled(states[k], actions[k]) && states[k + 1] == Next(states[k], actions[k])
  {
  }

  lemma TextSent(s: State, a: Action)
    requires Enabled(s, a) && Touches(a)
    ensures var s' := Next(s, a);
      s.wire <= s'.wire && |s'.wire| <= |s.wire| + 1 &&
      (|s'.wire| > |s.wire| && s'.wire[|s.wire|].Text? ==> s.response == Some(s'.wire[|s.wire|].id)) &&
      (|s'.wire| > |s.wire| && s'.wire[|s.wire|].whole ==> s.open && !s.readerClosed)
  {
    hide Absorb, Classify, GetError, WrapError, DoProcess;
    if a.Process? { TextProcessed(s, a.whole, a.woken); }
  }

  lemma TextProcessed(s: State, whole: bool, woken: nat)
    requires s.reader.Processing? && (s.response.Some? ==> s.response.value < |s.heap|)
    ensures var s' := DoProcess(s, whole, woken);
      s.wire <= s'.wire && |s'.wire| <= |s.wire| + 1 &&
      (|s'.wire| > |s.wire| ==> s.response == Some(s'.wire[|s.wire|].id)) &&
      (|s'.wire| > |s.wire| && s'.wire[|s.wire|].whole ==> s.open && !s.readerClosed)
  {
    hide Absorb, Classify;
  }

  /** A command line is the caller's own, up to its first 511 characters if the wrapper formats it, unless
      it does so and the caller had to wait. */
  lemma OwnCommand(states: seq<State>, actions: seq<Action>, k: nat, n: nat)
    requires Run(states, actions) && k < |states| && n < |states[k].wire| && states[k].wire[n].Command?
    ensures var s := states[k]; var id := s.wire[n].id;
      id < |s.heap| && OwnText(s.heap[id].call, s.heap[id].waited, s.wire[n].text)
  {
    hide Run, Inv;
    RunInv(states, actions, k);
    SentFacts(states[k], n);
  }

  /** What is sure about the command line of a call. */
  predicate OwnText(call: Call, waited: bool, text: string) {
    match call.wrapper
    case Raw => text == call.command
    case Digits => text == call.command
    case Sms => text == call.command
    case Handshake => text == call.command
    case _ => waited || text == if |call.command| <= 511 then call.command else call.command[..511]
  }

  // ---------------------------------------------------------------- whose command line it is

  /** Some run ends in this state. */
  ghost predicate Reachable(s: State) {
    exists states, actions :: Run(states, actions) && states[|states| - 1] == s
  }

  lemma ReachNext(s: State, a: Action)
    requires Reachable(s) && Enabled(s, a)
    ensures Reachable(Next(s, a))
  {
    hide Next, Enabled;
    var states, actions :| Run(states, actions) && states[|states| - 1] == s;
    var states', actions' := states + [Next(s, a)], actions + [a];
    forall k {:trigger actions'[k]} | 0 <= k < |actions'|
      ensures Enabled(states'[k], actions'[k]) && states'[k + 1] == Next(states'[k], actions'[k])
    {
      if k < |actions| { assert actions'[k] == actions[k]; }
    }
    assert Run(states', actions');
    assert states'[|states'| - 1] == Next(s, a);
  }

  const FIRST := Call(Plain, "AT", "", None, true, false)
  const RESTING := Thread(Idle, FIRST, false, NO_ERROR, None, 0, None)

  /** Another formatted command. */
  function Other(call: Call): Call { Call(Plain, if call.command == "!" then "?" else "!", "", None, true, false) }

  function Start(): State {
    State([RESTING, RESTING, RESTING], Reading, None, None, None, None, [], false, true, "", [], [])
  }

  /** The first thread has written its command, with a time limit or without, and sleeps. */
  function FirstSleeps(limited: bool): State {
    var call := FIRST.(limited := limited);
    State([RESTING.(pc := Sleeping, call := call, last := Some(0)), RESTING, RESTING],
          Reading, None, Some(0), Some(0), None,
          [Response(0, call, false, [], NewPending(NoResult, "", None), Some(0), None, Waiting)],
          false, true, "AT", [Command(0, "AT", true)], [])
  }

  lemma ReachStart()
    ensures Reachable(Start())
  {
    assert Run([Start()], []) && [Start()][0] == Start();
  }

  /** Thread `i` formats its command and gets both mutexes. */
  lemma ReachChecking(s: State, i: nat, call: Call)
    requires Reachable(s) && At(s, i, Idle) && s.command == None && s.request == None
    requires call.Valid() && call.Formats() && call.command != ""
    ensures Reachable(s.(command := Some(AThread(i)), request := Some(i), strbuf := Cut(call.command),
                         threads := s.threads[i := Thread(Checking, call, false, NO_ERROR, None, 0, None)]))
  {
    hide Reachable;
    ReachNext(s, Begin(i, call));
    var s1 := DoBegin(s, i, call);
    ReachNext(s1, Lock(i));
    var s2 := DoLock(s1, i);
    ReachNext(s2, Try(i));
    assert DoTry(s2, i).threads == s.threads[i := Thread(Checking, call, false, NO_ERROR, None, 0, None)];
  }

  /** The first thread has the request mutex. */
  function FirstChecks(limited: bool): State {
    var call := FIRST.(limited := limited);
    State([RESTING.(pc := Checking, call := call), RESTING, RESTING], Reading, Some(AThread(0)), Some(0), None, None,
          [], false, true, "AT", [], [])
  }

  /** Its response is pending and its command is not written yet. */
  function FirstWrites(limited: bool): State {
    var call := FIRST.(limited := limited);
    FirstChecks(limited).(
      threads := [RESTING.(pc := Writing, call := call, last := Some(0)), RESTING, RESTING], response := Some(0),
      heap := [Response(0, call, false, [], NewPending(NoResult, "", None), None, None, Waiting)])
  }

  lemma ReachFirstSleeps(limited: bool)
    ensures Reachable(FirstSleeps(limited))
  {
    hide Reachable;
    var call := FIRST.(limited := limited);
    ReachStart();
    ReachChecking(Start(), 0, call);
    assert Start().threads[0 := Thread(Checking, call, false, NO_ERROR, None, 0, None)] == FirstChecks(limited).threads;
    ReachNext(FirstChecks(limited), Check(0, true));
    assert DoCheck(FirstChecks(limited), 0, true) == FirstWrites(limited);
    ReachSleeping(limited);
  }

  lemma ReachSleeping(limited: bool)
    requires Reachable(FirstWrites(limited))
    ensures Reachable(FirstSleeps(limited))
  {
    hide Reachable;
    var s := FirstWrites(limited);
    ReachNext(s, Write(0, true));
    s := DoWrite(s, 0, true);
    ReachNext(s, Test(0));
    assert DoTest(s, 0) == FirstSleeps(limited);
  }

  /** A second and a third thread have formatted their commands and are parked. */
  function BothParked(call: Call): State {
    FirstSleeps(true).(strbuf := Other(call).command, threads := [
      RESTING.(pc := Sleeping, last := Some(0)), Thread(Parked, call, true, NO_ERROR, None, 0, None),
      Thread(Parked, Other(call), true, NO_ERROR, None, 0, None)])
  }

  /** Thread `i` formats its command and has to wait for another. */
  lemma ReachParked(s: State, i: nat, call: Call)
    requires Reachable(s) && At(s, i, Idle) && s.command == None && s.request.Some?
    requires call.Valid() && call.Formats() && call.command != ""
    ensures var parked := Thread(Parked, call, true, NO_ERROR, None, 0, None);
      Reachable(s.(strbuf := Cut(call.command), threads := s.threads[i := parked]))
  {
    hide Reachable;
    ReachNext(s, Begin(i, call));
    var s1 := DoBegin(s, i, call);
    ReachNext(s1, Lock(i));
    var s2 := DoLock(s1, i);
    ReachNext(s2, Try(i));
    var parked := Thread(Parked, call, true, NO_ERROR, None, 0, None);
    assert DoTry(s2, i) == s.(strbuf := Cut(call.command), threads := s.threads[i := parked]);
  }

  lemma ReachBothParked(call: Call)
    requires call.Valid() && call.Formats() && call.command != ""
    ensures Reachable(BothParked(call))
  {
    hide Reachable;
    ReachFirstSleeps(true);
    ReachParked(FirstSleeps(true), 1, call);
    var s := FirstSleeps(true).(strbuf := Cut(call.command),
      threads := FirstSleeps(true).threads[1 := Thread(Parked, call, true, NO_ERROR, None, 0, None)]);
    ReachParked(s, 2, Other(call));
    var parked := Thread(Parked, Other(call), true, NO_ERROR, None, 0, None);
    assert s.(strbuf := Other(call).command, threads := s.threads[2 := parked])
      == BothParked(call);
  }

  /** The first command has timed out and its thread has let everything go. */
  function FirstGone(call: Call): State {
    var e := Response(0, FIRST, false, [], NewPending(NoResult, "", None), Some(0), None, Freed);
    BothParked(call).(request := None, response := None, heap := [e], threads := [
      RESTING.(pc := Wrapping, err := TIMEOUT, tries := 1, last := Some(0)),
      Thread(Woken, call, true, NO_ERROR, None, 0, None),
      Thread(Woken, Other(call), true, NO_ERROR, None, 0, None)])
  }

  lemma ReachFirstGone(call: Call)
    requires call.Valid() && call.Formats() && call.command != ""
    ensures Reachable(FirstGone(call))
  {
    hide Reachable;
    ReachBothParked(call);
    var s := BothParked(call);
    ReachNext(s, Expire(0));
    s := DoExpire(s, 0);
    ReachNext(s, GiveUp(0));
    s := DoGiveUp(s, 0);
    ReachNext(s, Finish(0));
    s := DoFinish(s, 0);
    ReachNext(s, Release(0));
    s := DoRelease(s, 0);
    ReachNext(s, Leave(0));
    s := DoLeave(s, 0);
    assert s == FirstGone(call);
  }

  /** Entry `n` of the wire is the command line of such a call. */
  ghost predicate SentFor(s: State, n: nat, call: Call) {
    n < |s.wire| && s.wire[n].Command? && s.wire[n].id < |s.heap| && s.heap[s.wire[n].id].call == call
  }

  /** A command that is formatted into the shared buffer can go out with another thread's text. */
  lemma OtherCommand(call: Call)
    requires call.Valid() && call.Formats() && call.command != ""
    ensures exists s: State, n: nat :: Reachable(s) && SentFor(s, n, call) && s.wire[n].text != call.command
  {
    hide Reachable;
    ReachFirstGone(call);
    var s := FirstGone(call);
    ReachNext(s, Relock(1));
    s := DoRelock(s, 1);
    ReachNext(s, Try(1));
    s := DoTry(s, 1);
    ReachNext(s, Check(1, true));
    s := DoCheck(s, 1, true);
    ReachNext(s, Write(1, true));
    s := DoWrite(s, 1, true);
    assert SentFor(s, 1, call) && s.wire[1].text == Other(call).command;
  }

  /** A call is sure to send its own command exactly when its wrapper does not format it, or it is
      formatted into nothing, which is refused. */
  lemma OwnCommandIff(call: Call)
    requires call.Valid()
    ensures (call.wrapper != Plain && call.wrapper != Single && call.wrapper != Multi) || call.command == "" <==>
      forall s: State, n: nat :: Reachable(s) && SentFor(s, n, call) ==> s.wire[n].text == call.command
  {
    hide Reachable;
    if call.Formats() && call.command != "" {
      OtherCommand(call);
    } else {
      forall s: State, n: nat | Reachable(s) && SentFor(s, n, call)
        ensures s.wire[n].text == call.command
      {
        OwnInReachable(s, n);
      }
    }
  }

  lemma OwnInReachable(s: State, n: nat)
    requires Reachable(s) && n < |s.wire| && s.wire[n].Command?
    ensures var id := s.wire[n].id;
      id < |s.heap| && (s.heap[id].call.Formats() ==> s.heap[id].call.command != "") &&
      OwnText(s.heap[id].call, s.heap[id].waited, s.wire[n].text)
  {
    hide Inv;
    var states, actions :| Run(states, actions) && states[|states| - 1] == s;
    OwnCommand(states, actions, |states| - 1, n);
    RunInv(states, actions, |states| - 1);
    ResponseFacts(s, s.wire[n].id);
  }
}
