/**
  What the code of a returned call on the AT channel means: how its last request ended, read off the
  run, decides it.
 */
module AtEndings {
  import opened Options
  import opened AtLines
  import opened AtErrors
  import opened AtChannel
  import opened AtSafety
  import opened AtRuns
  import opened AtAccounts

  /** How a request ends: not at all yet; the command is formatted into nothing; there is no memory for
      a response; the channel is closed when it is to be written, or it is written in part only; the time
      limit runs out; the channel is closed when the wait is over; or the wait is over with the channel
      open, and the response is as it is then. */
  datatype Ending =
    Open | Unformatted | NoMemory | NotWritten | CutShort | TimedOut | Closed | Replied(response: Pending)

  /** The way an action ends a request of thread `i`, or keeps it as it was. */
  function EndedBy(s: State, a: Action, i: nat, before: Ending): Ending {
    if i >= |s.threads| then before
    else
      var closed := !s.open || s.readerClosed;
      match a
      case Begin(j, _) => if j == i then Open else before
      case Lock(j) =>
        var call := s.threads[i].call;
        var formatted := call.wrapper == Plain || call.wrapper == Single || call.wrapper == Multi;
        if j == i && formatted && call.command == "" then Unformatted else before
      case Check(j, memory) => if j == i then if memory then Open else NoMemory else before
      case Write(j, whole) =>
        if j != i then before else if closed then NotWritten else if whole then Open else CutShort
      case GiveUp(j) => if j == i then TimedOut else before
      case Return(j) =>
        if j != i then before
        else if s.readerClosed then Closed
        else if s.response.Some? && s.response.value < |s.heap| then Replied(s.heap[s.response.value].content)
        else before
      case _ => before
  }

  /** How the last request of thread `i` ended in the first `k` actions. */
  ghost function EndingOf(states: seq<State>, actions: seq<Action>, k: nat, i: nat): Ending
    requires k <= |actions| < |states|
  {
    if k == 0 then Open
    else EndedBy(states[k - 1], actions[k - 1], i, EndingOf(states, actions, k - 1, i))
  }

  /** The code for an ending, before the wrapper looks at the response. */
  function CodeFor(e: Ending): int {
    match e
    case Open => NO_ERROR
    case Unformatted => STRING_CREATION
    case NoMemory => MEMORY_ALLOCATION
    case NotWritten => CHANNEL_CLOSED
    case CutShort => GENERIC
    case TimedOut => TIMEOUT
    case Closed => CHANNEL_CLOSED
    case Replied(p) => if p.success then NO_ERROR else GetError(p.final)
  }

  /** The single-line, numeric and SMS wrappers want an intermediate response. */
  function CodeReturned(e: Ending, call: Call): int {
    if e.Replied? && CodeFor(e) == NO_ERROR && call.wanted && e.response.intermediates == [] &&
       (call.wrapper == Single || call.wrapper == Digits || call.wrapper == Sms)
    then INVALID_RESPONSE
    else CodeFor(e)
  }

  // ---------------------------------------------------------------- along a run

  /** Whether a returned call hands out a response: the caller wants it, the wait for it came to an end, and
      the code is 0 or the wrapper is the raw one. */
  predicate HandsOut(e: Ending, t: Thread) {
    t.call.wanted && (e.Closed? || e.Replied?) && (t.err == NO_ERROR || t.call.wrapper == Raw)
  }

  /** The code and the response agree with the ending, from when the thread is done with its request. */
  ghost predicate Agrees(s: State, i: nat, e: Ending)
    requires i < |s.threads|
  {
    var t := s.threads[i];
    (HasOut(t.pc) ==> !e.Open? && t.err == CodeFor(e)) &&
    (HasOut(t.pc) ==> (t.out.Some? <==> t.call.wanted && (e.Closed? || e.Replied?))) &&
    (t.pc == Idle && !e.Open? ==> (t.out.Some? <==> HandsOut(e, t))) &&
    (t.out.Some? && (HasOut(t.pc) || t.pc == Idle) ==>
      t.out.value < |s.heap| && (e.Replied? ==> s.heap[t.out.value].content == e.response)) &&
    (t.pc == Expired || (HasOut(t.pc) && e.TimedOut?) ==> t.call.limited) &&
    (t.pc == Idle && !e.Open? ==> t.err == CodeReturned(e, t.call) && (e.TimedOut? ==> t.call.limited)) &&
    (t.pc == Idle && e.Open? ==> t.tries == 0)
  }

  /** What other actions may change about a thread. */
  predicate SameThread(t: Thread, t': Thread) {
    t' == t || (t.pc == Parked && t' == t.(pc := Woken)) || (t.pc == Sleeping && t' == t.(pc := Roused))
  }

  /** An action of another thread, or of the reader, leaves the thread, and what it holds. */
  lemma OthersLeave(s: State, a: Action, i: nat)
    requires Inv(s) && Enabled(s, a) && i < |s.threads| && !Mine(a, i)
    ensures i < |Next(s, a).threads| && SameThread(s.threads[i], Next(s, a).threads[i])
  {
    hide Inv, Enabled, Next, Mine, SameThread;
    match a {
      case Begin(_, _) => AskLeaves(s, a, i);
      case Lock(_) => AskLeaves(s, a, i);
      case Try(_) => AskLeaves(s, a, i);
      case WakeUp(_) => AskLeaves(s, a, i);
      case Relock(_) => AskLeaves(s, a, i);
      case Check(_, _) => WorkLeaves(s, a, i);
      case Write(_, _) => WorkLeaves(s, a, i);
      case Finish(_) => WorkLeaves(s, a, i);
      case Return(_) => EndLeaves(s, a, i);
      case Release(_) => EndLeaves(s, a, i);
      case Leave(_) => EndLeaves(s, a, i);
      case Wrap(_) => EndLeaves(s, a, i);
      case Process(whole, woken) => ReaderLeaves(s, whole, woken, i);
      case _ => RestLeaves(s, a, i);
    }
  }

  lemma AskLeaves(s: State, a: Action, i: nat)
    requires Enabled(s, a) && i < |s.threads| && !Mine(a, i)
    requires a.Begin? || a.Lock? || a.Try? || a.WakeUp? || a.Relock?
    ensures i < |Next(s, a).threads| && SameThread(s.threads[i], Next(s, a).threads[i])
  {
    hide Cut;
  }

  lemma WorkLeaves(s: State, a: Action, i: nat)
    requires Enabled(s, a) && i < |s.threads| && !Mine(a, i) && (a.Check? || a.Write? || a.Finish?)
    ensures i < |Next(s, a).threads| && SameThread(s.threads[i], Next(s, a).threads[i])
  {
    hide Cut;
  }

  lemma EndLeaves(s: State, a: Action, i: nat)
    requires Enabled(s, a) && i < |s.threads| && !Mine(a, i) && (a.Return? || a.Release? || a.Leave? || a.Wrap?)
    ensures i < |Next(s, a).threads| && SameThread(s.threads[i], Next(s, a).threads[i])
  {
    hide GetError, WrapError;
  }

  lemma RestLeaves(s: State, a: Action, i: nat)
    requires Enabled(s, a) && i < |s.threads| && !Mine(a, i)
    requires a.Test? || a.Stir? || a.Expire? || a.Resume? || a.GiveUp? || a.Receive? || a.EndOfFile? ||
      a.ReaderCloses? || a.CloseFd? || a.CloseChannel?
    ensures i < |Next(s, a).threads| && SameThread(s.threads[i], Next(s, a).threads[i])
  {
  }

  lemma ReaderLeaves(s: State, whole: bool, woken: nat, i: nat)
    requires Enabled(s, Process(whole, woken)) && i < |s.threads|
    ensures var s' := Next(s, Process(whole, woken));
      i < |s'.threads| && SameThread(s.threads[i], s'.threads[i])
  {
    hide DoProcess, SameThread;
    assert Next(s, Process(whole, woken)) == DoProcess(s, whole, woken);
    ProcessLeaves(s, whole, woken, i);
  }

  lemma ProcessLeaves(s: State, whole: bool, woken: nat, i: nat)
    requires s.reader.Processing? && (s.response.Some? ==> s.response.value < |s.heap|) && i < |s.threads|
    ensures var s' := DoProcess(s, whole, woken);
      i < |s'.threads| && SameThread(s.threads[i], s'.threads[i])
  {
    hide Absorb, Classify;
  }

  /** An action of thread `i`. */
  predicate Mine(a: Action, i: nat) {
    match a
    case Begin(j, _) => j == i
    case Lock(j) => j == i
    case Try(j) => j == i
    case WakeUp(j) => j == i
    case Relock(j) => j == i
    case Check(j, _) => j == i
    case Write(j, _) => j == i
    case Test(j) => j == i
    case Stir(j) => j == i
    case Expire(j) => j == i
    case Resume(j) => j == i
    case GiveUp(j) => j == i
    case Return(j) => j == i
    case Finish(j) => j == i
    case Release(j) => j == i
    case Leave(j) => j == i
    case Wrap(j) => j == i
    case _ => false
  }

  /** The contents of a response that is not pending stay. */
  lemma ContentStays(s: State, a: Action, r: nat)
    requires Inv(s) && Enabled(s, a) && r < |s.heap| && s.response != Some(r)
    ensures r < |Next(s, a).heap| && Next(s, a).heap[r].content == s.heap[r].content
  {
    hide Inv, Next, Enabled, AbsorbAll;
    LineStep(s, a, r);
    InvKept(s, a);
    ResponseFacts(s, r);
    ResponseFacts(Next(s, a), r);
    assert s.heap[r].window + [] == s.heap[r].window;
  }

  lemma OthersAgree(s: State, a: Action, i: nat, e: Ending)
    requires Inv(s) && Enabled(s, a) && i < |s.threads| && !Mine(a, i) && Agrees(s, i, e)
    ensures i < |Next(s, a).threads| && Agrees(Next(s, a), i, e) && EndedBy(s, a, i, e) == e
  {
    hide Inv, Next, Enabled, CodeFor, CodeReturned;
    OthersLeave(s, a, i);
    var t := s.threads[i];
    if t.out.Some? && (HasOut(t.pc) || t.pc == Idle) {
      OutIsNotPending(s, i);
      ContentStays(s, a, t.out.value);
    }
  }

  lemma OwnAgree(s: State, a: Action, i: nat, e: Ending)
    requires Inv(s) && Enabled(s, a) && i < |s.threads| && Mine(a, i) && Agrees(s, i, e)
    ensures i < |Next(s, a).threads| && Agrees(Next(s, a), i, EndedBy(s, a, i, e))
  {
    hide Inv, Next, Enabled, Agrees, EndedBy;
    ThreadFacts(s, i);
    match a {
      case Return(_) => ReturnAgrees(s, i, e);
      case Wrap(_) => WrapAgrees(s, i, e);
      case Finish(_) => FinishAgrees(s, i, e);
      case Check(_, memory) => CheckAgrees(s, i, memory, e);
      case Write(_, whole) => WriteAgrees(s, i, whole, e);
      case _ => RestAgrees(s, a, i, e);
    }
  }

  lemma CheckAgrees(s: State, i: nat, memory: bool, e: Ending)
    requires Enabled(s, Check(i, memory)) && ThreadOk(s, i) && Agrees(s, i, e)
    ensures var s' := Next(s, Check(i, memory));
      i < |s'.threads| && Agrees(s', i, EndedBy(s, Check(i, memory), i, e))
  {
    hide Answered, GetError, Cut, LocksOk, TextOk, AnswerOk;
    assert Next(s, Check(i, memory)) == DoCheck(s, i, memory);
  }

  lemma WriteAgrees(s: State, i: nat, whole: bool, e: Ending)
    requires Enabled(s, Write(i, whole)) && ThreadOk(s, i) && Agrees(s, i, e)
    ensures var s' := Next(s, Write(i, whole));
      i < |s'.threads| && Agrees(s', i, EndedBy(s, Write(i, whole), i, e))
  {
    hide Answered, GetError, Cut, LocksOk, TextOk, AnswerOk;
    assert Next(s, Write(i, whole)) == DoWrite(s, i, whole);
  }

  lemma ReturnAgrees(s: State, i: nat, e: Ending)
    requires Enabled(s, Return(i)) && ThreadOk(s, i) && Agrees(s, i, e)
    ensures var s' := Next(s, Return(i)); i < |s'.threads| && Agrees(s', i, EndedBy(s, Return(i), i, e))
  {
    hide Answered, GetError, Cut, LocksOk, TextOk, AnswerOk;
    assert Next(s, Return(i)) == DoReturn(s, i);
  }

  lemma FinishAgrees(s: State, i: nat, e: Ending)
    requires Enabled(s, Finish(i)) && ThreadOk(s, i) && Agrees(s, i, e)
    ensures var s' := Next(s, Finish(i)); i < |s'.threads| && Agrees(s', i, EndedBy(s, Finish(i), i, e))
  {
    hide Answered, GetError, Cut, LocksOk, TextOk, AnswerOk, CodeFor;
    assert Next(s, Finish(i)) == DoFinish(s, i);
  }

  /** What the wrapper makes of the code. */
  lemma WrapCode(s: State, i: nat, e: Ending)
    requires At(s, i, Wrapping) && Agrees(s, i, e) && s.threads[i].out.Some? && s.threads[i].call.wanted
    ensures s.threads[i].out.value < |s.heap| && WrapError(s, i) == CodeReturned(e, s.threads[i].call)
  {
    hide GetError;
  }

  lemma WrapAgrees(s: State, i: nat, e: Ending)
    requires Enabled(s, Wrap(i)) && ThreadOk(s, i) && Agrees(s, i, e)
    ensures var s' := Next(s, Wrap(i)); i < |s'.threads| && Agrees(s', i, EndedBy(s, Wrap(i), i, e))
  {
    hide Agrees, EndedBy, Next, ThreadOk;
    if s.threads[i].out.Some? { WrapSomeAgrees(s, i, e); } else { WrapNoneAgrees(s, i, e); }
  }

  lemma WrapSomeAgrees(s: State, i: nat, e: Ending)
    requires Enabled(s, Wrap(i)) && ThreadOk(s, i) && Agrees(s, i, e) && s.threads[i].out.Some?
    ensures var s' := Next(s, Wrap(i)); i < |s'.threads| && Agrees(s', i, EndedBy(s, Wrap(i), i, e))
  {
    hide Answered, WrapError, Cut, LocksOk, PendingOk, TextOk, AnswerOk, CodeFor;
    assert Next(s, Wrap(i)) == DoWrap(s, i);
    WrapCode(s, i, e);
  }

  lemma WrapNoneAgrees(s: State, i: nat, e: Ending)
    requires Enabled(s, Wrap(i)) && ThreadOk(s, i) && Agrees(s, i, e) && s.threads[i].out.None?
    ensures var s' := Next(s, Wrap(i)); i < |s'.threads| && Agrees(s', i, EndedBy(s, Wrap(i), i, e))
  {
    hide Answered, WrapError, Cut, LocksOk, PendingOk, TextOk, AnswerOk, CodeFor;
    assert Next(s, Wrap(i)) == DoWrap(s, i);
  }

  lemma AsksAgrees(s: State, a: Action, i: nat, e: Ending)
    requires Enabled(s, a) && Mine(a, i) && i < |s.threads| && ThreadOk(s, i) && Agrees(s, i, e)
    requires a.Begin? || a.Lock? || a.Try? || a.WakeUp? || a.Relock?
    ensures i < |Next(s, a).threads| && Agrees(Next(s, a), i, EndedBy(s, a, i, e))
  {
    hide Answered, GetError, Cut, LocksOk, PendingOk, TextOk, AnswerOk, CodeReturned;
  }

  lemma WaitsAgrees(s: State, a: Action, i: nat, e: Ending)
    requires Enabled(s, a) && Mine(a, i) && i < |s.threads| && ThreadOk(s, i) && Agrees(s, i, e)
    requires a.Test? || a.Stir? || a.Expire? || a.Resume? || a.GiveUp?
    ensures i < |Next(s, a).threads| && Agrees(Next(s, a), i, EndedBy(s, a, i, e))
  {
    hide Answered, GetError, Cut, LocksOk, PendingOk, TextOk, AnswerOk, CodeReturned;
  }

  lemma EndsAgrees(s: State, a: Action, i: nat, e: Ending)
    requires Enabled(s, a) && Mine(a, i) && i < |s.threads| && ThreadOk(s, i) && Agrees(s, i, e)
    requires a.Release? || a.Leave?
    ensures i < |Next(s, a).threads| && Agrees(Next(s, a), i, EndedBy(s, a, i, e))
  {
    hide Answered, GetError, Cut, LocksOk, PendingOk, TextOk, AnswerOk, CodeFor, CodeReturned;
  }

  lemma RestAgrees(s: State, a: Action, i: nat, e: Ending)
    requires Enabled(s, a) && Mine(a, i) && i < |s.threads| && ThreadOk(s, i) && Agrees(s, i, e)
    requires !a.Return? && !a.Wrap? && !a.Finish? && !a.Check? && !a.Write?
    ensures i < |Next(s, a).threads| && Agrees(Next(s, a), i, EndedBy(s, a, i, e))
  {
    hide Enabled, Next, Agrees, EndedBy, ThreadOk;
    if a.Begin? || a.Lock? || a.Try? || a.WakeUp? || a.Relock? {
      AsksAgrees(s, a, i, e);
    } else if a.Test? || a.Stir? || a.Expire? || a.Resume? || a.GiveUp? {
      WaitsAgrees(s, a, i, e);
    } else {
      EndsAgrees(s, a, i, e);
    }
  }

  lemma FirstAgrees(s: State, i: nat)
    requires Initial(s) && i < |s.threads|
    ensures Agrees(s, i, Open)
  {
    assert s.threads[i].pc == Idle;
  }

  lemma {:induction false} AlwaysAgrees(states: seq<State>, actions: seq<Action>, k: nat, i: nat)
    requires Run(states, actions) && k <= |actions| && i < |states[k].threads|
    ensures Agrees(states[k], i, EndingOf(states, actions, k, i))
  {
    hide Inv, Next, Enabled, Agrees, EndedBy;
    if k == 0 {
      FirstAgrees(states[0], i);
    } else {
      SameThreads(states, actions, k);
      AlwaysAgrees(states, actions, k - 1, i);
      RunInv(states, actions, k - 1);
      var s, a, e := states[k - 1], actions[k - 1], EndingOf(states, actions, k - 1, i);
      if Mine(a, i) { OwnAgree(s, a, i, e); } else { OthersAgree(s, a, i, e); }
    }
  }

  lemma SameThreads(states: seq<State>, actions: seq<Action>, k: nat)
    requires Run(states, actions) && 0 < k <= |actions|
    ensures |states[k].threads| == |states[k - 1].threads|
  {
    ThreadsStay(states[k - 1], actions[k - 1]);
  }

  lemma ThreadsStay(s: State, a: Action)
    requires Enabled(s, a)
    ensures |Next(s, a).threads| == |s.threads|
  {
    hide DoBegin, DoLock, DoTry, DoWakeUp, DoRelock, DoCheck, DoWrite, DoTest, DoStir, DoExpire, DoResume, DoGiveUp,
      DoReturn, DoFinish, DoRelease, DoLeave, DoWrap, DoProcess;
    match a {
      case Begin(i, call) => SizeAsks(s, a);
      case Lock(i) => SizeAsks(s, a);
      case Try(i) => SizeAsks(s, a);
      case WakeUp(i) => SizeAsks(s, a);
      case Relock(i) => SizeAsks(s, a);
      case Check(i, memory) => SizeWorks(s, a);
      case Write(i, whole) => SizeWorks(s, a);
      case Process(whole, woken) => SizeWorks(s, a);
      case Finish(i) => SizeWorks(s, a);
      case Return(i) => SizeEnds(s, a);
      case Release(i) => SizeEnds(s, a);
      case Leave(i) => SizeEnds(s, a);
      case Wrap(i) => SizeEnds(s, a);
      case _ => SizeWaits(s, a);
    }
  }

  lemma SizeAsks(s: State, a: Action)
    requires Enabled(s, a) && (a.Begin? || a.Lock? || a.Try? || a.WakeUp? || a.Relock?)
    ensures |Next(s, a).threads| == |s.threads|
  {
    hide Cut;
  }

  lemma SizeWorks(s: State, a: Action)
    requires Enabled(s, a) && (a.Check? || a.Write? || a.Process? || a.Finish?)
    ensures |Next(s, a).threads| == |s.threads|
  {
    hide Absorb, Classify, Cut;
  }

  lemma SizeEnds(s: State, a: Action)
    requires Enabled(s, a) && (a.Return? || a.Release? || a.Leave? || a.Wrap?)
    ensures |Next(s, a).threads| == |s.threads|
  {
    hide GetError, WrapError;
  }

  lemma SizeWaits(s: State, a: Action)
    requires Enabled(s, a)
    requires a.Test? || a.Stir? || a.Expire? || a.Resume? || a.GiveUp? || a.Receive? || a.EndOfFile? ||
      a.ReaderCloses? || a.CloseFd? || a.CloseChannel?
    ensures |Next(s, a).threads| == |s.threads|
  {
  }

  // ---------------------------------------------------------------- what a code means

  /** The code of a returned call follows from how its last request ended, and only a call with a time
      limit expires.  A response is handed out exactly if the caller wants it, the wait for it came to an
      end, and the code is 0 or the wrapper is the raw one; it is the response as it was then. */
  lemma CodeMeans(states: seq<State>, actions: seq<Action>, k: nat, i: nat)
    requires Run(states, actions) && k <= |actions| && At(states[k], i, Idle)
    ensures var t := states[k].threads[i]; var e := EndingOf(states, actions, k, i);
      (t.tries > 0 ==> !e.Open?) && (!e.Open? ==> t.err == CodeReturned(e, t.call)) && (e.TimedOut? ==> t.call.limited)
    ensures var t := states[k].threads[i]; var e := EndingOf(states, actions, k, i);
      !e.Open? ==>
        (t.out.Some? <==> HandsOut(e, t)) &&
        (t.out.Some? && e.Replied? ==>
          t.out.value < |states[k].heap| && states[k].heap[t.out.value].content == e.response)
  {
    hide Next, Enabled, CodeReturned, HandsOut;
    AlwaysAgrees(states, actions, k, i);
  }

  /** A final response whose number makes the code `code` after its base is added. */
  predicate Imitates(p: Pending, code: int) {
    !p.success && p.final.Some? && !IsSuccess(p.final.value) && NumberMakes(p.final.value, code)
  }

  /** So a call returns that the channel was closed exactly when its last request met a closed channel,
      at its write or when its wait ended, and that time ran out exactly when its limited wait expired;
      the one exception is a modem that sends the number for that code.  0 means that the request was
      answered while the channel was open.  The codes for no carrier, no answer and no dial tone come from
      such numbers only. */
  lemma CodesTell(states: seq<State>, actions: seq<Action>, k: nat, i: nat)
    requires Run(states, actions) && k <= |actions| && At(states[k], i, Idle) && states[k].threads[i].tries > 0
    ensures var t := states[k].threads[i]; var e := EndingOf(states, actions, k, i);
      (t.err == CHANNEL_CLOSED <==>
        e == NotWritten || e == Closed || (e.Replied? && Imitates(e.response, CHANNEL_CLOSED))) &&
      (t.err == TIMEOUT <==> e == TimedOut || (e.Replied? && Imitates(e.response, TIMEOUT))) &&
      (t.err == MEMORY_ALLOCATION <==> e == NoMemory || (e.Replied? && Imitates(e.response, MEMORY_ALLOCATION))) &&
      (t.err == NO_ERROR ==> e.Replied?)
    ensures var t := states[k].threads[i]; var e := EndingOf(states, actions, k, i);
      3002 <= t.err <= 3004 ==> e.Replied? && Imitates(e.response, t.err)
  {
    hide GetError, IsSuccess, IsFinal, NumberMakes, Next, Enabled, EndingOf;
    CodeMeans(states, actions, k, i);
    var e := EndingOf(states, actions, k, i);
    if e.Replied? {
      RepliedIsFinal(states, actions, k, i);
      MadeByNumber(e.response);
      Made(e.response, CHANNEL_CLOSED);
      Made(e.response, TIMEOUT);
      Made(e.response, MEMORY_ALLOCATION);
    }
  }

  /** The response that ended a request has a final response, if any. */
  lemma {:induction false} RepliedIsFinal(states: seq<State>, actions: seq<Action>, k: nat, i: nat)
    requires Run(states, actions) && k <= |actions| && EndingOf(states, actions, k, i).Replied?
    ensures var p := EndingOf(states, actions, k, i).response; p.final.Some? ==> IsFinal(p.final.value)
  {
    hide IsFinal, Next, Enabled, IsSuccess, AllMatches, Filter;
    if k > 0 {
      var s, a := states[k - 1], actions[k - 1];
      if a.Return? && a.i == i && s.response.Some? && s.response.value < |s.heap| {
        ContentFromWindow(states, actions, k - 1, s.response.value);
        LastPasses(IsFinal, s.heap[s.response.value].window);
      }
      if EndingOf(states, actions, k - 1, i).Replied? { RepliedIsFinal(states, actions, k - 1, i); }
    }
  }

  lemma MadeByNumber(p: Pending)
    requires p.final.Some? ==> IsFinal(p.final.value)
    ensures var code := CodeFor(Replied(p)); 3002 <= code <= 3004 ==> Imitates(p, code)
  {
    hide IsSuccess, IsFinal, NumberMakes, AfterColon;
    if p.final.Some? && !IsSuccess(p.final.value) { FinalCode(p.final.value); }
  }

  lemma Made(p: Pending, code: int)
    requires 0 < code < CME_BASE && code != INVALID_RESPONSE
    ensures CodeFor(Replied(p)) == code <==> Imitates(p, code)
  {
    hide IsSuccess, NumberMakes;
    if p.final.Some? && !IsSuccess(p.final.value) {
      SmallCodeIff(p.final.value, code);
    }
  }
}
