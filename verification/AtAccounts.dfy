/**
  The AT channel over whole runs, kept as accounts: what became of every response and of every line.
 */
module AtAccounts {
  import opened Options
  import opened AtLines
  import opened AtErrors
  import opened AtChannel
  import opened AtSafety
  import opened AtRuns

  // ---------------------------------------------------------------- responses

  /** The action frees the response: at the end of a call that does not want it, when a pending command
      is cleared, or in a wrapper that reports an error. */
  predicate Frees(s: State, a: Action, r: nat)
    requires Enabled(s, a)
  {
    match a
    case Return(i) => s.response == Some(r) && !s.threads[i].call.wanted
    case Finish(i) => s.response == Some(r)
    case Wrap(i) => s.threads[i].out == Some(r) && Fails(s, i)
    case _ => false
  }

  /** The wrapper does not keep the response. */
  predicate Fails(s: State, i: nat)
    requires At(s, i, Wrapping) && s.threads[i].out.Some? && s.threads[i].out.value < |s.heap|
  {
    WrapError(s, i) != NO_ERROR && s.threads[i].call.wrapper != Raw
  }

  /** The action returns to the caller with the response. */
  predicate Gives(s: State, a: Action, r: nat)
    requires Enabled(s, a)
  {
    a.Wrap? && s.threads[a.i].out == Some(r) && !Fails(s, a.i)
  }

  /** The action detaches the response for a caller that wants it. */
  predicate Takes(s: State, a: Action, r: nat)
    requires Enabled(s, a)
  {
    a.Return? && s.response == Some(r) && s.threads[a.i].call.wanted
  }

  /** What one action makes of a response: only one that is pending, or detached, is freed; only one that
      is detached is given away. */
  predicate Moved(s: State, a: Action, r: nat, after: Status)
    requires Enabled(s, a) && r < |s.heap|
  {
    var before := s.heap[r].status;
    after ==
      (if Frees(s, a, r) then Freed else if Gives(s, a, r) then Given else if Takes(s, a, r) then OutTo else before) &&
    (Frees(s, a, r) ==> (before == Waiting || before == OutTo) && !Gives(s, a, r)) &&
    (Gives(s, a, r) ==> before == OutTo) && (Takes(s, a, r) ==> before == Waiting)
  }

  lemma StatusMoves(s: State, a: Action, r: nat)
    requires Inv(s) && Enabled(s, a) && r < |s.heap|
    ensures r < |Next(s, a).heap| && Moved(s, a, r, Next(s, a).heap[r].status)
  {
    hide Inv, AbsorbAll, Next, Enabled, Moved, Frees, Gives, Takes;
    if !Touches(a) {
      OthersTouchNothing(s, a);
      OthersMove(s, a, r);
    } else if a.Process? {
      ProcessMoves(s, a, r);
    } else if a.Wrap? {
      WrapMoves(s, a.i, r);
    } else {
      ThreadMoves(s, a, r);
    }
  }

  lemma OthersMove(s: State, a: Action, r: nat)
    requires Enabled(s, a) && r < |s.heap| && !Touches(a)
    ensures Moved(s, a, r, s.heap[r].status)
  {
  }

  lemma ProcessMoves(s: State, a: Action, r: nat)
    requires Enabled(s, a) && a.Process? && r < |s.heap|
    ensures r < |Next(s, a).heap| && Moved(s, a, r, Next(s, a).heap[r].status)
  {
    hide Absorb, Classify;
    assert Next(s, a) == DoProcess(s, a.whole, a.woken);
  }

  lemma WrapMoves(s: State, i: nat, r: nat)
    requires Inv(s) && Enabled(s, Wrap(i)) && r < |s.heap|
    ensures r < |Next(s, Wrap(i)).heap| && Moved(s, Wrap(i), r, Next(s, Wrap(i)).heap[r].status)
  {
    hide Inv, WrapError, LocksOk, PendingOk, TextOk, SharedOk;
    ThreadFacts(s, i);
    assert Next(s, Wrap(i)) == DoWrap(s, i);
  }

  /** An action that neither frees a response nor gives it away nor detaches it. */
  lemma StayMoves(s: State, a: Action, r: nat)
    requires Enabled(s, a) && (a.Check? || a.Write?) && r < |s.heap|
    ensures r < |Next(s, a).heap| && Moved(s, a, r, Next(s, a).heap[r].status)
  {
    if a.Check? {
      assert Next(s, a) == DoCheck(s, a.i, a.memory);
    } else {
      assert Next(s, a) == DoWrite(s, a.i, a.whole);
    }
  }

  lemma ReturnMoves(s: State, i: nat, r: nat)
    requires Enabled(s, Return(i)) && r < |s.heap| && (s.response == Some(r) ==> s.heap[r].status == Waiting)
    ensures var s' := Next(s, Return(i)); r < |s'.heap| && Moved(s, Return(i), r, s'.heap[r].status)
  {
    hide GetError;
    assert Next(s, Return(i)) == DoReturn(s, i);
  }

  lemma FinishMoves(s: State, i: nat, r: nat)
    requires Enabled(s, Finish(i)) && r < |s.heap| && (s.response == Some(r) ==> s.heap[r].status == Waiting)
    ensures var s' := Next(s, Finish(i)); r < |s'.heap| && Moved(s, Finish(i), r, s'.heap[r].status)
  {
    hide Broadcast;
    assert Next(s, Finish(i)) == DoFinish(s, i);
  }

  lemma ThreadMoves(s: State, a: Action, r: nat)
    requires Inv(s) && Enabled(s, a) && r < |s.heap| && Touches(a) && !a.Process? && !a.Wrap?
    ensures r < |Next(s, a).heap| && Moved(s, a, r, Next(s, a).heap[r].status)
  {
    hide Inv, AbsorbAll, Next, Enabled, Moved;
    ResponseFacts(s, r);
    if a.Return? {
      ReturnMoves(s, a.i, r);
    } else if a.Finish? {
      FinishMoves(s, a.i, r);
    } else {
      StayMoves(s, a, r);
    }
  }

  /** How often the first `k` actions of a run free the response. */
  ghost function FreeCount(states: seq<State>, actions: seq<Action>, k: nat, r: nat): nat
    requires Run(states, actions) && k <= |actions|
  {
    if k == 0 then 0
    else FreeCount(states, actions, k - 1, r) + if Frees(states[k - 1], actions[k - 1], r) then 1 else 0
  }

  /** How often they give it to a caller. */
  ghost function GiveCount(states: seq<State>, actions: seq<Action>, k: nat, r: nat): nat
    requires Run(states, actions) && k <= |actions|
  {
    if k == 0 then 0
    else GiveCount(states, actions, k - 1, r) + if Gives(states[k - 1], actions[k - 1], r) then 1 else 0
  }

  /** A response that an action frees or gives away exists. */
  lemma OnlyExisting(s: State, a: Action, r: nat)
    requires Inv(s) && Enabled(s, a) && (Frees(s, a, r) || Gives(s, a, r))
    ensures r < |s.heap|
  {
    hide Inv, Fails;
    SharedFacts(s);
  }

  /** The lines of a response, and of the handler, are none of the threads' business. */
  predicate LinesKept(s: State, s': State, r: nat) {
    s'.unsolicited == s.unsolicited && |s.heap| <= |s'.heap| &&
    (r < |s.heap| ==> s'.heap[r].call == s.heap[r].call && s'.heap[r].window == s.heap[r].window) &&
    (|s.heap| <= r < |s'.heap| ==> s'.heap[r].status == Waiting && s'.heap[r].window == [])
  }

  lemma CheckLines(s: State, i: nat, memory: bool, r: nat)
    requires At(s, i, Checking)
    ensures LinesKept(s, DoCheck(s, i, memory), r)
  {
  }

  lemma WriteLines(s: State, i: nat, whole: bool, r: nat)
    requires At(s, i, Writing) && s.response.Some? && s.response.value < |s.heap|
    ensures LinesKept(s, DoWrite(s, i, whole), r)
  {
  }

  lemma ReturnLines(s: State, i: nat, r: nat)
    requires At(s, i, Returning) && s.response.Some? && s.response.value < |s.heap|
    ensures LinesKept(s, DoReturn(s, i), r)
  {
    hide GetError;
  }

  lemma FinishLines(s: State, i: nat, r: nat)
    requires At(s, i, Finishing) && (s.response.Some? ==> s.response.value < |s.heap|)
    ensures LinesKept(s, DoFinish(s, i), r)
  {
  }

  lemma WrapLines(s: State, i: nat, r: nat)
    requires At(s, i, Wrapping) && (s.threads[i].out.Some? ==> s.threads[i].out.value < |s.heap|)
    ensures LinesKept(s, DoWrap(s, i), r)
  {
    hide WrapError;
  }

  lemma ThreadLines(s: State, a: Action, r: nat)
    requires Enabled(s, a) && !a.Process?
    ensures LinesKept(s, Next(s, a), r)
  {
    hide LinesKept, DoCheck, DoWrite, DoReturn, DoFinish, DoWrap;
    match a {
      case Check(i, memory) => CheckLines(s, i, memory, r);
      case Write(i, whole) => WriteLines(s, i, whole, r);
      case Return(i) => ReturnLines(s, i, r);
      case Finish(i) => FinishLines(s, i, r);
      case Wrap(i) => WrapLines(s, i, r);
      case _ => OtherLines(s, a, r);
    }
  }

  lemma OtherLines(s: State, a: Action, r: nat)
    requires Enabled(s, a) && !Touches(a)
    ensures LinesKept(s, Next(s, a), r)
  {
    hide Next, Enabled;
    OthersTouchNothing(s, a);
  }

  /** A response that is allocated is pending, and has no lines yet. */
  lemma NewIsPending(s: State, a: Action, r: nat)
    requires Inv(s) && Enabled(s, a) && |s.heap| <= r < |Next(s, a).heap|
    ensures Next(s, a).heap[r].status == Waiting && Next(s, a).heap[r].window == []
  {
    hide Inv, Next, Enabled;
    if a.Process? { ProcessLines(s, a, r); } else { ThreadLines(s, a, r); }
  }

  /** In every run every response is freed or given to its caller at most once, and never both: the
      actions that did so are as many as its status tells. */
  lemma {:induction false} SettledOnce(states: seq<State>, actions: seq<Action>, k: nat, r: nat)
    requires Run(states, actions) && k <= |actions|
    ensures var heap := states[k].heap;
      FreeCount(states, actions, k, r) == (if r < |heap| && heap[r].status == Freed then 1 else 0) &&
      GiveCount(states, actions, k, r) == (if r < |heap| && heap[r].status == Given then 1 else 0)
  {
    hide Inv, Next, Enabled, Frees, Gives, Takes;
    if k > 0 {
      SettledOnce(states, actions, k - 1, r);
      RunInv(states, actions, k - 1);
      var s, a := states[k - 1], actions[k - 1];
      if r < |s.heap| {
        StatusMoves(s, a, r);
      } else {
        if Frees(s, a, r) || Gives(s, a, r) { OnlyExisting(s, a, r); }
        if r < |Next(s, a).heap| { NewIsPending(s, a, r); }
      }
    }
  }

  /** When no call is under way, nothing is pending, and every response ever allocated has been freed
      or given to its caller. */
  lemma NothingLeaks(states: seq<State>, actions: seq<Action>, k: nat, r: nat)
    requires Run(states, actions) && k <= |actions| && r < |states[k].heap|
    requires forall i :: 0 <= i < |states[k].threads| ==> states[k].threads[i].pc == Idle
    ensures states[k].response == None
    ensures FreeCount(states, actions, k, r) + GiveCount(states, actions, k, r) == 1
  {
    hide Inv, AbsorbAll, Next, Enabled;
    RunInv(states, actions, k);
    SharedFacts(states[k]);
    ResponseFacts(states[k], r);
    if states[k].request.Some? { ThreadFacts(states[k], states[k].request.value); }
    SettledOnce(states, actions, k, r);
  }

  // ---------------------------------------------------------------- lines

  /** The line that an action processes, if it does. */
  function LineOf(s: State, a: Action): seq<string> {
    if a.Process? && s.reader.Processing? then [s.reader.line] else []
  }

  /** The lines that the first `k` actions process while the pending response is `r`, or while there is none. */
  ghost function ProcessedLines(states: seq<State>, actions: seq<Action>, k: nat, r: Option<nat>): seq<string>
    requires k <= |actions| < |states|
  {
    if k == 0 then []
    else
      ProcessedLines(states, actions, k - 1, r) +
      if states[k - 1].response == r then LineOf(states[k - 1], actions[k - 1]) else []
  }

  /** What a list has grown by. */
  function More(before: seq<string>, after: seq<string>): seq<string> {
    if |before| <= |after| then after[|before|..] else []
  }

  /** What the unsolicited handler is given by then while the pending response is `r`, or while there is none. */
  ghost function Handed(states: seq<State>, k: nat, r: Option<nat>): seq<string>
    requires k < |states|
  {
    if k == 0 then []
    else
      Handed(states, k - 1, r) +
      if states[k - 1].response == r then More(states[k - 1].unsolicited, states[k].unsolicited) else []
  }

  /** What one action does to the lines of a response, and to the unsolicited handler. */
  lemma LineStep(s: State, a: Action, r: nat)
    requires Inv(s) && Enabled(s, a)
    ensures var s' := Next(s, a); var lines := LineOf(s, a);
      s.unsolicited <= s'.unsolicited && |s.heap| <= |s'.heap| &&
      (s.response.None? ==> More(s.unsolicited, s'.unsolicited) == lines) &&
      (r < |s.heap| ==>
        s'.heap[r].call == s.heap[r].call &&
        s'.heap[r].window == s.heap[r].window + (if s.response == Some(r) then lines else []) &&
        (s.response == Some(r) ==>
          More(s.unsolicited, s'.unsolicited) ==
            if lines != [] && Classify(s.heap[r].content, lines[0]) == Unsolicited then lines else []))
  {
    hide Inv, AbsorbAll, Absorb, Classify, Next, Enabled;
    if a.Process? {
      ProcessLines(s, a, r);
    } else {
      ThreadLines(s, a, r);
    }
  }

  lemma LinesProcessed(s: State, whole: bool, woken: nat, r: nat)
    requires s.reader.Processing?
    requires s.response.Some? ==> s.response.value < |s.heap| && s.heap[s.response.value].content.pdu == s.smsPdu
    ensures var s' := DoProcess(s, whole, woken); var line := s.reader.line;
      |s.heap| == |s'.heap| && (s.response.None? ==> s'.unsolicited == s.unsolicited + [line]) &&
      (s.response.Some? ==>
        var unsolicited := Classify(s.heap[s.response.value].content, line) == Unsolicited;
        s'.unsolicited == s.unsolicited + if unsolicited then [line] else []) &&
      (r < |s.heap| ==>
        s'.heap[r].call == s.heap[r].call &&
        s'.heap[r].window == s.heap[r].window + (if s.response == Some(r) then [line] else []))
  {
    hide Absorb, Classify;
    if s.response.Some? {
      var e := s.heap[s.response.value];
      assert e.content.(pdu := s.smsPdu) == e.content;
    }
  }

  lemma ProcessLines(s: State, a: Action, r: nat)
    requires Inv(s) && Enabled(s, a) && a.Process?
    ensures s.reader.Processing?
    ensures var s' := Next(s, a); var line := s.reader.line;
      s.unsolicited <= s'.unsolicited && |s.heap| == |s'.heap| &&
      (s.response.None? ==> s'.unsolicited == s.unsolicited + [line]) &&
      (r < |s.heap| ==>
        s'.heap[r].call == s.heap[r].call &&
        s'.heap[r].window == s.heap[r].window + (if s.response == Some(r) then [line] else []) &&
        (s.response == Some(r) ==>
          s'.unsolicited == s.unsolicited + if Classify(s.heap[r].content, line) == Unsolicited then [line] else []))
  {
    hide Inv, DoProcess;
    assert Next(s, a) == DoProcess(s, a.whole, a.woken);
    if s.response.Some? { OwnerWaits(s); }
    LinesProcessed(s, a.whole, a.woken, r);
  }

  /** The window of a response is what was processed while it was pending; of that the unsolicited
      handler was given, in order, exactly what was not a final response, its prompt or an intermediate
      response. */
  lemma {:induction false} LinesAccounted(states: seq<State>, actions: seq<Action>, k: nat, r: nat)
    requires Run(states, actions) && k <= |actions|
    ensures if r < |states[k].heap| then
        var e := states[k].heap[r];
        ProcessedLines(states, actions, k, Some(r)) == e.window &&
        Handed(states, k, Some(r)) == Went(NewPending(e.call.Kind(), e.call.prefix, e.call.pdu), e.window, Unsolicited)
      else ProcessedLines(states, actions, k, Some(r)) == [] == Handed(states, k, Some(r))
  {
    hide Inv, Next, Enabled, AbsorbAll, Classify, Went;
    if k > 0 {
      LinesAccounted(states, actions, k - 1, r);
      RunInv(states, actions, k - 1);
      var s, a := states[k - 1], actions[k - 1];
      LineStep(s, a, r);
      SharedFacts(s);
      if r < |s.heap| {
        ResponseFacts(s, r);
        var e := s.heap[r];
        var p := NewPending(e.call.Kind(), e.call.prefix, e.call.pdu);
        assert e.content == AbsorbAll(p, e.window);
        if s.response == Some(r) && LineOf(s, a) != [] {
          WentStep(p, e.window, LineOf(s, a)[0], Unsolicited);
        } else {
          assert states[k].heap[r].window == e.window;
        }
      } else if r < |states[k].heap| {
        NewIsPending(s, a, r);
        var e := states[k].heap[r];
        NothingWent(NewPending(e.call.Kind(), e.call.prefix, e.call.pdu), []);
      }
    }
  }

  /** All lines that come in with nothing pending go to the unsolicited handler, in order. */
  lemma {:induction false} LooseLines(states: seq<State>, actions: seq<Action>, k: nat)
    requires Run(states, actions) && k <= |actions|
    ensures Handed(states, k, None) == ProcessedLines(states, actions, k, None)
  {
    hide Inv, Next, Enabled;
    if k > 0 {
      LooseLines(states, actions, k - 1);
      RunInv(states, actions, k - 1);
      LineStep(states[k - 1], actions[k - 1], 0);
    }
  }

  /** Line conservation over a run: what is processed while a response is pending is, each line once,
      the final responses, of which the last is kept; the prompt, if its text was sent; the intermediate
      responses; and what the unsolicited handler was given meanwhile. */
  lemma RunConserves(states: seq<State>, actions: seq<Action>, k: nat, r: nat)
    requires Run(states, actions) && k <= |actions| && r < |states[k].heap|
    ensures var e := states[k].heap[r];
      var finals := Went(NewPending(e.call.Kind(), e.call.prefix, e.call.pdu), e.window, Final);
      e.content.final == Last(finals) &&
      multiset(ProcessedLines(states, actions, k, Some(r))) ==
        multiset(finals) + multiset(if e.call.pdu.Some? && e.content.pdu.None? then [LineReaders.PROMPT] else []) +
        multiset(e.content.intermediates) + multiset(Handed(states, k, Some(r)))
  {
    hide Inv, AbsorbAll, Went, Next, Enabled;
    RunInv(states, actions, k);
    ResponseFacts(states[k], r);
    var e := states[k].heap[r];
    LinesAccounted(states, actions, k, r);
    LinesConserved(e.call.Kind(), e.call.prefix, e.call.pdu, e.window);
  }
}
