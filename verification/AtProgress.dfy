/**
  Progress on the AT channel: without new input, what is under way always comes to rest, and exactly
  when a call is left waiting there.
 */
module AtProgress {
  import opened Options
  import opened AtLines
  import opened AtErrors
  import opened AtChannel
  import opened AtSafety
  import opened AtRuns

  // ---------------------------------------------------------------- the channel's own actions

  /** Actions that come from outside: new calls and closing, what the other side sends or that it hangs
      up, and waits that end for no reason.  All others are the channel's own. */
  predicate Foreign(a: Action) {
    a.Begin? || a.CloseFd? || a.CloseChannel? || a.Receive? || a.EndOfFile? || a.WakeUp? || a.Stir?
  }

  /** Something can happen that does not come from outside. */
  ghost predicate CanGoOn(s: State) { exists a: Action :: !Foreign(a) && Enabled(s, a) }

  lemma Goes(s: State, a: Action)
    requires !Foreign(a) && Enabled(s, a)
    ensures CanGoOn(s)
  {
  }

  /** A command without time limit waits for its final response, all other calls wait for that command,
      and the reader waits for a line or is gone. */
  ghost predicate Waiting(s: State) {
    (s.reader == Reading || s.reader == Gone) && s.command == None &&
    s.request.Some? && At(s, s.request.value, Sleeping) && !s.threads[s.request.value].call.limited &&
    forall i :: 0 <= i < |s.threads| && i != s.request.value ==>
      s.threads[i].pc == Idle || s.threads[i].pc == Parked
  }

  lemma WaitingStays(s: State, a: Action)
    requires Waiting(s) && !Foreign(a)
    ensures !Enabled(s, a)
  {
  }

  /** Somebody can be signalled, if anybody sleeps. */
  lemma SignalsSomeone(s: State) returns (woken: nat)
    ensures Signals(s, woken)
  {
    if j :| 0 <= j < |s.threads| && s.threads[j].pc == Sleeping {
      return j;
    } else {
      return 0;
    }
  }

  // ---------------------------------------------------------------- who can go on

  lemma HolderAt(s: State, j: nat)
    requires j < |s.threads| && ThreadOk(s, j) && s.command == Some(AThread(j))
    ensures HasCommand(s.threads[j].pc)
  {
  }

  /** The thread that has the command mutex. */
  lemma HolderGoesOn(s: State, j: nat)
    requires Inv(s) && s.command == Some(AThread(j))
    ensures CanGoOn(s)
  {
    hide Inv, CanGoOn, OutOk, TextOk;
    SharedFacts(s);
    ThreadFacts(s, j);
    HolderAt(s, j);
    var pc := s.threads[j].pc;
    var a :=
      if pc == Trying then Try(j) else if pc == Checking then Check(j, true) else if pc == Writing then Write(j, true)
      else if pc == Testing then Test(j) else if pc == Returning then Return(j) else if pc == Finishing then Finish(j)
      else if pc == Releasing then Release(j) else Leave(j);
    assert Enabled(s, a);
    Goes(s, a);
  }

  /** A thread that needs the command mutex only, or nothing. */
  predicate Free(t: Thread) {
    t.pc == Starting || t.pc == Woken || t.pc == Roused || t.pc == Expired || t.pc == Wrapping ||
    (t.pc == Sleeping && t.call.limited)
  }

  lemma FreeGoesOn(s: State, j: nat)
    requires Inv(s) && s.command == None && j < |s.threads| && Free(s.threads[j])
    ensures CanGoOn(s)
  {
    hide Inv, CanGoOn, LocksOk, PendingOk, TextOk;
    ThreadFacts(s, j);
    var pc := s.threads[j].pc;
    var a :=
      if pc == Starting then Lock(j) else if pc == Woken then Relock(j) else if pc == Roused then Resume(j)
      else if pc == Expired then GiveUp(j) else if pc == Wrapping then Wrap(j) else Expire(j);
    assert Enabled(s, a);
    Goes(s, a);
  }

  /** The reader with a line, or at the end of the stream. */
  lemma ReaderGoesOn(s: State)
    requires Inv(s) && (s.reader.Processing? || (s.command == None && s.reader == Closing))
    ensures CanGoOn(s)
  {
    hide Inv, CanGoOn;
    SharedFacts(s);
    var woken := SignalsSomeone(s);
    var a := if s.reader.Processing? then Process(true, woken) else ReaderCloses(woken);
    assert Enabled(s, a);
    Goes(s, a);
  }

  /** With a free command mutex, a thread that sleeps or is parked waits for the modem, or for the one
      that does. */
  lemma WaitsForModem(s: State, i: nat)
    requires Inv(s) && s.command == None && i < |s.threads|
    requires s.threads[i].pc == Parked || s.threads[i].pc == Sleeping
    ensures s.request.Some? && s.request.value < |s.threads|
    ensures s.threads[i].pc == Sleeping ==> s.request == Some(i)
    ensures var pc := s.threads[s.request.value].pc; pc == Sleeping || pc == Roused || pc == Expired
  {
    hide Inv;
    SharedFacts(s);
    ThreadFacts(s, i);
    ThreadFacts(s, s.request.value);
  }

  lemma CommandFree(s: State, i: nat)
    requires Inv(s) && s.command == None && i < |s.threads|
    ensures !HasCommand(s.threads[i].pc)
  {
    hide Inv;
    ThreadFacts(s, i);
  }

  lemma AllWait(s: State, i: nat)
    requires Inv(s) && s.command == None && (s.reader == Reading || s.reader == Gone)
    requires i < |s.threads| && s.threads[i].pc != Idle
    requires forall j :: 0 <= j < |s.threads| ==> !Free(s.threads[j])
    ensures Waiting(s)
  {
    hide Inv;
    CommandFree(s, i);
    WaitsForModem(s, i);
    forall j | 0 <= j < |s.threads| && j != s.request.value
      ensures s.threads[j].pc == Idle || s.threads[j].pc == Parked
    {
      CommandFree(s, j);
      if s.threads[j].pc == Sleeping { WaitsForModem(s, j); }
    }
  }

  lemma Going(s: State) returns (a: Action)
    requires CanGoOn(s)
    ensures !Foreign(a) && Enabled(s, a)
  {
    a :| !Foreign(a) && Enabled(s, a);
  }

  /** While a call is under way the channel can go on by itself, exactly unless it waits for the modem. */
  lemma GoesOnIff(s: State, i: nat)
    requires Inv(s) && i < |s.threads| && s.threads[i].pc != Idle
    ensures CanGoOn(s) <==> !Waiting(s)
  {
    hide Inv, Enabled, CanGoOn;
    if Waiting(s) {
      if CanGoOn(s) {
        var a := Going(s);
        WaitingStays(s, a);
      }
    } else if s.command.Some? && s.command.value.AThread? {
      HolderGoesOn(s, s.command.value.i);
    } else if s.command.Some? || s.reader == Closing {
      SharedFacts(s);
      ReaderGoesOn(s);
    } else if j :| 0 <= j < |s.threads| && Free(s.threads[j]) {
      FreeGoesOn(s, j);
    } else {
      SharedFacts(s);
      AllWait(s, i);
    }
  }

  // ---------------------------------------------------------------- coming to rest

  /** How far a thread is from the end of its attempt. */
  function Rank(pc: Pc): nat {
    match pc
    case Idle => 0
    case Wrapping => 1
    case Leaving => 2
    case Finishing => 3
    case Returning => 4
    case Expired => 4
    case Sleeping => 5
    case Testing => 6
    case Roused => 7
    case Writing => 8
    case Checking => 9
    case Parked => 9
    case Trying => 10
    case Woken => 11
    case Starting => 12
    case Releasing => 12
  }

  /** The times that the thread is still going to clear a command, with all attempts of a handshake. */
  function Attempts(t: Thread): nat {
    if t.pc == Idle || t.pc == Wrapping || t.pc == Leaving then 0
    else
      var done := if t.pc == Releasing then t.tries + 1 else t.tries;
      if t.call.wrapper == Handshake && done < HANDSHAKE_RETRY_COUNT then HANDSHAKE_RETRY_COUNT - done
      else if t.pc == Releasing then 0
      else 1
  }

  /** Clearing a command wakes all parked threads, which weighs less than the attempt that ends. */
  function Effort(t: Thread, weight: nat): nat { weight * Attempts(t) + Rank(t.pc) }

  function Efforts(threads: seq<Thread>, weight: nat): nat {
    if |threads| == 0 then 0
    else Efforts(threads[..|threads| - 1], weight) + Effort(threads[|threads| - 1], weight)
  }

  function ReaderRank(reader: ReaderPc): nat { if reader.Processing? || reader.Closing? then 3 else 0 }

  /** More than the actions that the channel can take by itself. */
  function Work(s: State): nat { Efforts(s.threads, 2 * |s.threads| + 20) + ReaderRank(s.reader) }

  lemma {:induction false} EffortsUpdate(threads: seq<Thread>, i: nat, t: Thread, weight: nat)
    requires i < |threads|
    ensures Efforts(threads[i := t], weight) + Effort(threads[i], weight) ==
      Efforts(threads, weight) + Effort(t, weight)
  {
    hide Effort;
    var n := |threads| - 1;
    if i < n {
      EffortsUpdate(threads[..n], i, t, weight);
      assert threads[i := t][..n] == threads[..n][i := t];
    } else {
      assert threads[i := t][..n] == threads[..n];
    }
  }

  lemma {:induction false} BroadcastEfforts(threads: seq<Thread>, weight: nat)
    ensures Efforts(Broadcast(threads), weight) <= Efforts(threads, weight) + 2 * |threads|
  {
    if |threads| > 0 {
      var n := |threads| - 1;
      BroadcastEfforts(threads[..n], weight);
      assert Broadcast(threads)[..n] == Broadcast(threads[..n]);
      var t := threads[n];
      assert Effort(if t.pc == Parked then t.(pc := Woken) else t, weight) <= Effort(t, weight) + 2 by {
        assert Attempts(if t.pc == Parked then t.(pc := Woken) else t) == Attempts(t);
      }
    }
  }

  /** An action that moves one thread on, within its attempt or out of it. */
  lemma OneMoves(s: State, s': State, i: nat)
    requires MovesOn(s, s', i) && Attempts(s'.threads[i]) <= Attempts(s.threads[i])
    ensures Work(s') < Work(s)
  {
    hide Attempts, Rank, Efforts;
    var weight := 2 * |s.threads| + 20;
    EffortsUpdate(s.threads, i, s'.threads[i], weight);
    Weighs(weight, Attempts(s'.threads[i]), Attempts(s.threads[i]));
  }

  lemma Weighs(weight: nat, a: nat, b: nat)
    ensures a <= b ==> weight * a <= weight * b
    ensures weight * (a + 1) == weight * a + weight
  {
  }

  lemma FinishedThreads(s: State, i: nat)
    requires At(s, i, Finishing) && (s.response.Some? ==> s.response.value < |s.heap|)
    ensures var s' := DoFinish(s, i);
      s'.threads == Broadcast(s.threads)[i := s.threads[i].(pc := Releasing)] && s'.reader == s.reader &&
      Broadcast(s.threads)[i] == s.threads[i]
  {
  }

  lemma OneLess(t: Thread)
    requires t.pc == Finishing
    ensures Attempts(t) == Attempts(t.(pc := Releasing)) + 1
  {
  }

  lemma FinishWork(s: State, i: nat)
    requires At(s, i, Finishing) && (s.response.Some? ==> s.response.value < |s.heap|)
    ensures Work(DoFinish(s, i)) < Work(s)
  {
    hide Attempts, DoFinish, Efforts, Broadcast;
    var weight := 2 * |s.threads| + 20;
    var t, t' := s.threads[i], s.threads[i].(pc := Releasing);
    FinishedThreads(s, i);
    OneLess(t);
    BroadcastEfforts(s.threads, weight);
    EffortsUpdate(Broadcast(s.threads), i, t', weight);
    Weighs(weight, Attempts(t'), 0);
  }

  lemma RousedEffort(t: Thread, weight: nat)
    requires t.pc == Sleeping
    ensures Effort(t.(pc := Roused), weight) == Effort(t, weight) + 2
  {
    assert Attempts(t.(pc := Roused)) == Attempts(t);
  }

  /** The reader's actions may rouse one sleeper. */
  lemma ReaderWork(s: State, s': State, woken: nat)
    requires ReaderRank(s.reader) == 3 && ReaderRank(s'.reader) == 0
    requires s'.threads == s.threads || s'.threads == Signalled(s, woken).threads
    ensures Work(s') < Work(s)
  {
    hide Effort, Efforts;
    var weight := 2 * |s.threads| + 20;
    if At(s, woken, Sleeping) {
      var t := s.threads[woken];
      RousedEffort(t, weight);
      EffortsUpdate(s.threads, woken, t.(pc := Roused), weight);
    }
  }

  /** Each of the channel's own actions leaves less work. */
  lemma WorkShrinks(s: State, a: Action)
    requires Enabled(s, a) && !Foreign(a)
    ensures Work(Next(s, a)) < Work(s)
  {
    hide Work, Attempts, Rank, DoFinish, DoProcess;
    if a.Finish? {
      FinishWork(s, a.i);
    } else if a.Process? {
      ProcessMoves(s, a.whole, a.woken);
      ReaderWork(s, Next(s, a), a.woken);
    } else if a.ReaderCloses? {
      ReaderWork(s, Next(s, a), a.woken);
    } else {
      ThreadMoves(s, a);
      OneMoves(s, Next(s, a), a.i);
    }
  }

  lemma ProcessMoves(s: State, whole: bool, woken: nat)
    requires s.reader.Processing? && (s.response.Some? ==> s.response.value < |s.heap|)
    ensures var s' := DoProcess(s, whole, woken);
      s'.reader == Reading && (s'.threads == s.threads || s'.threads == Signalled(s, woken).threads)
  {
  }

  /** An action moves thread `i` on, and nobody else. */
  predicate MovesOn(s: State, s': State, i: nat) {
    i < |s.threads| == |s'.threads| && s'.threads == s.threads[i := s'.threads[i]] && s'.reader == s.reader &&
    Rank(s'.threads[i].pc) < Rank(s.threads[i].pc)
  }

  /** And within the same attempt of the same call. */
  predicate SameAttempt(t: Thread, t': Thread) {
    t'.call == t.call && t'.tries == t.tries && t.pc != Releasing && t'.pc != Releasing
  }

  lemma LocksMoves(s: State, a: Action)
    requires Enabled(s, a) && (a.Lock? || a.Relock?)
    ensures MovesOn(s, Next(s, a), a.i) && SameAttempt(s.threads[a.i], Next(s, a).threads[a.i])
  {
    hide Cut;
  }

  lemma AsksMoves(s: State, a: Action)
    requires Enabled(s, a) && (a.Try? || a.Check?)
    ensures MovesOn(s, Next(s, a), a.i) && SameAttempt(s.threads[a.i], Next(s, a).threads[a.i])
  {
    hide NewPending;
  }

  lemma WaitsMoves(s: State, a: Action)
    requires Enabled(s, a) && (a.Write? || a.Test? || a.Expire? || a.Resume? || a.GiveUp?)
    ensures MovesOn(s, Next(s, a), a.i) && SameAttempt(s.threads[a.i], Next(s, a).threads[a.i])
  {
    hide Cut;
  }

  lemma EndsMoves(s: State, a: Action)
    requires Enabled(s, a) && (a.Return? || a.Leave? || a.Wrap?)
    ensures MovesOn(s, Next(s, a), a.i) && SameAttempt(s.threads[a.i], Next(s, a).threads[a.i])
  {
    hide GetError, WrapError;
  }

  lemma AttemptsStay(t: Thread, t': Thread)
    requires SameAttempt(t, t') && Rank(t'.pc) < Rank(t.pc)
    ensures Attempts(t') <= Attempts(t)
  {
  }

  /** A handshake may try again, which it does less often then. */
  lemma ReleaseMoves(s: State, i: nat)
    requires At(s, i, Releasing)
    ensures var s' := DoRelease(s, i); MovesOn(s, s', i) && Attempts(s'.threads[i]) <= Attempts(s.threads[i])
  {
  }

  lemma ThreadMoves(s: State, a: Action)
    requires Enabled(s, a) && !Foreign(a) && !a.Finish? && !a.Process? && !a.ReaderCloses?
    ensures MovesOn(s, Next(s, a), a.i) && Attempts(Next(s, a).threads[a.i]) <= Attempts(s.threads[a.i])
  {
    hide MovesOn, SameAttempt, DoRelease;
    if a.Release? {
      ReleaseMoves(s, a.i);
    } else {
      OthersMove(s, a);
      MovedOn(s, Next(s, a), a.i);
      AttemptsStay(s.threads[a.i], Next(s, a).threads[a.i]);
    }
  }

  lemma OthersMove(s: State, a: Action)
    requires Enabled(s, a) && !Foreign(a) && !a.Finish? && !a.Process? && !a.ReaderCloses? && !a.Release?
    ensures MovesOn(s, Next(s, a), a.i) && SameAttempt(s.threads[a.i], Next(s, a).threads[a.i])
  {
    hide Next, MovesOn, SameAttempt;
    if a.Lock? || a.Relock? {
      LocksMoves(s, a);
    } else if a.Try? || a.Check? {
      AsksMoves(s, a);
    } else if a.Write? || a.Test? || a.Expire? || a.Resume? || a.GiveUp? {
      WaitsMoves(s, a);
    } else {
      EndsMoves(s, a);
    }
  }

  lemma MovedOn(s: State, s': State, i: nat)
    requires MovesOn(s, s', i)
    ensures i < |s.threads| == |s'.threads| && Rank(s'.threads[i].pc) < Rank(s.threads[i].pc)
  {
  }

  /** A stretch of a run in which nothing comes from outside. */
  ghost predicate OwnSteps(states: seq<State>, actions: seq<Action>) {
    |states| == |actions| + 1 &&
    forall k {:trigger actions[k]} :: 0 <= k < |actions| ==>
      !Foreign(actions[k]) && Enabled(states[k], actions[k]) && states[k + 1] == Next(states[k], actions[k])
  }

  /** However the channel goes on by itself, it takes no more actions than it has work, which depends
      only on where its threads are. */
  lemma {:induction false} ComesToRest(states: seq<State>, actions: seq<Action>, k: nat)
    requires OwnSteps(states, actions) && k <= |actions|
    ensures k + Work(states[k]) <= Work(states[0])
  {
    hide Work, Next, Enabled;
    if k > 0 {
      ComesToRest(states, actions, k - 1);
      var a := actions[k - 1];
      WorkShrinks(states[k - 1], a);
    }
  }

  lemma {:induction false} OwnInv(states: seq<State>, actions: seq<Action>, k: nat)
    requires OwnSteps(states, actions) && Inv(states[0]) && k <= |actions|
    ensures Inv(states[k])
  {
    hide Inv, Next, Enabled;
    if k > 0 {
      OwnInv(states, actions, k - 1);
      var a := actions[k - 1];
      InvKept(states[k - 1], a);
    }
  }

  /** Where it comes to rest, all calls have returned, or they wait for the modem. */
  lemma RestsIff(states: seq<State>, actions: seq<Action>)
    requires OwnSteps(states, actions) && Inv(states[0])
    requires exists i {:trigger states[|actions|].threads[i]} ::
      0 <= i < |states[|actions|].threads| && states[|actions|].threads[i].pc != Idle
    ensures !CanGoOn(states[|actions|]) <==> Waiting(states[|actions|])
  {
    hide Inv, CanGoOn, Waiting, Next, Enabled;
    OwnInv(states, actions, |actions|);
    var s := states[|actions|];
    var i :| 0 <= i < |s.threads| && s.threads[i].pc != Idle;
    GoesOnIff(s, i);
  }

  /** A final response gets the waiting command going again. */
  lemma FinalReleases(s: State, line: string, whole: bool)
    requires Inv(s) && Waiting(s) && s.reader == Reading && IsFinal(line)
    ensures Enabled(s, Receive(line)) && Enabled(Next(s, Receive(line)), Process(whole, s.request.value))
    ensures var s' := Next(Next(s, Receive(line)), Process(whole, s.request.value));
      At(s', s.request.value, Roused) && CanGoOn(s')
  {
    hide Inv, IsFinal, CanGoOn, Absorb;
    var i := s.request.value;
    SharedFacts(s);
    ThreadFacts(s, i);
    InvKept(s, Receive(line));
    var s1 := Next(s, Receive(line));
    assert s1.threads == s.threads && s1.heap == s.heap && s1.response == s.response;
    var p := s.heap[s.response.value].content.(pdu := s.smsPdu);
    assert Classify(p, line) == Final;
    InvKept(s1, Process(whole, i));
    var s2 := DoProcess(s1, whole, i);
    assert At(s2, i, Roused) && s2.command == None;
    FreeGoesOn(s2, i);
  }

  // ---------------------------------------------------------------- every run

  /** The end of the stream is always reported to a callback. */
  predicate Reported(actions: seq<Action>) {
    forall k :: 0 <= k < |actions| && actions[k].EndOfFile? ==> actions[k].callback
  }

  lemma {:induction false} GoneIsClosed(states: seq<State>, actions: seq<Action>, k: nat)
    requires Run(states, actions) && k < |states| && Reported(actions)
    ensures states[k].reader == Gone ==> states[k].readerClosed
  {
    hide Next, Enabled;
    if k > 0 {
      GoneIsClosed(states, actions, k - 1);
      GoneStep(states[k - 1], actions[k - 1]);
    }
  }

  lemma GoneStep(s: State, a: Action)
    requires Enabled(s, a) && (s.reader == Gone ==> s.readerClosed) && (a.EndOfFile? ==> a.callback)
    ensures Next(s, a).reader == Gone ==> Next(s, a).readerClosed
  {
    hide Absorb, Classify, GetError, WrapError, Broadcast;
  }

  /** No deadlock: in every state of every run in which a call is under way, the channel can go on by
      itself, or it waits for the modem; with a callback for the end of the stream the reader is then
      there to receive the answer. */
  lemma NoDeadlock(states: seq<State>, actions: seq<Action>, k: nat, i: nat)
    requires Run(states, actions) && k < |states| && i < |states[k].threads| && states[k].threads[i].pc != Idle
    ensures CanGoOn(states[k]) <==> !Waiting(states[k])
    ensures Waiting(states[k]) && Reported(actions) ==> states[k].reader == Reading
  {
    hide Inv, Next, Enabled, CanGoOn;
    RunInv(states, actions, k);
    GoesOnIff(states[k], i);
    if Waiting(states[k]) && Reported(actions) {
      GoneIsClosed(states, actions, k);
      ThreadFacts(states[k], states[k].request.value);
    }
  }

  /** Without a callback a call can wait for a reader that is gone. */
  lemma StuckReachable()
    ensures exists s: State :: Reachable(s) && Waiting(s) && s.reader == Gone
  {
    hide Reachable;
    ReachFirstSleeps(false);
    var s := FirstSleeps(false);
    ReachNext(s, EndOfFile(false));
    assert Waiting(Next(s, EndOfFile(false)));
  }

  /** A silent modem leaves a command without time limit waiting. */
  lemma SilentModem()
    ensures exists s: State :: Reachable(s) && Waiting(s) && s.reader == Reading
  {
    hide Reachable;
    ReachFirstSleeps(false);
    assert Waiting(FirstSleeps(false));
  }
}
