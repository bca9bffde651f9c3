/**
  How many requests a call on the AT channel makes: one, or for the handshake as many as it takes, up to
  eight.
 */
module AtRetries {
  import opened Options
  import opened AtErrors
  import opened AtChannel
  import opened AtSafety
  import opened AtEndings

  /** The requests of the current or last call of thread `i` after an action: none before its first call. */
  function AskedBy(a: Action, i: nat, before: Option<nat>): Option<nat> {
    match a
    case Begin(j, _) => if j == i then Some(0) else before
    case Check(j, _) => if j == i && before.Some? then Some(before.value + 1) else before
    case _ => before
  }

  /** The requests of the current or last call of thread `i` in the first `k` actions. */
  function Asked(actions: seq<Action>, k: nat, i: nat): Option<nat>
    requires k <= |actions|
  {
    if k == 0 then None else AskedBy(actions[k - 1], i, Asked(actions, k - 1, i))
  }

  // ---------------------------------------------------------------- along a run

  predicate Asks(pc: Pc) { pc == Writing || HasWritten(pc) || pc == Finishing || pc == Releasing }

  predicate Wants(pc: Pc) { pc == Trying || pc == Parked || pc == Woken || pc == Checking }

  predicate Ends(pc: Pc) { pc == Leaving || pc == Wrapping || pc == Idle }

  /** The number of requests agrees with where the thread is: another one is made only after a failure. */
  predicate Counts(t: Thread, n: Option<nat>, e: Ending) {
    var most := if t.call.wrapper == Handshake then 8 else 1;
    (t.pc != Idle ==> n.Some?) &&
    (n.Some? ==>
      (t.pc == Starting ==> n.value == 0 == t.tries && t.out.None?) &&
      (Asks(t.pc) ==> n.value == t.tries + 1 <= most) &&
      (Wants(t.pc) ==> n.value == t.tries < most && (n.value > 0 ==> CodeFor(e) != NO_ERROR)) &&
      (Ends(t.pc) && n.value == 0 ==> t.call.wrapper != Handshake && t.err == STRING_CREATION && t.out.None?) &&
      (Ends(t.pc) ==> n.value <= most && (t.call.wrapper == Handshake && t.err != NO_ERROR ==> n.value == 8)))
  }

  lemma OthersCount(s: State, a: Action, i: nat, n: Option<nat>, e: Ending)
    requires Inv(s) && Enabled(s, a) && i < |s.threads| && !Mine(a, i) && Agrees(s, i, e)
    requires Counts(s.threads[i], n, e)
    ensures i < |Next(s, a).threads| && AskedBy(a, i, n) == n
    ensures Counts(Next(s, a).threads[i], n, EndedBy(s, a, i, e))
  {
    hide Inv, Next, Enabled, CodeFor, Agrees, EndedBy;
    OthersLeave(s, a, i);
    OthersAgree(s, a, i, e);
  }

  lemma OwnCount(s: State, a: Action, i: nat, n: Option<nat>, e: Ending)
    requires Inv(s) && Enabled(s, a) && i < |s.threads| && Mine(a, i) && Agrees(s, i, e)
    requires Counts(s.threads[i], n, e)
    ensures i < |Next(s, a).threads|
    ensures Counts(Next(s, a).threads[i], AskedBy(a, i, n), EndedBy(s, a, i, e))
  {
    hide Inv, Next, Enabled, Agrees, EndedBy, Counts, CodeFor;
    ThreadFacts(s, i);
    match a {
      case Begin(_, call) => BeginCounts(s, i, call, EndedBy(s, a, i, e));
      case Lock(_) => LockCounts(s, i, n, e);
      case Try(_) => TriesCount(s, a, i, n, e);
      case WakeUp(_) => TriesCount(s, a, i, n, e);
      case Relock(_) => TriesCount(s, a, i, n, e);
      case Check(_, memory) => CheckCounts(s, i, memory, n, e);
      case Write(_, _) => WorksCount(s, a, i, n, e);
      case Return(_) => WorksCount(s, a, i, n, e);
      case Finish(_) => WorksCount(s, a, i, n, e);
      case Release(_) => ReleaseCounts(s, i, n, e);
      case Leave(_) => LeaveCounts(s, i, n, e);
      case Wrap(_) => WrapCounts(s, i, n, e);
      case _ => WaitsCount(s, a, i, n, e);
    }
  }

  lemma BeginCounts(s: State, i: nat, call: Call, e: Ending)
    requires Enabled(s, Begin(i, call))
    ensures var s' := Next(s, Begin(i, call));
      i < |s'.threads| && Counts(s'.threads[i], Some(0), e)
  {
    hide CodeFor;
    assert Next(s, Begin(i, call)) == DoBegin(s, i, call);
  }

  lemma LockCounts(s: State, i: nat, n: Option<nat>, e: Ending)
    requires Enabled(s, Lock(i)) && Counts(s.threads[i], n, e)
    ensures var s' := Next(s, Lock(i));
      i < |s'.threads| && Counts(s'.threads[i], n, EndedBy(s, Lock(i), i, e))
  {
    hide Cut, CodeFor, EndedBy;
    assert Next(s, Lock(i)) == DoLock(s, i);
  }

  lemma TriesCount(s: State, a: Action, i: nat, n: Option<nat>, e: Ending)
    requires Enabled(s, a) && Mine(a, i) && i < |s.threads| && Counts(s.threads[i], n, e)
    requires a.Try? || a.WakeUp? || a.Relock?
    ensures i < |Next(s, a).threads| && Counts(Next(s, a).threads[i], AskedBy(a, i, n), EndedBy(s, a, i, e))
  {
    hide CodeFor;
  }

  lemma CheckCounts(s: State, i: nat, memory: bool, n: Option<nat>, e: Ending)
    requires Enabled(s, Check(i, memory)) && Counts(s.threads[i], n, e)
    ensures var s' := Next(s, Check(i, memory));
      i < |s'.threads| && Counts(s'.threads[i], AskedBy(Check(i, memory), i, n), EndedBy(s, Check(i, memory), i, e))
  {
    hide CodeFor, EndedBy;
    assert Next(s, Check(i, memory)) == DoCheck(s, i, memory);
  }

  lemma WorksCount(s: State, a: Action, i: nat, n: Option<nat>, e: Ending)
    requires Enabled(s, a) && Mine(a, i) && i < |s.threads| && Counts(s.threads[i], n, e)
    requires a.Write? || a.Return? || a.Finish?
    ensures i < |Next(s, a).threads| && Counts(Next(s, a).threads[i], n, EndedBy(s, a, i, e))
  {
    hide Cut, CodeFor, GetError, EndedBy;
  }

  /** The handshake goes on after a failure. */
  lemma ReleaseCounts(s: State, i: nat, n: Option<nat>, e: Ending)
    requires Enabled(s, Release(i)) && Agrees(s, i, e) && Counts(s.threads[i], n, e)
    ensures var s' := Next(s, Release(i));
      i < |s'.threads| && Counts(s'.threads[i], AskedBy(Release(i), i, n), EndedBy(s, Release(i), i, e))
  {
    hide CodeFor;
    assert Next(s, Release(i)) == DoRelease(s, i);
  }

  lemma LeaveCounts(s: State, i: nat, n: Option<nat>, e: Ending)
    requires Enabled(s, Leave(i)) && Counts(s.threads[i], n, e)
    ensures var s' := Next(s, Leave(i));
      i < |s'.threads| && Counts(s'.threads[i], AskedBy(Leave(i), i, n), EndedBy(s, Leave(i), i, e))
  {
    hide CodeFor;
    assert Next(s, Leave(i)) == DoLeave(s, i);
  }

  lemma WrapKeeps(s: State, i: nat)
    requires Enabled(s, Wrap(i))
    ensures var s' := Next(s, Wrap(i));
      i < |s'.threads| && var t, t' := s.threads[i], s'.threads[i];
      t'.pc == Idle && t'.call == t.call && t'.tries == t.tries && (t.out.None? ==> t'.err == t.err && t'.out.None?)
  {
    hide WrapError;
    assert Next(s, Wrap(i)) == DoWrap(s, i);
  }

  /** A handshake asks for no response. */
  lemma NothingOut(s: State, i: nat)
    requires At(s, i, Wrapping) && ThreadOk(s, i)
    ensures s.threads[i].call.wrapper == Handshake ==> s.threads[i].out.None?
  {
    hide GetError, LocksOk, PendingOk, AnswerOk, Answered;
  }

  lemma WrapCounts(s: State, i: nat, n: Option<nat>, e: Ending)
    requires Enabled(s, Wrap(i)) && ThreadOk(s, i) && Counts(s.threads[i], n, e)
    ensures var s' := Next(s, Wrap(i));
      i < |s'.threads| && Counts(s'.threads[i], AskedBy(Wrap(i), i, n), EndedBy(s, Wrap(i), i, e))
  {
    hide CodeFor, ThreadOk, Next;
    WrapKeeps(s, i);
    NothingOut(s, i);
  }

  lemma WaitsCount(s: State, a: Action, i: nat, n: Option<nat>, e: Ending)
    requires Enabled(s, a) && Mine(a, i) && i < |s.threads| && Counts(s.threads[i], n, e)
    requires a.Test? || a.Stir? || a.Expire? || a.Resume? || a.GiveUp?
    ensures i < |Next(s, a).threads| && Counts(Next(s, a).threads[i], AskedBy(a, i, n), EndedBy(s, a, i, e))
  {
    hide CodeFor;
  }

  lemma {:induction false} AlwaysCounts(states: seq<State>, actions: seq<Action>, k: nat, i: nat)
    requires Run(states, actions) && k <= |actions| && i < |states[k].threads|
    ensures Counts(states[k].threads[i], Asked(actions, k, i), EndingOf(states, actions, k, i))
  {
    hide Inv, Next, Enabled, Agrees, EndedBy, Counts;
    if k == 0 {
      FirstCounts(states[0], i);
    } else {
      SameThreads(states, actions, k);
      AlwaysCounts(states, actions, k - 1, i);
      AlwaysAgrees(states, actions, k - 1, i);
      RunInv(states, actions, k - 1);
      var s, a := states[k - 1], actions[k - 1];
      var n, e := Asked(actions, k - 1, i), EndingOf(states, actions, k - 1, i);
      if Mine(a, i) { OwnCount(s, a, i, n, e); } else { OthersCount(s, a, i, n, e); }
    }
  }

  lemma FirstCounts(s: State, i: nat)
    requires Initial(s) && i < |s.threads|
    ensures Counts(s.threads[i], None, Open)
  {
    assert s.threads[i].pc == Idle;
  }

  // ---------------------------------------------------------------- the results

  /** A returned call has made one request, or none if its command was formatted into nothing; a handshake
      has made between one and eight, and all eight unless one succeeded. */
  lemma RequestsMade(states: seq<State>, actions: seq<Action>, k: nat, i: nat)
    requires Run(states, actions) && k <= |actions| && At(states[k], i, Idle)
    ensures var t := states[k].threads[i]; var n := Asked(actions, k, i);
      n.Some? ==>
        if t.call.wrapper == Handshake then 1 <= n.value <= 8 && (t.err != NO_ERROR ==> n.value == 8)
        else n.value == 1 || (n.value == 0 && t.err == STRING_CREATION)
  {
    hide Next, Enabled, EndingOf;
    AlwaysCounts(states, actions, k, i);
  }

  /** Only a handshake makes another request, and only after one that failed. */
  lemma AgainIfFailed(states: seq<State>, actions: seq<Action>, k: nat, i: nat)
    requires Run(states, actions) && k < |actions| && actions[k].Check? && actions[k].i == i
    ensures i < |states[k].threads| && Asked(actions, k, i).Some?
    ensures Asked(actions, k, i).value > 0 ==>
      states[k].threads[i].call.wrapper == Handshake && CodeFor(EndingOf(states, actions, k, i)) != NO_ERROR
  {
    hide Next, EndingOf, CodeFor;
    assert Enabled(states[k], actions[k]);
    AlwaysCounts(states, actions, k, i);
  }
}
