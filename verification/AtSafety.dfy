/**
  What holds in every state of every run of the AT channel.
 */
module AtSafety {
  import opened Options
  import opened AtLines
  import opened AtErrors
  import opened AtChannel

  // ---------------------------------------------------------------- the invariant

  /** Who holds what. */
  ghost predicate LocksOk(s: State, i: nat)
    requires i < |s.threads|
  {
    var pc := s.threads[i].pc;
    (HasCommand(pc) <==> s.command == Some(AThread(i))) &&
    (HasRequest(pc) <==> s.request == Some(i)) &&
    (pc == Parked ==> s.request.Some? && !At(s, s.request.value, Releasing))
  }

  /** The pending response belongs to the thread that asked; the thread sleeps only while there is
      something to wait for. */
  ghost predicate PendingOk(s: State, i: nat)
    requires i < |s.threads|
  {
    var t := s.threads[i];
    (t.pc == Checking || t.pc == Releasing ==> s.response.None?) &&
    (HasResponse(t.pc) ==>
      s.response.Some? && s.response.value < |s.heap| && s.heap[s.response.value].owner == i &&
      s.heap[s.response.value].call == t.call && s.heap[s.response.value].waited == t.waited &&
      t.last == s.response) &&
    (HasWritten(t.pc) ==> s.heap[s.response.value].written.Some? && t.err == NO_ERROR) &&
    (t.pc == Writing ==> s.heap[s.response.value].written.None?) &&
    (t.pc == Sleeping ==> s.heap[s.response.value].content.final.None? && !s.readerClosed)
  }

  /** The final response makes no error. */
  predicate Answered(p: Pending) { p.success || GetError(p.final) == NO_ERROR }

  /** What the thread holds after its command, and what its last call returned. */
  ghost predicate OutOk(s: State, i: nat)
    requires i < |s.threads|
  {
    var t := s.threads[i];
    (t.out.Some? ==>
      (t.pc == Idle || HasOut(t.pc)) && t.call.wanted && t.out.value < |s.heap| && s.heap[t.out.value].owner == i &&
      s.heap[t.out.value].call == t.call && s.heap[t.out.value].status == (if t.pc == Idle then Given else OutTo)) &&
    (t.pc == Idle || HasOut(t.pc) ==> t.call.wanted && t.err == NO_ERROR ==> t.out.Some?) &&
    (t.pc == Idle && t.err != NO_ERROR && t.call.wrapper != Raw ==> t.out.None?) &&
    (t.pc == Idle && t.call.NeedsIntermediate() && t.out.Some? ==> s.heap[t.out.value].content.intermediates != []) &&
    (t.out.Some? && t.err == NO_ERROR ==> Answered(s.heap[t.out.value].content))
  }

  /** When there is no error, the response of the last request, wherever it went, has a final response
      that makes none. */
  ghost predicate AnswerOk(s: State, i: nat)
    requires i < |s.threads|
  {
    var t := s.threads[i];
    HasOut(t.pc) || (t.pc == Idle && t.tries > 0) ==> t.err == NO_ERROR ==>
      t.last.Some? && t.last.value < |s.heap| &&
      var e := s.heap[t.last.value];
      e.owner == i && e.call == t.call && e.status != Waiting && Answered(e.content)
  }

  /** The shared buffer holds the thread's command as long as the thread has not been parked. */
  ghost predicate TextOk(s: State, i: nat)
    requires i < |s.threads|
  {
    var t := s.threads[i];
    (t.pc != Idle ==> t.call.Valid()) && (t.pc == Parked || t.pc == Woken ==> t.waited) &&
    (HasRequest(t.pc) || t.pc == Trying || t.pc == Parked || t.pc == Woken ==> t.call.Formats() ==>
      t.call.command != "") &&
    (t.call.Formats() && !t.waited && (t.pc == Trying || t.pc == Checking || t.pc == Writing) ==>
      s.strbuf == t.call.Text())
  }

  ghost predicate ThreadOk(s: State, i: nat)
    requires i < |s.threads|
  {
    LocksOk(s, i) && PendingOk(s, i) && OutOk(s, i) && TextOk(s, i) && AnswerOk(s, i)
  }

  ghost predicate SharedOk(s: State) {
    (s.request.Some? ==> s.request.value < |s.threads|) &&
    (s.command.Some? && s.command.value.AThread? ==> s.command.value.i < |s.threads|) &&
    (s.reader.Processing? <==> s.command == Some(TheReader)) &&
    (s.response.Some? ==>
      s.response.value < |s.heap| && s.request == Some(s.heap[s.response.value].owner) &&
      s.smsPdu == s.heap[s.response.value].content.pdu)
  }

  /** A response came to its contents from the lines of its window; it is pending, or with the thread
      that asked, or given to the caller, or freed. */
  ghost predicate ResponseOk(s: State, r: nat)
    requires r < |s.heap|
  {
    var e := s.heap[r];
    e.owner < |s.threads| && e.call.Valid() && (e.call.Formats() ==> e.call.command != "") &&
    e.content == AbsorbAll(NewPending(e.call.Kind(), e.call.prefix, e.call.pdu), e.window) &&
    (e.status == Waiting <==> s.response == Some(r)) &&
    (e.status == OutTo ==> s.threads[e.owner].out == Some(r) && HasOut(s.threads[e.owner].pc)) &&
    (e.written.Some? ==> e.written.value < |s.wire|) &&
    (e.prompted.Some? ==> e.prompted.value < |s.wire| && e.content.pdu.None?)
  }

  /** A command line is the caller's own if the caller did not have to wait, or does not format; a text
      follows its command line, and goes out once. */
  ghost predicate SentOk(s: State, k: nat)
    requires k < |s.wire|
  {
    match s.wire[k]
    case Command(id, text, whole) =>
      id < |s.heap| && (whole ==> s.heap[id].written == Some(k)) &&
      (!s.heap[id].call.Formats() || !s.heap[id].waited ==> text == s.heap[id].call.Text())
    case Text(id, _) =>
      id < |s.heap| && s.heap[id].prompted == Some(k) && s.heap[id].call.pdu.Some? &&
      s.heap[id].written.Some? && s.heap[id].written.value < k && IsCommand(s.wire[s.heap[id].written.value], id)
  }

  predicate IsCommand(sent: Sent, id: nat) { sent.Command? && sent.id == id && sent.whole }

  ghost predicate WrittenOk(s: State, r: nat)
    requires r < |s.heap|
  {
    s.heap[r].written.Some? ==> s.heap[r].written.value < |s.wire| && IsCommand(s.wire[s.heap[r].written.value], r)
  }

  ghost predicate Threads(s: State) {
    forall i {:trigger s.threads[i]} {:trigger ThreadOk(s, i)} :: 0 <= i < |s.threads| ==> ThreadOk(s, i)
  }

  ghost predicate Responses(s: State) {
    forall r {:trigger s.heap[r]} {:trigger ResponseOk(s, r)} :: 0 <= r < |s.heap| ==>
      ResponseOk(s, r) && WrittenOk(s, r)
  }

  ghost predicate Wire(s: State) { forall k {:trigger s.wire[k]} :: 0 <= k < |s.wire| ==> SentOk(s, k) }

  ghost predicate Inv(s: State) { SharedOk(s) && Threads(s) && Responses(s) && Wire(s) }

  lemma InitialInv(s: State)
    requires Initial(s)
    ensures Inv(s)
  {
    forall i | 0 <= i < |s.threads|
      ensures ThreadOk(s, i)
    {
      assert s.threads[i].pc == Idle;
    }
  }

  // ---------------------------------------------------------------- what a thread's action leaves alone

  /** Nobody waits for the request condition unless the request mutex is taken and stays so. */
  ghost predicate NobodyLost(s: State) {
    forall j {:trigger s.threads[j]} :: 0 <= j < |s.threads| && s.threads[j].pc == Parked ==>
      s.request.Some? && !At(s, s.request.value, Releasing)
  }

  /** Responses keep who they are for, and where they went. */
  ghost predicate Grows(s: State, s': State) {
    |s.heap| <= |s'.heap| && s.wire <= s'.wire &&
    forall r {:trigger s'.heap[r]} {:trigger s.heap[r]} :: 0 <= r < |s.heap| ==>
      s'.heap[r].owner == s.heap[r].owner && s'.heap[r].call == s.heap[r].call &&
      s'.heap[r].waited == s.heap[r].waited &&
      (s.heap[r].written.Some? ==> s'.heap[r].written == s.heap[r].written) &&
      (s.heap[r].prompted.Some? ==> s'.heap[r].prompted == s.heap[r].prompted)
  }

  /** An action of thread `i`: locks pass between nobody and `i`, other threads stay where they are,
      and other threads' responses are not touched. */
  ghost predicate OwnStep(s: State, s': State, i: nat) {
    i < |s.threads| == |s'.threads| && (forall j :: 0 <= j < |s.threads| && j != i ==> s'.threads[j] == s.threads[j]) &&
    s'.reader == s.reader && s'.readerClosed == s.readerClosed &&
    (s'.command == s.command || (s.command == None && s'.command == Some(AThread(i))) ||
     (s.command == Some(AThread(i)) && s'.command == None)) &&
    (s'.request == s.request || (s.request == None && s'.request == Some(i)) ||
     (s.request == Some(i) && s'.request == None)) &&
    (s'.strbuf == s.strbuf || s.command == None) && Grows(s, s') &&
    (forall r {:trigger s.heap[r]} :: 0 <= r < |s.heap| && s.heap[r].owner != i ==> s'.heap[r] == s.heap[r]) &&
    (s'.response == s.response || (s.request == Some(i) && (s'.response == None || s'.response == Some(|s.heap|))))
  }

  lemma OthersKeep(s: State, s': State, i: nat)
    requires Inv(s) && OwnStep(s, s', i) && NobodyLost(s')
    ensures forall j :: 0 <= j < |s.threads| && j != i ==> ThreadOk(s', j)
  {
    forall j | 0 <= j < |s.threads| && j != i
      ensures ThreadOk(s', j)
    {
      assert ThreadOk(s, j);
      OtherKeeps(s, s', i, j);
    }
  }

  lemma OtherKeeps(s: State, s': State, i: nat, j: nat)
    requires SharedOk(s) && OwnStep(s, s', i) && NobodyLost(s') && j < |s.threads| && j != i && ThreadOk(s, j)
    ensures ThreadOk(s', j)
  {
    hide Answered, GetError, Cut;
    assert s'.threads[j] == s.threads[j];
    OtherLocks(s, s', i, j);
    assert OutOk(s', j);
    assert AnswerOk(s', j);
    assert TextOk(s', j);
    assert PendingOk(s', j);
  }

  lemma OtherLocks(s: State, s': State, i: nat, j: nat)
    requires OwnStep(s, s', i) && NobodyLost(s') && j < |s.threads| && j != i && LocksOk(s, j)
    ensures LocksOk(s', j)
  {
    assert s'.threads[j] == s.threads[j];
  }

  lemma WireKeeps(s: State, s': State)
    requires Inv(s) && Grows(s, s') && forall k :: |s.wire| <= k < |s'.wire| ==> SentOk(s', k)
    ensures Wire(s')
  {
    forall k | 0 <= k < |s.wire|
      ensures SentOk(s', k)
    {
      assert SentOk(s, k) && s'.wire[k] == s.wire[k];
      var id := s.wire[k].id;
      assert s.heap[id].owner == s'.heap[id].owner;
    }
  }

  /** A response is pending, or with its thread, or neither. */
  ghost predicate StatusOk(s: State, r: nat)
    requires r < |s.heap| && s.heap[r].owner < |s.threads|
  {
    var e := s.heap[r];
    (e.status == Waiting <==> s.response == Some(r)) &&
    (e.status == OutTo ==> s.threads[e.owner].out == Some(r) && HasOut(s.threads[e.owner].pc))
  }

  /** What remains to be shown for the responses of thread `i`. */
  ghost predicate OwnResponses(s: State, s': State, i: nat)
    requires i < |s'.threads|
  {
    forall r {:trigger s'.heap[r]} :: 0 <= r < |s'.heap| ==>
      if r < |s.heap| && s'.heap[r] == s.heap[r] then s.heap[r].owner == i ==> StatusOk(s', r)
      else ResponseOk(s', r) && WrittenOk(s', r)
  }

  lemma ResponseKeeps(s: State, s': State, i: nat, r: nat)
    requires SharedOk(s) && OwnStep(s, s', i) && r < |s.heap| && s'.heap[r] == s.heap[r]
    requires ResponseOk(s, r) && WrittenOk(s, r) && (s.heap[r].owner == i ==> StatusOk(s', r))
    ensures ResponseOk(s', r) && WrittenOk(s', r)
  {
    hide AbsorbAll;
    var e := s.heap[r];
    if e.owner != i {
      assert s'.threads[e.owner] == s.threads[e.owner];
    }
    if e.written.Some? {
      assert s'.wire[e.written.value] == s.wire[e.written.value];
    }
  }

  lemma ResponsesKeep(s: State, s': State, i: nat)
    requires Inv(s) && OwnStep(s, s', i) && OwnResponses(s, s', i)
    ensures Responses(s')
  {
    hide AbsorbAll;
    forall r | 0 <= r < |s'.heap|
      ensures ResponseOk(s', r) && WrittenOk(s', r)
    {
      if r < |s.heap| && s'.heap[r] == s.heap[r] {
        assert ResponseOk(s, r) && WrittenOk(s, r);
        ResponseKeeps(s, s', i, r);
      }
    }
  }

  /** An action of one thread keeps the invariant if it does so for that thread. */
  lemma OwnKeeps(s: State, s': State, i: nat)
    requires Inv(s) && OwnStep(s, s', i) && NobodyLost(s') && SharedOk(s') && ThreadOk(s', i) && OwnResponses(s, s', i)
    requires forall k :: |s.wire| <= k < |s'.wire| ==> SentOk(s', k)
    ensures Inv(s')
  {
    hide ThreadOk, ResponseOk, WrittenOk, SharedOk, OwnResponses;
    OthersKeep(s, s', i);
    ResponsesKeep(s, s', i);
    WireKeeps(s, s');
  }

  /** An action that touches no response. */
  ghost predicate Quiet(s: State, s': State, i: nat) {
    i < |s.threads| == |s'.threads| && (forall j :: 0 <= j < |s.threads| && j != i ==> s'.threads[j] == s.threads[j]) &&
    s' == s.(threads := s'.threads, command := s'.command, request := s'.request, strbuf := s'.strbuf) &&
    (s'.command == s.command || (s.command == None && s'.command == Some(AThread(i))) ||
     (s.command == Some(AThread(i)) && s'.command == None)) &&
    (s'.strbuf == s.strbuf || s.command == None) &&
    (s'.threads[i].out == s.threads[i].out || s.threads[i].out == None || s.threads[i].pc == Idle) &&
    (HasOut(s.threads[i].pc) && s.threads[i].out.Some? ==> HasOut(s'.threads[i].pc))
  }

  /** The request mutex stays, or is taken from nobody, or is given back after the broadcast. */
  ghost predicate RequestStep(s: State, s': State, i: nat) {
    s'.request == s.request ||
    (s.response.None? && s.request == None && s'.request == Some(i)) ||
    (s.response.None? && s.request == Some(i) && At(s, i, Releasing) && s'.request == None)
  }

  lemma QuietNobodyLost(s: State, s': State, i: nat, j: nat)
    requires Quiet(s, s', i) && RequestStep(s, s', i) && j < |s.threads|
    requires s'.threads[i].pc != Releasing && LocksOk(s', i) && LocksOk(s, j)
    ensures s'.threads[j].pc == Parked ==> s'.request.Some? && !At(s', s'.request.value, Releasing)
  {
  }

  lemma QuietKeeps(s: State, s': State, i: nat)
    requires Inv(s) && Quiet(s, s', i) && RequestStep(s, s', i) && ThreadOk(s', i) && s'.threads[i].pc != Releasing
    ensures Inv(s')
  {
    hide Inv, AbsorbAll, ThreadOk, Threads, Responses, Wire;
    forall j {:trigger s'.threads[j]} | 0 <= j < |s'.threads|
      ensures s'.threads[j].pc == Parked ==> s'.request.Some? && !At(s', s'.request.value, Releasing)
    {
      ThreadParts(s, j);
      ThreadParts'(s', i);
      QuietNobodyLost(s, s', i, j);
    }
    QuietResponses(s, s', i);
    SharedFacts(s);
    ThreadParts(s, i);
    OwnKeeps(s, s', i);
  }

  lemma QuietResponses(s: State, s': State, i: nat)
    requires Inv(s) && Quiet(s, s', i) && RequestStep(s, s', i) && i < |s'.threads|
    ensures OwnStep(s, s', i) && OwnResponses(s, s', i)
  {
    hide Inv, AbsorbAll, ThreadOk;
    forall r | 0 <= r < |s.heap| && s.heap[r].owner == i
      ensures StatusOk(s', r)
    {
      ResponseFacts(s, r);
    }
  }

  lemma ThreadParts(s: State, i: nat)
    requires Inv(s) && i < |s.threads|
    ensures LocksOk(s, i)
  {
  }

  lemma ThreadParts'(s: State, i: nat)
    requires i < |s.threads| && ThreadOk(s, i)
    ensures LocksOk(s, i)
  {
  }

  lemma SharedFacts(s: State)
    requires Inv(s)
    ensures SharedOk(s)
  {
  }

  lemma ThreadFacts(s: State, i: nat)
    requires Inv(s) && i < |s.threads|
    ensures ThreadOk(s, i) && SharedOk(s)
  {
  }

  lemma ResponseFacts(s: State, r: nat)
    requires Inv(s) && r < |s.heap|
    ensures ResponseOk(s, r) && WrittenOk(s, r)
  {
  }

  // ---------------------------------------------------------------- the threads' actions

  lemma BeginThread(s: State, i: nat, call: Call)
    requires At(s, i, Idle) && ThreadOk(s, i) && SharedOk(s) && call.Valid()
    ensures ThreadOk(DoBegin(s, i, call), i) && RequestStep(s, DoBegin(s, i, call), i) &&
      Quiet(s, DoBegin(s, i, call), i)
  {
    hide Answered, GetError, Cut;
  }

  lemma BeginKeeps(s: State, i: nat, call: Call)
    requires Inv(s) && At(s, i, Idle) && call.Valid()
    ensures Inv(DoBegin(s, i, call))
  {
    hide Inv, ThreadOk, Quiet, SharedOk, RequestStep;
    ThreadFacts(s, i);
    BeginThread(s, i, call);
    QuietKeeps(s, DoBegin(s, i, call), i);
  }

  lemma LockThread(s: State, i: nat)
    requires At(s, i, Starting) && ThreadOk(s, i) && SharedOk(s) && s.command == None
    ensures ThreadOk(DoLock(s, i), i) && RequestStep(s, DoLock(s, i), i) && Quiet(s, DoLock(s, i), i)
  {
    hide SharedOk, Answered, GetError, Cut;
  }

  lemma LockKeeps(s: State, i: nat)
    requires Inv(s) && At(s, i, Starting) && s.command == None
    ensures Inv(DoLock(s, i))
  {
    hide Inv, ThreadOk, Quiet, SharedOk, RequestStep;
    ThreadFacts(s, i);
    LockThread(s, i);
    QuietKeeps(s, DoLock(s, i), i);
  }

  lemma TryThread(s: State, i: nat)
    requires At(s, i, Trying) && ThreadOk(s, i) && SharedOk(s)
    requires s.request.Some? ==> s.request.value < |s.threads| && LocksOk(s, s.request.value)
    ensures ThreadOk(DoTry(s, i), i) && RequestStep(s, DoTry(s, i), i) && Quiet(s, DoTry(s, i), i)
  {
    hide Answered, GetError, Cut;
  }

  lemma TryKeeps(s: State, i: nat)
    requires Inv(s) && At(s, i, Trying)
    ensures Inv(DoTry(s, i))
  {
    hide Inv, ThreadOk, Quiet, RequestStep;
    ThreadFacts(s, i);
    if s.request.Some? { ThreadParts(s, s.request.value); }
    TryThread(s, i);
    QuietKeeps(s, DoTry(s, i), i);
  }

  lemma WakeUpThread(s: State, i: nat)
    requires At(s, i, Parked) && ThreadOk(s, i) && SharedOk(s)
    ensures ThreadOk(DoWakeUp(s, i), i) && RequestStep(s, DoWakeUp(s, i), i) && Quiet(s, DoWakeUp(s, i), i)
  {
    hide Answered, GetError, Cut;
  }

  lemma WakeUpKeeps(s: State, i: nat)
    requires Inv(s) && At(s, i, Parked)
    ensures Inv(DoWakeUp(s, i))
  {
    hide Inv, ThreadOk, Quiet, SharedOk, RequestStep;
    ThreadFacts(s, i);
    WakeUpThread(s, i);
    QuietKeeps(s, DoWakeUp(s, i), i);
  }

  lemma RelockThread(s: State, i: nat)
    requires At(s, i, Woken) && ThreadOk(s, i) && SharedOk(s) && s.command == None
    ensures ThreadOk(DoRelock(s, i), i) && RequestStep(s, DoRelock(s, i), i) && Quiet(s, DoRelock(s, i), i)
  {
    hide Answered, GetError, Cut;
  }

  lemma RelockKeeps(s: State, i: nat)
    requires Inv(s) && At(s, i, Woken) && s.command == None
    ensures Inv(DoRelock(s, i))
  {
    hide Inv, ThreadOk, Quiet, SharedOk, RequestStep;
    ThreadFacts(s, i);
    RelockThread(s, i);
    QuietKeeps(s, DoRelock(s, i), i);
  }

  lemma TestThread(s: State, i: nat)
    requires At(s, i, Testing) && ThreadOk(s, i) && SharedOk(s) && s.response.Some? && s.response.value < |s.heap|
    ensures ThreadOk(DoTest(s, i), i) && RequestStep(s, DoTest(s, i), i) && Quiet(s, DoTest(s, i), i)
  {
    hide Answered, GetError, Cut;
  }

  lemma TestKeeps(s: State, i: nat)
    requires Inv(s) && At(s, i, Testing) && s.response.Some? && s.response.value < |s.heap|
    ensures Inv(DoTest(s, i))
  {
    hide Inv, ThreadOk, Quiet, SharedOk, RequestStep;
    ThreadFacts(s, i);
    TestThread(s, i);
    QuietKeeps(s, DoTest(s, i), i);
  }

  lemma StirThread(s: State, i: nat)
    requires At(s, i, Sleeping) && ThreadOk(s, i) && SharedOk(s)
    ensures ThreadOk(DoStir(s, i), i) && RequestStep(s, DoStir(s, i), i) && Quiet(s, DoStir(s, i), i)
  {
    hide Answered, GetError, Cut;
  }

  lemma StirKeeps(s: State, i: nat)
    requires Inv(s) && At(s, i, Sleeping)
    ensures Inv(DoStir(s, i))
  {
    hide Inv, ThreadOk, Quiet, SharedOk, RequestStep;
    ThreadFacts(s, i);
    StirThread(s, i);
    QuietKeeps(s, DoStir(s, i), i);
  }

  lemma ExpireThread(s: State, i: nat)
    requires At(s, i, Sleeping) && ThreadOk(s, i) && SharedOk(s)
    ensures ThreadOk(DoExpire(s, i), i) && RequestStep(s, DoExpire(s, i), i) && Quiet(s, DoExpire(s, i), i)
  {
    hide Answered, GetError, Cut;
  }

  lemma ExpireKeeps(s: State, i: nat)
    requires Inv(s) && At(s, i, Sleeping)
    ensures Inv(DoExpire(s, i))
  {
    hide Inv, ThreadOk, Quiet, SharedOk, RequestStep;
    ThreadFacts(s, i);
    ExpireThread(s, i);
    QuietKeeps(s, DoExpire(s, i), i);
  }

  lemma ResumeThread(s: State, i: nat)
    requires At(s, i, Roused) && ThreadOk(s, i) && SharedOk(s) && s.command == None
    ensures ThreadOk(DoResume(s, i), i) && RequestStep(s, DoResume(s, i), i) && Quiet(s, DoResume(s, i), i)
  {
    hide Answered, GetError, Cut;
  }

  lemma ResumeKeeps(s: State, i: nat)
    requires Inv(s) && At(s, i, Roused) && s.command == None
    ensures Inv(DoResume(s, i))
  {
    hide Inv, ThreadOk, Quiet, SharedOk, RequestStep;
    ThreadFacts(s, i);
    ResumeThread(s, i);
    QuietKeeps(s, DoResume(s, i), i);
  }

  lemma GiveUpThread(s: State, i: nat)
    requires At(s, i, Expired) && ThreadOk(s, i) && SharedOk(s) && s.command == None
    ensures ThreadOk(DoGiveUp(s, i), i) && RequestStep(s, DoGiveUp(s, i), i) && Quiet(s, DoGiveUp(s, i), i)
  {
    hide Answered, GetError, Cut;
  }

  lemma GiveUpKeeps(s: State, i: nat)
    requires Inv(s) && At(s, i, Expired) && s.command == None
    ensures Inv(DoGiveUp(s, i))
  {
    hide Inv, ThreadOk, Quiet, SharedOk, RequestStep;
    ThreadFacts(s, i);
    GiveUpThread(s, i);
    QuietKeeps(s, DoGiveUp(s, i), i);
  }

  lemma ReleaseThread(s: State, i: nat)
    requires At(s, i, Releasing) && ThreadOk(s, i) && SharedOk(s)
    ensures ThreadOk(DoRelease(s, i), i) && RequestStep(s, DoRelease(s, i), i) && Quiet(s, DoRelease(s, i), i)
  {
    hide Answered, GetError, Cut;
  }

  lemma ReleaseKeeps(s: State, i: nat)
    requires Inv(s) && At(s, i, Releasing)
    ensures Inv(DoRelease(s, i))
  {
    hide Inv, ThreadOk, Quiet, SharedOk, RequestStep;
    ThreadFacts(s, i);
    ReleaseThread(s, i);
    QuietKeeps(s, DoRelease(s, i), i);
  }

  lemma LeaveThread(s: State, i: nat)
    requires At(s, i, Leaving) && ThreadOk(s, i) && SharedOk(s)
    ensures ThreadOk(DoLeave(s, i), i) && RequestStep(s, DoLeave(s, i), i) && Quiet(s, DoLeave(s, i), i)
  {
    hide Answered, GetError, Cut;
  }

  lemma LeaveKeeps(s: State, i: nat)
    requires Inv(s) && At(s, i, Leaving)
    ensures Inv(DoLeave(s, i))
  {
    hide Inv, ThreadOk, Quiet, SharedOk, RequestStep;
    ThreadFacts(s, i);
    LeaveThread(s, i);
    QuietKeeps(s, DoLeave(s, i), i);
  }

  lemma SameNobodyLost(s: State, s': State, i: nat)
    requires Inv(s) && OwnStep(s, s', i) && s'.request == s.request
    requires s'.threads[i].pc != Releasing && s'.threads[i].pc != Parked
    ensures NobodyLost(s')
  {
    hide Inv, ThreadOk;
    forall j {:trigger s'.threads[j]} | 0 <= j < |s'.threads|
      ensures s'.threads[j].pc == Parked ==> s'.request.Some? && !At(s', s'.request.value, Releasing)
    {
      ThreadParts(s, j);
      SharedFacts(s);
    }
  }

  lemma CheckThread(s: State, i: nat, memory: bool)
    requires At(s, i, Checking) && ThreadOk(s, i) && SharedOk(s)
    ensures var s' := DoCheck(s, i, memory); OwnStep(s, s', i) && ThreadOk(s', i) && SharedOk(s')
    ensures s.response.None?
  {
    hide Answered, GetError, Cut;
  }

  lemma CheckResponses(s: State, i: nat, memory: bool)
    requires Inv(s) && At(s, i, Checking) && ThreadOk(s, i) && s.response.None?
    ensures OwnResponses(s, DoCheck(s, i, memory), i)
  {
    hide Inv, AbsorbAll, LocksOk, PendingOk;
    var s' := DoCheck(s, i, memory);
    forall r | 0 <= r < |s.heap| && s.heap[r].owner == i
      ensures StatusOk(s', r)
    {
      ResponseFacts(s, r);
    }
    if memory {
      NothingAbsorbed(NewPending(s.threads[i].call.Kind(), s.threads[i].call.prefix, s.threads[i].call.pdu));
      assert ResponseOk(s', |s.heap|);
    }
  }

  lemma CheckKeeps(s: State, i: nat, memory: bool)
    requires Inv(s) && At(s, i, Checking)
    ensures Inv(DoCheck(s, i, memory))
  {
    hide Inv, ThreadOk, SharedOk, OwnStep, OwnResponses, NobodyLost;
    ThreadFacts(s, i);
    CheckThread(s, i, memory);
    CheckResponses(s, i, memory);
    SameNobodyLost(s, DoCheck(s, i, memory), i);
    OwnKeeps(s, DoCheck(s, i, memory), i);
  }

  lemma NothingAbsorbed(p: Pending)
    ensures AbsorbAll(p, []) == p
  {
  }

  /** An action that changes one response of the thread. */
  ghost predicate OneChanged(s: State, s': State, i: nat, r: nat) {
    i < |s.threads| && |s'.threads| == |s.threads| && r < |s.heap| == |s'.heap| && s.wire <= s'.wire &&
    s' == s.(threads := s.threads[i := s'.threads[i]], heap := s.heap[r := s'.heap[r]],
             response := s'.response, wire := s'.wire) &&
    (s.threads[i].out == None || s.threads[i].out == Some(r)) &&
    (s'.response == s.response || (s.response == Some(r) && s.request == Some(i) && s'.response == None))
  }

  lemma OneKeeps(s: State, s': State, i: nat, r: nat)
    requires Inv(s) && OneChanged(s, s', i, r) && s.heap[r].owner == i && ThreadOk(s', i)
    requires ResponseOk(s', r) && WrittenOk(s', r) && s'.heap[r].owner == i
    requires s'.heap[r] == s.heap[r].(status := s'.heap[r].status, written := s'.heap[r].written)
    requires s.heap[r].written.Some? ==> s'.heap[r].written == s.heap[r].written
    requires s'.threads[i].pc != Releasing && s'.threads[i].pc != Parked
    requires forall k :: |s.wire| <= k < |s'.wire| ==> SentOk(s', k)
    ensures Inv(s')
  {
    hide Inv, ThreadOk, ResponseOk, WrittenOk, SharedOk;
    OneStep(s, s', i, r);
    OneResponses(s, s', i, r);
    SameNobodyLost(s, s', i);
    OwnKeeps(s, s', i);
  }

  lemma OneStep(s: State, s': State, i: nat, r: nat)
    requires Inv(s) && OneChanged(s, s', i, r) && s.heap[r].owner == i && s'.heap[r].owner == i
    requires s'.heap[r] == s.heap[r].(status := s'.heap[r].status, written := s'.heap[r].written)
    requires s.heap[r].written.Some? ==> s'.heap[r].written == s.heap[r].written
    ensures OwnStep(s, s', i) && SharedOk(s')
  {
    hide Inv, ThreadOk;
    SharedFacts(s);
  }

  lemma OneResponses(s: State, s': State, i: nat, r: nat)
    requires Inv(s) && OneChanged(s, s', i, r) && ResponseOk(s', r) && WrittenOk(s', r)
    ensures OwnResponses(s, s', i)
  {
    hide Inv, AbsorbAll, ThreadOk;
    forall q | 0 <= q < |s.heap| && q != r && s.heap[q].owner == i
      ensures StatusOk(s', q)
    {
      ResponseFacts(s, q);
    }
  }

  lemma WriteThread(s: State, i: nat, whole: bool)
    requires At(s, i, Writing) && ThreadOk(s, i) && SharedOk(s) && s.response.Some? && s.response.value < |s.heap|
    ensures var s' := DoWrite(s, i, whole);
      ThreadOk(s', i) && s.threads[i].out == None && s'.threads[i].pc != Releasing && s'.threads[i].pc != Parked
  {
    hide Answered, GetError, Cut;
  }

  lemma WriteEntry(s: State, i: nat, whole: bool, r: nat)
    requires At(s, i, Writing) && PendingOk(s, i) && TextOk(s, i) && OutOk(s, i) && s.response == Some(r) &&
      r < |s.heap|
    requires ResponseOk(s, r) && WrittenOk(s, r)
    ensures var s' := DoWrite(s, i, whole);
      OneChanged(s, s', i, r) && ResponseOk(s', r) && WrittenOk(s', r) &&
      s.heap[r].owner == s'.heap[r].owner == i && s.heap[r].written.None? &&
      s'.heap[r] == s.heap[r].(status := s'.heap[r].status, written := s'.heap[r].written) &&
      forall k :: |s.wire| <= k < |s'.wire| ==> SentOk(s', k)
  {
    hide AbsorbAll;
  }

  lemma WriteKeeps(s: State, i: nat, whole: bool)
    requires Inv(s) && At(s, i, Writing) && s.response.Some? && s.response.value < |s.heap|
    ensures Inv(DoWrite(s, i, whole))
  {
    hide Inv, DoWrite, SharedOk, LocksOk, PendingOk, TextOk, OutOk, AnswerOk, ResponseOk, WrittenOk, OneChanged, SentOk;
    var r := s.response.value;
    ThreadFacts(s, i);
    ResponseFacts(s, r);
    WriteThread(s, i, whole);
    WriteEntry(s, i, whole, r);
    OneKeeps(s, DoWrite(s, i, whole), i, r);
  }

  lemma ReturnThread(s: State, i: nat)
    requires At(s, i, Returning) && ThreadOk(s, i) && SharedOk(s) && s.response.Some? && s.response.value < |s.heap|
    ensures var s' := DoReturn(s, i);
      ThreadOk(s', i) && s'.threads[i].pc != Releasing && s'.threads[i].pc != Parked
  {
    hide GetError;
  }

  lemma ReturnEntry(s: State, i: nat, r: nat)
    requires At(s, i, Returning) && PendingOk(s, i) && OutOk(s, i) && LocksOk(s, i) && s.response == Some(r) &&
      r < |s.heap|
    requires ResponseOk(s, r) && WrittenOk(s, r)
    ensures var s' := DoReturn(s, i);
      OneChanged(s, s', i, r) && ResponseOk(s', r) && WrittenOk(s', r) &&
      s.heap[r].owner == s'.heap[r].owner == i && s'.wire == s.wire &&
      s'.heap[r] == s.heap[r].(status := s'.heap[r].status, written := s.heap[r].written)
  {
    hide AbsorbAll, GetError;
  }

  lemma ReturnKeeps(s: State, i: nat)
    requires Inv(s) && At(s, i, Returning) && s.response.Some? && s.response.value < |s.heap|
    ensures Inv(DoReturn(s, i))
  {
    hide Inv, DoReturn, SharedOk, LocksOk, PendingOk, TextOk, OutOk, AnswerOk, ResponseOk, WrittenOk,
      OneChanged, SentOk;
    var r := s.response.value;
    ThreadFacts(s, i);
    ResponseFacts(s, r);
    ReturnThread(s, i);
    ReturnEntry(s, i, r);
    OneKeeps(s, DoReturn(s, i), i, r);
  }

  /** A thread that has returned is none of the locks' business. */
  lemma IdleThread(s: State, s': State, i: nat)
    requires At(s, i, Wrapping) && LocksOk(s, i) && TextOk(s, i) && At(s', i, Idle)
    requires s'.command == s.command && s'.request == s.request && s'.threads[i].call == s.threads[i].call
    ensures LocksOk(s', i) && PendingOk(s', i) && TextOk(s', i)
  {
    hide Answered, GetError, Cut;
  }

  lemma GivenThread(s: State, i: nat, r: nat, err: int)
    requires At(s, i, Wrapping) && ThreadOk(s, i) && s.threads[i].out == Some(r) && r < |s.heap|
    requires err != NO_ERROR ==> s.threads[i].call.wrapper == Raw
    requires s.threads[i].call.NeedsIntermediate() ==> s.heap[r].content.intermediates != []
    requires err == NO_ERROR ==> Answered(s.heap[r].content) && s.threads[i].err == NO_ERROR
    ensures ThreadOk(GiveOut(s, i, r, err), i)
  {
    hide LocksOk, PendingOk, TextOk, Answered, GetError, Cut;
    IdleThread(s, GiveOut(s, i, r, err), i);
  }

  lemma DroppedThread(s: State, i: nat, r: nat, err: int)
    requires At(s, i, Wrapping) && ThreadOk(s, i) && s.threads[i].out == Some(r) && r < |s.heap| && err != NO_ERROR
    ensures ThreadOk(FreeOut(s, i, r, err), i)
  {
    hide LocksOk, PendingOk, TextOk, Answered, GetError, Cut;
    IdleThread(s, FreeOut(s, i, r, err), i);
  }

  /** The response that a wrapper deals with, and what becomes of it. */
  lemma WrapEntry(s: State, i: nat, r: nat, err: int)
    requires At(s, i, Wrapping) && s.threads[i].out == Some(r) && OutOk(s, i)
    requires r < |s.heap| && ResponseOk(s, r) && WrittenOk(s, r)
    ensures var s' := GiveOut(s, i, r, err);
      OneChanged(s, s', i, r) && ResponseOk(s', r) && WrittenOk(s', r) && s'.wire == s.wire &&
      s'.heap[r] == s.heap[r].(status := Given) && s.heap[r].owner == i && s'.threads[i].pc == Idle
    ensures var s' := FreeOut(s, i, r, err);
      OneChanged(s, s', i, r) && ResponseOk(s', r) && WrittenOk(s', r) && s'.wire == s.wire &&
      s'.heap[r] == s.heap[r].(status := Freed) && s.heap[r].owner == i && s'.threads[i].pc == Idle
  {
    hide AbsorbAll;
  }

  lemma GivenKeeps(s: State, i: nat, r: nat, err: int)
    requires Inv(s) && At(s, i, Wrapping) && s.threads[i].out == Some(r) && r < |s.heap|
    requires err != NO_ERROR ==> s.threads[i].call.wrapper == Raw
    requires s.threads[i].call.NeedsIntermediate() ==> s.heap[r].content.intermediates != []
    requires err == NO_ERROR ==> Answered(s.heap[r].content) && s.threads[i].err == NO_ERROR
    ensures Inv(GiveOut(s, i, r, err))
  {
    hide Inv, GiveOut, FreeOut, SharedOk, LocksOk, PendingOk, TextOk, OutOk, AnswerOk, ResponseOk, WrittenOk,
      OneChanged, SentOk;
    ThreadFacts(s, i);
    ResponseFacts(s, r);
    GivenThread(s, i, r, err);
    WrapEntry(s, i, r, err);
    OneKeeps(s, GiveOut(s, i, r, err), i, r);
  }

  lemma DroppedKeeps(s: State, i: nat, r: nat, err: int)
    requires Inv(s) && At(s, i, Wrapping) && s.threads[i].out == Some(r) && r < |s.heap| && err != NO_ERROR
    ensures Inv(FreeOut(s, i, r, err))
  {
    hide Inv, GiveOut, FreeOut, SharedOk, LocksOk, PendingOk, TextOk, OutOk, AnswerOk, ResponseOk, WrittenOk,
      OneChanged, SentOk;
    ThreadFacts(s, i);
    ResponseFacts(s, r);
    DroppedThread(s, i, r, err);
    WrapEntry(s, i, r, err);
    OneKeeps(s, FreeOut(s, i, r, err), i, r);
  }

  lemma WrapKeeps(s: State, i: nat)
    requires Inv(s) && At(s, i, Wrapping) && (s.threads[i].out.Some? ==> s.threads[i].out.value < |s.heap|)
    ensures Inv(DoWrap(s, i))
  {
    hide Inv, GiveOut, FreeOut, WrapError, ThreadOk;
    var t := s.threads[i];
    if t.out.None? {
      UnansweredKeeps(s, i);
    } else {
      var err := WrapError(s, i);
      WrapErrorIs(s, i);
      OutAnswered(s, i);
      if err != NO_ERROR && t.call.wrapper != Raw {
        DroppedKeeps(s, i, t.out.value, err);
      } else {
        GivenKeeps(s, i, t.out.value, err);
      }
    }
  }

  lemma UnansweredThread(s: State, i: nat)
    requires At(s, i, Wrapping) && ThreadOk(s, i) && s.threads[i].out == None
    ensures var s' := s.With(i, s.threads[i].(pc := Idle)); ThreadOk(s', i) && Quiet(s, s', i)
  {
    hide LocksOk, PendingOk, TextOk, Answered, GetError, Cut;
    IdleThread(s, s.With(i, s.threads[i].(pc := Idle)), i);
  }

  lemma UnansweredKeeps(s: State, i: nat)
    requires Inv(s) && At(s, i, Wrapping) && s.threads[i].out == None
    ensures Inv(s.With(i, s.threads[i].(pc := Idle)))
  {
    hide Inv, ThreadOk, Quiet, SharedOk;
    ThreadFacts(s, i);
    UnansweredThread(s, i);
    QuietKeeps(s, s.With(i, s.threads[i].(pc := Idle)), i);
  }

  lemma OutAnswered(s: State, i: nat)
    requires Inv(s) && i < |s.threads| && s.threads[i].out.Some?
    ensures s.threads[i].out.value < |s.heap|
    ensures s.threads[i].err == NO_ERROR ==> Answered(s.heap[s.threads[i].out.value].content)
  {
    hide Inv, Answered;
    ThreadFacts(s, i);
  }

  lemma WrapErrorIs(s: State, i: nat)
    requires At(s, i, Wrapping) && s.threads[i].out.Some? && s.threads[i].out.value < |s.heap|
    ensures WrapError(s, i) == NO_ERROR ==> s.threads[i].err == NO_ERROR
    ensures WrapError(s, i) == NO_ERROR && s.threads[i].call.NeedsIntermediate() ==>
      s.heap[s.threads[i].out.value].content.intermediates != []
    ensures s.threads[i].call.wrapper == Raw ==> !s.threads[i].call.NeedsIntermediate()
  {
  }

  // ---------------------------------------------------------------- the end of a command

  lemma FinishedOther(s: State, i: nat, j: nat)
    requires At(s, i, Finishing) &&
      (s.response.Some? ==> s.response.value < |s.heap| && s.heap[s.response.value].owner == i)
    requires j < |s.threads| && j != i && ThreadOk(s, j) && LocksOk(s, i)
    ensures ThreadOk(DoFinish(s, i), j)
  {
    hide Answered, GetError, Cut;
    var s' := DoFinish(s, i);
    assert s'.threads[j] == if s.threads[j].pc == Parked then s.threads[j].(pc := Woken) else s.threads[j];
  }

  lemma FinishedOwn(s: State, i: nat)
    requires At(s, i, Finishing) && ThreadOk(s, i)
    requires s.response.Some? ==> s.response.value < |s.heap| && s.heap[s.response.value].status == Waiting
    ensures ThreadOk(DoFinish(s, i), i)
  {
    hide Answered, GetError, Cut;
  }

  /** No thread is parked any more after a broadcast. */
  lemma FinishedThread(s: State, i: nat, j: nat)
    requires Inv(s) && At(s, i, Finishing) && (s.response.Some? ==> s.response.value < |s.heap|) && j < |s.threads|
    ensures ThreadOk(DoFinish(s, i), j)
  {
    hide Inv, ThreadOk, DoFinish, SharedOk;
    ThreadFacts(s, i);
    ThreadFacts(s, j);
    ThreadParts(s, i);
    FinishedPending(s, i);
    if i == j { FinishedOwn(s, i); } else { FinishedOther(s, i, j); }
  }

  lemma FinishedPending(s: State, i: nat)
    requires Inv(s) && At(s, i, Finishing) && (s.response.Some? ==> s.response.value < |s.heap|)
    ensures s.response.Some? ==> s.heap[s.response.value].owner == i && s.heap[s.response.value].status == Waiting
  {
    hide Inv, AbsorbAll;
    ThreadFacts(s, i);
    if s.response.Some? { ResponseFacts(s, s.response.value); }
  }

  lemma FinishKeeps(s: State, i: nat)
    requires Inv(s) && At(s, i, Finishing) && (s.response.Some? ==> s.response.value < |s.heap|)
    ensures Inv(DoFinish(s, i))
  {
    hide AbsorbAll, ThreadOk, Responses, Wire;
    var s' := DoFinish(s, i);
    forall j | 0 <= j < |s'.threads|
      ensures ThreadOk(s', j)
    {
      FinishedThread(s, i, j);
    }
    FinishedResponses(s, i);
    ThreadFacts(s, i);
    WireKeeps(s, s');
  }

  lemma FinishedResponses(s: State, i: nat)
    requires Inv(s) && At(s, i, Finishing) && (s.response.Some? ==> s.response.value < |s.heap|)
    ensures Responses(DoFinish(s, i))
  {
    hide Inv, AbsorbAll;
    var s' := DoFinish(s, i);
    forall r | 0 <= r < |s'.heap|
      ensures ResponseOk(s', r) && WrittenOk(s', r)
    {
      ThreadFacts(s, i);
      ResponseFacts(s, r);
    }
  }

  // ---------------------------------------------------------------- the reader's actions

  lemma ReceiveKeeps(s: State, line: string)
    requires Inv(s) && s.reader == Reading && s.command == None
    ensures Inv(s.(command := Some(TheReader), reader := Processing(line)))
  {
    hide AbsorbAll;
    var s' := s.(command := Some(TheReader), reader := Processing(line));
    SameRest(s, s');
  }

  /** The reader, and the locks it takes, do not matter to the threads and the responses. */
  lemma SameRest(s: State, s': State)
    requires Inv(s)
    requires s' == s.(reader := s'.reader, command := s'.command, open := s'.open, unsolicited := s'.unsolicited)
    requires s.command == s'.command ||
      (!(s.command.Some? && s.command.value.AThread?) && !(s'.command.Some? && s'.command.value.AThread?))
    requires s'.reader.Processing? <==> s'.command == Some(TheReader)
    ensures Inv(s')
  {
    hide AbsorbAll;
    forall j | 0 <= j < |s'.threads|
      ensures ThreadOk(s', j)
    {
      assert ThreadOk(s, j);
    }
    forall r | 0 <= r < |s'.heap|
      ensures ResponseOk(s', r) && WrittenOk(s', r)
    {
      assert ResponseOk(s, r) && WrittenOk(s, r);
    }
    forall k | 0 <= k < |s'.wire|
      ensures SentOk(s', k)
    {
      assert SentOk(s, k);
    }
  }

  /** The one thread that can sleep is the one that the response is for. */
  lemma OneSleeper(s: State, j: nat)
    requires Inv(s) && At(s, j, Sleeping)
    ensures s.request == Some(j)
  {
    hide Inv;
    ThreadFacts(s, j);
  }

  lemma ClosedThread(s: State, s': State, woken: nat, j: nat)
    requires Inv(s) && Signals(s, woken) && j < |s.threads|
    requires s' == Signalled(s.(readerClosed := true, reader := s'.reader), woken)
    ensures ThreadOk(s', j)
  {
    hide Inv, Answered, GetError, Cut;
    ThreadFacts(s, j);
    if At(s, j, Sleeping) { OneSleeper(s, j); }
    if At(s, woken, Sleeping) { OneSleeper(s, woken); }
    if s.request.Some? { ThreadFacts(s, s.request.value); }
  }

  /** The channel is closed, and whoever waits for a response is woken. */
  lemma ClosedKeeps(s: State, reader: ReaderPc, woken: nat)
    requires Inv(s) && Signals(s, woken) && (reader.Processing? <==> s.command == Some(TheReader))
    ensures Inv(Signalled(s.(readerClosed := true, reader := reader), woken))
  {
    hide AbsorbAll, ThreadOk;
    var s' := Signalled(s.(readerClosed := true, reader := reader), woken);
    forall j | 0 <= j < |s'.threads|
      ensures ThreadOk(s', j)
    {
      ClosedThread(s, s', woken, j);
    }
    forall r | 0 <= r < |s'.heap|
      ensures ResponseOk(s', r) && WrittenOk(s', r)
    {
      assert ResponseOk(s, r) && WrittenOk(s, r);
    }
    forall k | 0 <= k < |s'.wire|
      ensures SentOk(s', k)
    {
      assert SentOk(s, k);
    }
  }

  /** The reader works on the pending response only when its owner has written the command and waits. */
  lemma OwnerWaits(s: State)
    requires Inv(s) && s.reader.Processing? && s.response.Some?
    ensures var r := s.response.value;
      r < |s.heap| && s.heap[r].owner < |s.threads| && s.request == Some(s.heap[r].owner) &&
      s.heap[r].written.Some? && s.heap[r].content.pdu == s.smsPdu && s.heap[r].status == Waiting &&
      HasWritten(s.threads[s.heap[r].owner].pc) && !HasCommand(s.threads[s.heap[r].owner].pc)
  {
    hide Inv;
    SharedFacts(s);
    var r := s.response.value;
    ResponseFacts(s, r);
    ThreadFacts(s, s.heap[r].owner);
  }

  /** The lines that are not final leave the final response alone, and no line brings a text back. */
  lemma AbsorbKeeps(p: Pending, line: string)
    ensures Classify(p, line) != Final ==> Absorb(p, line).final == p.final
    ensures Absorb(p, line).pdu == if Classify(p, line) == Prompt then None else p.pdu
    ensures Classify(p, line) == Prompt ==> p.pdu.Some?
  {
    hide IsFinal, IsSuccess, Expected;
  }

  /** What a line does to the pending response `r`. */
  ghost predicate Processed(s: State, s': State, woken: nat, r: nat) {
    r < |s.heap| && s.reader.Processing? &&
    var e := s.heap[r];
    var target := Classify(e.content, s.reader.line);
    s'.reader == Reading && s'.command == None && s'.request == s.request && s'.response == s.response &&
    s'.readerClosed == s.readerClosed && s'.strbuf == s.strbuf &&
    s'.threads == (if target == Final then Signalled(s, woken) else s).threads &&
    s'.heap == s.heap[r := e.(content := Absorb(e.content, s.reader.line), window := e.window + [s.reader.line],
                              prompted := if target == Prompt then Some(|s.wire|) else e.prompted)] &&
    (if target == Prompt then
       |s'.wire| == |s.wire| + 1 && s.wire <= s'.wire && s'.wire[|s.wire|].Text? && s'.wire[|s.wire|].id == r
     else s'.wire == s.wire) &&
    s'.smsPdu == if target == Prompt then None else s.smsPdu
  }

  lemma ProcessedIs(s: State, whole: bool, woken: nat)
    requires Inv(s) && s.reader.Processing? && s.response.Some? && s.response.value < |s.heap|
    ensures Processed(s, DoProcess(s, whole, woken), woken, s.response.value)
  {
    hide Inv, Absorb, Classify;
    OwnerWaits(s);
    var e := s.heap[s.response.value];
    assert e.content.(pdu := s.smsPdu) == e.content;
  }

  /** Who holds what, and what is formatted, is none of the line's business; it may wake the sleeper. */
  lemma ProcessLocks(s: State, s': State, woken: nat, r: nat, j: nat)
    requires Inv(s) && s.response == Some(r) && Processed(s, s', woken, r) && Signals(s, woken) && j < |s.threads|
    ensures |s'.threads| == |s.threads| && LocksOk(s', j) && TextOk(s', j)
    ensures s'.threads[j] == s.threads[j] || (At(s, j, Sleeping) && s'.threads[j] == s.threads[j].(pc := Roused))
    ensures At(s, j, Sleeping) && Classify(s.heap[r].content, s.reader.line) == Final ==> s'.threads[j].pc == Roused
  {
    hide Inv, AbsorbAll, Absorb, Classify, PendingOk, OutOk, AnswerOk;
    OwnerWaits(s);
    ThreadFacts(s, j);
    if At(s, j, Sleeping) { OneSleeper(s, j); }
    if At(s, woken, Sleeping) { OneSleeper(s, woken); }
  }

  lemma ProcessPending(s: State, s': State, woken: nat, r: nat, j: nat)
    requires Inv(s) && s.response == Some(r) && Processed(s, s', woken, r) && j < |s.threads| == |s'.threads|
    requires s'.threads[j] == s.threads[j] || (At(s, j, Sleeping) && s'.threads[j] == s.threads[j].(pc := Roused))
    requires At(s, j, Sleeping) && Classify(s.heap[r].content, s.reader.line) == Final ==> s'.threads[j].pc == Roused
    ensures PendingOk(s', j) && OutOk(s', j) && AnswerOk(s', j)
  {
    hide Inv, AbsorbAll, Absorb, Classify, LocksOk, TextOk, Answered;
    OwnerWaits(s);
    ThreadFacts(s, j);
    if s.threads[j].out.Some? { OutIsNotPending(s, j); }
    AbsorbKeeps(s.heap[r].content, s.reader.line);
  }

  lemma ProcessThread(s: State, s': State, woken: nat, r: nat, j: nat)
    requires Inv(s) && s.response == Some(r) && Processed(s, s', woken, r) && Signals(s, woken) && j < |s.threads|
    ensures |s'.threads| == |s.threads| && ThreadOk(s', j)
  {
    hide Inv, Processed, LocksOk, PendingOk, OutOk, TextOk, AnswerOk;
    ProcessLocks(s, s', woken, r, j);
    ProcessPending(s, s', woken, r, j);
  }

  lemma OutIsNotPending(s: State, j: nat)
    requires Inv(s) && j < |s.threads| && s.threads[j].out.Some?
    ensures s.response != s.threads[j].out
  {
    hide Inv, AbsorbAll;
    ThreadFacts(s, j);
    ResponseFacts(s, s.threads[j].out.value);
  }

  lemma ProcessResponse(s: State, s': State, woken: nat, r: nat, q: nat)
    requires Inv(s) && s.response == Some(r) && Processed(s, s', woken, r) && Signals(s, woken) && q < |s.heap|
    ensures |s'.heap| == |s.heap| && ResponseOk(s', q) && WrittenOk(s', q)
  {
    hide Inv, AbsorbAll, Absorb, Classify, ThreadOk;
    ResponseFacts(s, q);
    if At(s, woken, Sleeping) { WokenHasNothing(s, woken); }
    var e := s.heap[r];
    AbsorbKeeps(e.content, s.reader.line);
    AbsorbStep(NewPending(e.call.Kind(), e.call.prefix, e.call.pdu), e.window, s.reader.line);
    assert e.written.Some? && e.written.value < |s.wire| && r == q ==>
      s'.wire[e.written.value] == s.wire[e.written.value];
  }

  lemma WokenHasNothing(s: State, j: nat)
    requires Inv(s) && At(s, j, Sleeping)
    ensures s.threads[j].out == None
  {
    hide Inv;
    ThreadFacts(s, j);
  }

  lemma ProcessSent(s: State, s': State, woken: nat, r: nat)
    requires s.response == Some(r) && Processed(s, s', woken, r) && s.heap[r].written.Some? && WrittenOk(s, r)
    requires s.heap[r].content.pdu.Some? ==> s.heap[r].call.pdu.Some?
    requires s.heap[r].prompted.Some? ==> s.heap[r].content.pdu.None?
    ensures Grows(s, s') && forall k :: |s.wire| <= k < |s'.wire| ==> SentOk(s', k)
  {
    hide Absorb, Classify;
    AbsorbKeeps(s.heap[r].content, s.reader.line);
  }

  lemma ProcessWire(s: State, s': State, woken: nat, r: nat)
    requires Inv(s) && s.response == Some(r) && Processed(s, s', woken, r)
    ensures Wire(s')
  {
    hide Inv, AbsorbAll, ThreadOk, Processed, SentOk, WrittenOk, Grows, Wire;
    ProcessedHere(s, s', woken, r);
    OwnerWaits(s);
    ResponseFacts(s, r);
    var e := s.heap[r];
    Prompted(NewPending(e.call.Kind(), e.call.prefix, e.call.pdu), e.window);
    ProcessSent(s, s', woken, r);
    WireKeeps(s, s');
  }

  lemma ProcessedHere(s: State, s': State, woken: nat, r: nat)
    requires Processed(s, s', woken, r)
    ensures r < |s.heap| && s.reader.Processing?
  {
  }

  lemma ProcessShared(s: State, s': State, woken: nat, r: nat)
    requires Inv(s) && s.response == Some(r) && Processed(s, s', woken, r)
    ensures SharedOk(s')
  {
    hide Inv, AbsorbAll, Absorb, Classify, ThreadOk, ResponseOk;
    OwnerWaits(s);
    SharedFacts(s);
    AbsorbKeeps(s.heap[r].content, s.reader.line);
  }

  lemma ProcessKeeps(s: State, whole: bool, woken: nat)
    requires Inv(s) && s.reader.Processing? && Signals(s, woken) && (s.response.Some? ==> s.response.value < |s.heap|)
    ensures Inv(DoProcess(s, whole, woken))
  {
    var s' := DoProcess(s, whole, woken);
    if s.response.None? {
      hide AbsorbAll;
      SameRest(s, s');
    } else {
      hide DoProcess, ThreadOk, ResponseOk, WrittenOk, SharedOk, Wire, Processed;
      ProcessedIs(s, whole, woken);
      var r := s.response.value;
      ProcessShared(s, s', woken, r);
      SameSizes(s, s', woken, r);
      forall j | 0 <= j < |s'.threads|
        ensures ThreadOk(s', j)
      {
        ProcessThread(s, s', woken, r, j);
      }
      forall q | 0 <= q < |s'.heap|
        ensures ResponseOk(s', q) && WrittenOk(s', q)
      {
        ProcessResponse(s, s', woken, r, q);
      }
      ProcessWire(s, s', woken, r);
    }
  }

  lemma SameSizes(s: State, s': State, woken: nat, r: nat)
    requires Processed(s, s', woken, r)
    ensures |s'.threads| == |s.threads| && |s'.heap| == |s.heap|
  {
  }

  // ---------------------------------------------------------------- every run

  lemma InvKept(s: State, a: Action)
    requires Inv(s) && Enabled(s, a)
    ensures Inv(Next(s, a))
  {
    hide Inv, DoBegin, DoLock, DoTry, DoWakeUp, DoRelock, DoCheck, DoWrite, DoTest, DoStir, DoExpire, DoResume,
      DoGiveUp, DoReturn, DoFinish, DoRelease, DoLeave, DoWrap, DoProcess, Signalled, Signals;
    match a {
      case Begin(i, call) => BeginKeeps(s, i, call);
      case Lock(i) => LockKeeps(s, i);
      case Try(i) => TryKeeps(s, i);
      case WakeUp(i) => WakeUpKeeps(s, i);
      case Relock(i) => RelockKeeps(s, i);
      case Check(i, memory) => CheckKeeps(s, i, memory);
      case Write(i, whole) => WriteKeeps(s, i, whole);
      case Test(i) => TestKeeps(s, i);
      case Stir(i) => StirKeeps(s, i);
      case Expire(i) => ExpireKeeps(s, i);
      case Resume(i) => ResumeKeeps(s, i);
      case GiveUp(i) => GiveUpKeeps(s, i);
      case Return(i) => ReturnKeeps(s, i);
      case Finish(i) => FinishKeeps(s, i);
      case Release(i) => ReleaseKeeps(s, i);
      case Leave(i) => LeaveKeeps(s, i);
      case Wrap(i) => WrapKeeps(s, i);
      case Receive(line) => ReceiveKeeps(s, line);
      case Process(whole, woken) => ProcessKeeps(s, whole, woken);
      case EndOfFile(callback) =>
        SharedFacts(s);
        SameRest(s, Next(s, a));
      case ReaderCloses(woken) =>
        SharedFacts(s);
        ClosedKeeps(s, Gone, woken);
      case CloseFd =>
        SharedFacts(s);
        SameRest(s, Next(s, a));
      case CloseChannel(woken) =>
        SharedFacts(s);
        assert s.(readerClosed := true) == s.(readerClosed := true, reader := s.reader);
        ClosedKeeps(s, s.reader, woken);
    }
  }

  /** The invariant holds in every state of every run. */
  lemma {:induction false} RunInv(states: seq<State>, actions: seq<Action>, k: nat)
    requires Run(states, actions) && k < |states|
    ensures Inv(states[k])
  {
    hide Inv, Next, Enabled;
    if k == 0 {
      InitialInv(states[0]);
    } else {
      RunInv(states, actions, k - 1);
      var a := actions[k - 1];
      InvKept(states[k - 1], a);
    }
  }
}
