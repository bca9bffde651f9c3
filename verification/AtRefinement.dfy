/**
  What a command and the reader do to the shared context under its mutex, as actions of the protocol
  of threads.
 */
module AtRefinement {
  import opened Options
  import opened AtLines
  import opened AtErrors
  import opened AtChannel
  import opened AtContexts

  /** The context holds what the state says about the channel, the pending response and the unsolicited
      handler. */
  ghost predicate Shows(ac: AtContext, s: State)
    reads ac, ac.response
  {
    (ac.fd >= 0 <==> s.open) && ac.readerClosed == s.readerClosed &&
    ac.smsPdu == s.smsPdu && ac.unsolicited == s.unsolicited &&
    (ac.response == null <==> s.response.None?) &&
    (s.response.Some? ==>
      s.response.value < |s.heap| && ac.Now() == s.heap[s.response.value].content.(pdu := s.smsPdu))
  }

  /** Under the mutex, processLine does what the action of the state does, and it writes the text exactly
      when the state says so. */
  method ProcessLocked(ac: AtContext, line: string, ghost s: State, ghost woken: nat) returns (ghost whole: bool)
    requires ac.Valid() && Shows(ac, s) && s.reader == Processing(line)
    modifies ac, ac.response
    ensures ac.Valid() && ac.response == old(ac.response) && Shows(ac, DoProcess(s, whole, woken))
    ensures var sent := |DoProcess(s, whole, woken).wire| > |s.wire|;
      old(ac.wire) <= ac.wire && (!sent ==> ac.wire == old(ac.wire)) &&
      (sent ==> WrittenSoFar(ac.wire[|old(ac.wire)|..], old(ac.smsPdu).value + [CTRL_Z], whole))
  {
    hide Absorb, Classify, Reversed;
    whole := true;
    ghost var p := if s.response.Some? then ac.Now() else NewPending(NoResult, "", None);
    ghost var wire, pdu := ac.wire, ac.smsPdu;
    ac.ProcessLine(line);
    PduKept(p, line);
    if s.response.Some? && Classify(p, line) == Prompt {
      var ok :| WrittenSoFar(ac.wire[|wire|..], pdu.value + [CTRL_Z], ok);
      whole := ok;
    }
    ShownAfter(ac, p, line, s, whole, woken);
  }

  lemma PduKept(p: Pending, line: string)
    ensures Absorb(p, line).pdu == if Classify(p, line) == Prompt then None else p.pdu
    ensures Classify(p, line) == Prompt ==> p.pdu.Some?
  {
    hide IsFinal, IsSuccess, Expected;
  }

  /** The context shows the new state when it is as processLine leaves it. */
  lemma ShownAfter(ac: AtContext, p: Pending, line: string, s: State, whole: bool, woken: nat)
    requires s.reader == Processing(line) && (ac.response == null <==> s.response.None?)
    requires (ac.fd >= 0 <==> s.open) && ac.readerClosed == s.readerClosed
    requires s.response.None? ==> ac.unsolicited == s.unsolicited + [line] && ac.smsPdu == s.smsPdu
    requires s.response.Some? ==>
      s.response.value < |s.heap| && p == s.heap[s.response.value].content.(pdu := s.smsPdu) &&
      ac.Now() == Absorb(p, line) &&
      ac.unsolicited == s.unsolicited + if Classify(p, line) == Unsolicited then [line] else []
    ensures Shows(ac, DoProcess(s, whole, woken))
    ensures |DoProcess(s, whole, woken).wire| > |s.wire| <==> s.response.Some? && Classify(p, line) == Prompt
  {
    hide Absorb, Classify, Reversed;
    PduKept(p, line);
    assert ac.response != null ==> ac.Now().pdu == ac.smsPdu;
  }

  // ---------------------------------------------------------------- a command

  /** A fresh response is installed as the state says. */
  method CheckLocked(ac: AtContext, ghost s: State, i: nat, call: Call, memory: bool) returns (ok: bool)
    requires Shows(ac, s) && At(s, i, Checking) && s.threads[i].call == call && s.response.None?
    modifies ac
    ensures ac.Valid() && Shows(ac, DoCheck(s, i, memory))
    ensures ok <==> At(DoCheck(s, i, memory), i, Writing)
  {
    ok := ac.Install(call.Kind(), call.prefix, call.pdu, memory);
  }

  /** The command line goes out whole exactly when the thread goes on to wait; a channel that is closed
      gets nothing. */
  method WriteLocked(ac: AtContext, ghost s: State, ghost i: nat, text: string) returns (ghost whole: bool, ok: bool)
    requires ac.Valid() && Shows(ac, s) && At(s, i, Writing) && s.response.Some? && s.response.value < |s.heap|
    requires text == if s.threads[i].call.Formats() then s.strbuf else s.threads[i].call.command
    modifies ac
    ensures ac.Valid() && Shows(ac, DoWrite(s, i, whole))
    ensures ok <==> At(DoWrite(s, i, whole), i, Testing)
    ensures var sent := DoWrite(s, i, whole).wire[|s.wire|..];
      old(ac.wire) <= ac.wire && |sent| <= 1 && (sent == [] ==> ac.wire == old(ac.wire)) &&
      (sent != [] ==> sent[0].text == text && WrittenSoFar(ac.wire[|old(ac.wire)|..], text + [CR], whole))
  {
    ok := ac.WriteAll(text, CR);
    whole := ok;
    ghost var s' := DoWrite(s, i, whole);
    assert s.open && !s.readerClosed ==> s'.wire[|s.wire|..] == [s'.wire[|s.wire|]];
  }

  const CR: char := '\r'

  /** The response that is handed out holds what the state's response holds, and is no longer pending. */
  method ReturnLocked(ac: AtContext, ghost s: State, ghost i: nat) returns (r: AtResponse)
    requires ac.Valid() && Shows(ac, s) && At(s, i, Returning) && s.threads[i].call.wanted && ac.response != null
    modifies ac, ac.response, ac.response.nodes
    ensures ac.Valid() && Shows(ac, DoReturn(s, i)) && r == old(ac.response) && r.Valid()
    ensures var e := DoReturn(s, i).heap[s.response.value];
      e.status == OutTo && r.success == e.content.success && r.final == e.content.final &&
      TextOf(r.nodes) == e.content.intermediates
  {
    hide GetError, Reversed;
    r := ac.HandOut();
  }

  /** A response that nobody wants is freed instead. */
  method DropLocked(ac: AtContext, ghost s: State, ghost i: nat)
    requires Shows(ac, s) && At(s, i, Returning) && !s.threads[i].call.wanted && ac.response != null
    modifies ac
    ensures ac.Valid() && Shows(ac, DoReturn(s, i)) && DoReturn(s, i).heap[s.response.value].status == Freed
  {
    hide GetError;
    ac.DropResponse();
  }

  /** The end of a command leaves nothing pending. */
  method FinishLocked(ac: AtContext, ghost s: State, ghost i: nat)
    requires Shows(ac, s) && At(s, i, Finishing)
    modifies ac
    ensures ac.Valid() && Shows(ac, DoFinish(s, i)) && DoFinish(s, i).response == None
  {
    ac.ClearPending();
  }
}
