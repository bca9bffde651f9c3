/**
  The AT channel as a protocol of threads (huawei-generic/atchannel.c): any number of command
  threads and one reader share a context under two mutexes and two condition variables.  A state is
  what they share and where each of them is; an action is one uninterrupted stretch of one thread.
 */
module AtChannel {
  import opened Options
  import opened AtLines
  import opened AtErrors

  // ---------------------------------------------------------------- threads

  /** The size of the static buffer for formatted commands. */
  const BUFFER_SIZE: nat := 512

  /** What vsnprintf leaves of a string, with room for its terminator. */
  function Cut(text: string): string { if |text| < BUFFER_SIZE then text else text[..BUFFER_SIZE - 1] }

  datatype Wrapper = Plain | Raw | Single | Digits | Sms | Multi | Handshake

  /** Arguments of one of the at_send_command functions; `limited` if there is a timeout and
      `wanted` if the caller passed a place for the response. */
  datatype Call = Call(
    wrapper: Wrapper, command: string, prefix: string, pdu: Option<string>, limited: bool, wanted: bool)
  {
    function Kind(): CommandType {
      match wrapper
      case Plain => NoResult
      case Raw => MultiLine
      case Single => SingleLine
      case Digits => Numeric
      case Sms => SingleLine
      case Multi => MultiLine
      case Handshake => NoResult
    }

    /** The command goes through vsnprintf into the static buffer. */
    predicate Formats() { wrapper == Plain || wrapper == Single || wrapper == Multi }

    /** The command line that the call means to send: formatting cuts what does not fit the buffer. */
    function Text(): string { if Formats() then Cut(command) else command }

    /** What each wrapper passes on. */
    predicate Valid() {
      (pdu.Some? ==> wrapper == Sms) && (wanted ==> wrapper != Plain && wrapper != Handshake) &&
      (wrapper == Raw ==> prefix == "") && (wrapper == Handshake ==> limited)
    }

    /** A response without intermediate responses is an error. */
    predicate NeedsIntermediate() { wrapper == Single || wrapper == Digits || wrapper == Sms }
  }

  /** Where a thread is in at_send_command_full and at_send_command_full_nolock.
      Parked waits for the request condition and Sleeping for the command condition; Woken, Roused
      and Expired have been woken and must take the command mutex again. */
  datatype Pc =
    Idle | Starting | Trying | Parked | Woken | Checking | Writing | Testing | Sleeping | Roused |
    Expired | Returning | Finishing | Releasing | Leaving | Wrapping

  /** `waited` is set when the thread has been parked since it formatted its command; `out` is what
      *pp_outResponse points to; `tries` counts the requests made, which are several for a handshake, and
      `last` is the response of the last one. */
  datatype Thread = Thread(
    pc: Pc, call: Call, waited: bool, err: int, out: Option<nat>, tries: nat, last: Option<nat>)

  /** The thread has the command mutex. */
  predicate HasCommand(pc: Pc) {
    pc == Trying || pc == Checking || pc == Writing || pc == Testing || pc == Returning || pc == Finishing ||
    pc == Releasing || pc == Leaving
  }

  /** The thread has the request mutex. */
  predicate HasRequest(pc: Pc) {
    pc == Checking || HasResponse(pc) || pc == Finishing || pc == Releasing
  }

  /** The pending response is the thread's. */
  predicate HasResponse(pc: Pc) { pc == Writing || HasWritten(pc) }

  predicate HasWritten(pc: Pc) {
    pc == Testing || pc == Sleeping || pc == Roused || pc == Expired || pc == Returning
  }

  /** The thread may hold a response that is no longer pending. */
  predicate HasOut(pc: Pc) { pc == Finishing || pc == Releasing || pc == Leaving || pc == Wrapping }

  // ---------------------------------------------------------------- shared state

  datatype Holder = TheReader | AThread(i: nat)

  /** `OutTo` while the thread that asked holds it, and `Given` when its call has returned with it. */
  datatype Status = Waiting | Freed | OutTo | Given

  /** A response ever allocated: who for, the lines processed while it was pending, what they made of
      it, where in the wire its command and its text went, and what became of it. */
  datatype Response = Response(
    owner: nat, call: Call, waited: bool, window: seq<string>, content: Pending,
    written: Option<nat>, prompted: Option<nat>, status: Status)

  /** What went out to the modem; `whole` if nothing failed. */
  datatype Sent = Command(id: nat, text: string, whole: bool) | Text(id: nat, whole: bool)

  datatype ReaderPc = Reading | Processing(line: string) | Closing | Gone

  datatype State = State(
    threads: seq<Thread>, reader: ReaderPc,
    command: Option<Holder>, request: Option<nat>,
    response: Option<nat>, smsPdu: Option<string>, heap: seq<Response>,
    readerClosed: bool, open: bool, strbuf: string,
    wire: seq<Sent>, unsolicited: seq<string>)
  {
    function With(i: nat, t: Thread): State
      requires i < |threads|
    {
      this.(threads := threads[i := t])
    }

    function WithHeap(r: nat, e: Response): State
      requires r < |heap|
    {
      this.(heap := heap[r := e])
    }
  }

  ghost predicate Initial(s: State) {
    (forall i :: 0 <= i < |s.threads| ==>
      s.threads[i].pc == Idle && s.threads[i].out == None && s.threads[i].tries == 0 &&
      !s.threads[i].call.wanted) &&
    s.reader == Reading && s.command == None && s.request == None && s.response == None && s.smsPdu == None &&
    s.heap == [] && !s.readerClosed && s.open && s.wire == [] && s.unsolicited == []
  }

  // ---------------------------------------------------------------- actions

  const HANDSHAKE_RETRY_COUNT: nat := 8

  datatype Action =
    | Begin(i: nat, call: Call)
    | Lock(i: nat)
    | Try(i: nat)
    | WakeUp(i: nat)
    | Relock(i: nat)
    | Check(i: nat, memory: bool)
    | Write(i: nat, whole: bool)
    | Test(i: nat)
    | Stir(i: nat)
    | Expire(i: nat)
    | Resume(i: nat)
    | GiveUp(i: nat)
    | Return(i: nat)
    | Finish(i: nat)
    | Release(i: nat)
    | Leave(i: nat)
    | Wrap(i: nat)
    | Receive(line: string)
    | Process(whole: bool, woken: nat)
    | EndOfFile(callback: bool)
    | ReaderCloses(woken: nat)
    | CloseFd
    | CloseChannel(woken: nat)

  predicate At(s: State, i: nat, pc: Pc) { i < |s.threads| && s.threads[i].pc == pc }

  /** pthread_cond_signal on the command condition wakes a thread if one sleeps. */
  predicate Signals(s: State, woken: nat) {
    At(s, woken, Sleeping) || forall i :: 0 <= i < |s.threads| ==> s.threads[i].pc != Sleeping
  }

  predicate Enabled(s: State, a: Action) {
    match a
    case Begin(i, call) => At(s, i, Idle) && call.Valid()
    case Lock(i) => At(s, i, Starting) && s.command == None
    case Try(i) => At(s, i, Trying)
    case WakeUp(i) => At(s, i, Parked)
    case Relock(i) => At(s, i, Woken) && s.command == None
    case Check(i, _) => At(s, i, Checking)
    case Write(i, _) => At(s, i, Writing) && s.response.Some? && s.response.value < |s.heap|
    case Test(i) => At(s, i, Testing) && s.response.Some? && s.response.value < |s.heap|
    case Stir(i) => At(s, i, Sleeping)
    case Expire(i) => At(s, i, Sleeping) && s.threads[i].call.limited
    case Resume(i) => At(s, i, Roused) && s.command == None
    case GiveUp(i) => At(s, i, Expired) && s.command == None
    case Return(i) => At(s, i, Returning) && s.response.Some? && s.response.value < |s.heap|
    case Finish(i) => At(s, i, Finishing) && (s.response.Some? ==> s.response.value < |s.heap|)
    case Release(i) => At(s, i, Releasing)
    case Leave(i) => At(s, i, Leaving)
    case Wrap(i) => At(s, i, Wrapping) && (s.threads[i].out.Some? ==> s.threads[i].out.value < |s.heap|)
    case Receive(_) => s.reader == Reading && s.command == None
    case Process(_, woken) =>
      s.reader.Processing? && Signals(s, woken) && (s.response.Some? ==> s.response.value < |s.heap|)
    case EndOfFile(_) => s.reader == Reading
    case ReaderCloses(woken) => s.reader == Closing && s.command == None && Signals(s, woken)
    case CloseFd => true
    case CloseChannel(woken) => s.command == None && Signals(s, woken)
  }

  function Signalled(s: State, woken: nat): State {
    if At(s, woken, Sleeping) then s.With(woken, s.threads[woken].(pc := Roused)) else s
  }

  /** The call enters at_send_command_full. */
  function DoBegin(s: State, i: nat, call: Call): State
    requires At(s, i, Idle)
  {
    s.With(i, Thread(Starting, call, false, NO_ERROR, None, 0, None))
  }

  /** Take the command mutex and format the command; an empty one is refused, when it has already been
      formatted. */
  function DoLock(s: State, i: nat): State
    requires At(s, i, Starting)
  {
    var t := s.threads[i];
    var refused := t.call.Formats() && t.call.command == "";
    s.(command := Some(AThread(i)), strbuf := if t.call.Formats() then Cut(t.call.command) else s.strbuf)
     .With(i, t.(pc := if refused then Leaving else Trying, err := if refused then STRING_CREATION else t.err))
  }

  /** pthread_mutex_trylock on the request mutex, and waiting for its condition if it is taken. */
  function DoTry(s: State, i: nat): State
    requires At(s, i, Trying)
  {
    var t := s.threads[i];
    if s.request == None then s.(request := Some(i)).With(i, t.(pc := Checking))
    else s.(command := None).With(i, t.(pc := Parked, waited := true))
  }

  /** A broadcast is not the only thing that ends a wait. */
  function DoWakeUp(s: State, i: nat): State
    requires At(s, i, Parked)
  {
    s.With(i, s.threads[i].(pc := Woken))
  }

  function DoRelock(s: State, i: nat): State
    requires At(s, i, Woken)
  {
    s.(command := Some(AThread(i))).With(i, s.threads[i].(pc := Trying))
  }

  function DoCheck(s: State, i: nat, memory: bool): State
    requires At(s, i, Checking)
  {
    var t := s.threads[i];
    if s.response.Some? then s.With(i, t.(pc := Finishing, err := COMMAND_PENDING))
    else if !memory then s.(smsPdu := t.call.pdu).With(i, t.(pc := Finishing, err := MEMORY_ALLOCATION))
    else
      var p := NewPending(t.call.Kind(), t.call.prefix, t.call.pdu);
      var e := Response(i, t.call, t.waited, [], p, None, None, Waiting);
      s.(smsPdu := t.call.pdu, heap := s.heap + [e], response := Some(|s.heap|))
       .With(i, t.(pc := Writing, last := Some(|s.heap|)))
  }

  /** writeline */
  function DoWrite(s: State, i: nat, whole: bool): State
    requires At(s, i, Writing) && s.response.Some? && s.response.value < |s.heap|
  {
    var t := s.threads[i];
    var r := s.response.value;
    if !s.open || s.readerClosed then s.With(i, t.(pc := Finishing, err := CHANNEL_CLOSED))
    else
      var s1 := s.(wire := s.wire + [Command(r, if t.call.Formats() then s.strbuf else t.call.command, whole)]);
      if whole then
        s1.WithHeap(r, s.heap[r].(written := Some(|s.wire|))).With(i, t.(pc := Testing, err := NO_ERROR))
      else s1.With(i, t.(pc := Finishing, err := GENERIC))
  }

  /** The test of the waiting loop. */
  function DoTest(s: State, i: nat): State
    requires At(s, i, Testing) && s.response.Some? && s.response.value < |s.heap|
  {
    var t := s.threads[i];
    if s.heap[s.response.value].content.final == None && !s.readerClosed
    then s.(command := None).With(i, t.(pc := Sleeping))
    else s.With(i, t.(pc := Returning))
  }

  /** The wait ends without a signal. */
  function DoStir(s: State, i: nat): State
    requires At(s, i, Sleeping)
  {
    s.With(i, s.threads[i].(pc := Roused))
  }

  function DoExpire(s: State, i: nat): State
    requires At(s, i, Sleeping)
  {
    s.With(i, s.threads[i].(pc := Expired))
  }

  function DoResume(s: State, i: nat): State
    requires At(s, i, Roused)
  {
    s.(command := Some(AThread(i))).With(i, s.threads[i].(pc := Testing))
  }

  function DoGiveUp(s: State, i: nat): State
    requires At(s, i, Expired)
  {
    s.(command := Some(AThread(i))).With(i, s.threads[i].(pc := Finishing, err := TIMEOUT))
  }

  function DoReturn(s: State, i: nat): State
    requires At(s, i, Returning) && s.response.Some? && s.response.value < |s.heap|
  {
    var t := s.threads[i];
    var r := s.response.value;
    var e := s.heap[r];
    var err := if e.content.success then t.err else GetError(e.content.final);
    s.WithHeap(r, e.(status := if t.call.wanted then OutTo else Freed)).(response := None)
     .With(i, t.(pc := Finishing, out := if t.call.wanted then Some(r) else None,
                 err := if s.readerClosed then CHANNEL_CLOSED else err))
  }

  /** All threads that wait for the request condition, after a broadcast. */
  function Broadcast(threads: seq<Thread>): (r: seq<Thread>)
    ensures |r| == |threads|
  {
    seq(|threads|, i requires 0 <= i < |threads| =>
      if threads[i].pc == Parked then threads[i].(pc := Woken) else threads[i])
  }

  /** clearPendingCommand and the broadcast. */
  function DoFinish(s: State, i: nat): State
    requires At(s, i, Finishing) && (s.response.Some? ==> s.response.value < |s.heap|)
  {
    var s1 := if s.response.Some? then s.WithHeap(s.response.value, s.heap[s.response.value].(status := Freed)) else s;
    var s2 := s1.(response := None, smsPdu := None, threads := Broadcast(s.threads));
    s2.With(i, s.threads[i].(pc := Releasing))
  }

  /** Release the request mutex; a failed handshake tries again without letting go of the command mutex. */
  function DoRelease(s: State, i: nat): State
    requires At(s, i, Releasing)
  {
    var t := s.threads[i];
    var again := t.call.wrapper == Handshake && t.err != NO_ERROR && t.tries + 1 < HANDSHAKE_RETRY_COUNT;
    s.(request := None).With(i, t.(pc := if again then Trying else Leaving, tries := t.tries + 1))
  }

  function DoLeave(s: State, i: nat): State
    requires At(s, i, Leaving)
  {
    s.(command := None).With(i, s.threads[i].(pc := Wrapping))
  }

  /** What the wrappers make of the error code. */
  function WrapError(s: State, i: nat): int
    requires At(s, i, Wrapping) && s.threads[i].out.Some? && s.threads[i].out.value < |s.heap|
  {
    var t := s.threads[i];
    if t.err == NO_ERROR && t.call.NeedsIntermediate() && s.heap[t.out.value].content.intermediates == []
    then INVALID_RESPONSE else t.err
  }

  /** The caller gets the response. */
  function GiveOut(s: State, i: nat, r: nat, err: int): State
    requires At(s, i, Wrapping) && r < |s.heap|
  {
    s.WithHeap(r, s.heap[r].(status := Given)).With(i, s.threads[i].(pc := Idle, err := err))
  }

  /** The wrapper frees the response of a call that failed. */
  function FreeOut(s: State, i: nat, r: nat, err: int): State
    requires At(s, i, Wrapping) && r < |s.heap|
  {
    s.WithHeap(r, s.heap[r].(status := Freed)).With(i, s.threads[i].(pc := Idle, err := err, out := None))
  }

  /** What the wrappers check once the call is over. */
  function DoWrap(s: State, i: nat): State
    requires At(s, i, Wrapping) && (s.threads[i].out.Some? ==> s.threads[i].out.value < |s.heap|)
  {
    var t := s.threads[i];
    if t.out.None? then s.With(i, t.(pc := Idle))
    else if WrapError(s, i) != NO_ERROR && t.call.wrapper != Raw then FreeOut(s, i, t.out.value, WrapError(s, i))
    else GiveOut(s, i, t.out.value, WrapError(s, i))
  }

  /** processLine, between taking the command mutex and releasing it. */
  function DoProcess(s: State, whole: bool, woken: nat): State
    requires s.reader.Processing? && (s.response.Some? ==> s.response.value < |s.heap|)
  {
    var line := s.reader.line;
    var s0 := s.(command := None, reader := Reading);
    if s.response.None? then s0.(unsolicited := s.unsolicited + [line])
    else
      var r := s.response.value;
      var e := s.heap[r];
      var p := e.content.(pdu := s.smsPdu);
      var target := Classify(p, line);
      var s1 := s0.WithHeap(r, e.(content := Absorb(p, line), window := e.window + [line],
                                  prompted := if target == Prompt then Some(|s.wire|) else e.prompted));
      match target
      case Final => Signalled(s1, woken)
      case Prompt => s1.(smsPdu := None, wire := s.wire + [Text(r, whole && s.open && !s.readerClosed)])
      case Intermediate => s1
      case Unsolicited => s1.(unsolicited := s.unsolicited + [line])
  }

  function Next(s: State, a: Action): State
    requires Enabled(s, a)
  {
    match a
    case Begin(i, call) => DoBegin(s, i, call)
    case Lock(i) => DoLock(s, i)
    case Try(i) => DoTry(s, i)
    case WakeUp(i) => DoWakeUp(s, i)
    case Relock(i) => DoRelock(s, i)
    case Check(i, memory) => DoCheck(s, i, memory)
    case Write(i, whole) => DoWrite(s, i, whole)
    case Test(i) => DoTest(s, i)
    case Stir(i) => DoStir(s, i)
    case Expire(i) => DoExpire(s, i)
    case Resume(i) => DoResume(s, i)
    case GiveUp(i) => DoGiveUp(s, i)
    case Return(i) => DoReturn(s, i)
    case Finish(i) => DoFinish(s, i)
    case Release(i) => DoRelease(s, i)
    case Leave(i) => DoLeave(s, i)
    case Wrap(i) => DoWrap(s, i)
    case Receive(line) => s.(command := Some(TheReader), reader := Processing(line))
    case Process(whole, woken) => DoProcess(s, whole, woken)
    case EndOfFile(callback) => s.(reader := if callback && !s.readerClosed then Closing else Gone)
    case ReaderCloses(woken) => Signalled(s.(readerClosed := true, reader := Gone), woken)
    case CloseFd => s.(open := false)
    case CloseChannel(woken) => Signalled(s.(readerClosed := true), woken)
  }

  /** A run: every state is what an enabled action makes of the one before. */
  ghost predicate Run(states: seq<State>, actions: seq<Action>) {
    |states| == |actions| + 1 && Initial(states[0]) &&
    forall k {:trigger actions[k]} :: 0 <= k < |actions| ==>
      Enabled(states[k], actions[k]) && states[k + 1] == Next(states[k], actions[k])
  }
}
