/** One RPC call from the client's side: CallMethod arms a timeout, connects, writes the request and
    waits for the reply. Reply and timeout race for the caller's closure. */
module RpcCalls {
  import opened ProtobufFrames

  const ERROR_FAILED_SERIALIZE := 10000004
  const ERROR_RPC_CALL_TIMEOUT := 10000007
  const ERROR_RPC_CHANNEL_NOT_INIT := 10000011

  /** The fields of RpcController that a call changes. */
  datatype Status = Status(errCode: int, failed: bool, cancelled: bool) {
    function WithError(code: int): Status {
      this.(errCode := code, failed := true)
    }
  }

  const FRESH: Status := Status(0, false, false)

  datatype Phase =
    | Refused      // CallMethod returned early
    | Connecting
    | Unreachable  // connect failed
    | Writing      // the request is queued
    | Waiting      // the reply callback is registered

  datatype Winner = ByReply | ByTimeout

  /** One run of the closure, with the error code the caller sees in it. */
  datatype ClosureRun = ClosureRun(winner: Winner, errCode: int)

  datatype Call = Call(
    phase: Phase, status: Status, hasClosure: bool,
    timerPending: bool, timerCancelled: bool, runs: seq<ClosureRun>)

  /** CallMethod up to the connect, with a fresh controller. */
  function Start(isInit: bool, serializes: bool, hasClosure: bool): Call {
    if !isInit then Call(Refused, FRESH.WithError(ERROR_RPC_CHANNEL_NOT_INIT), hasClosure, false, false, [])
    else if !serializes then Call(Refused, FRESH.WithError(ERROR_FAILED_SERIALIZE), hasClosure, false, false, [])
    else Call(Connecting, FRESH, hasClosure, true, false, [])
  }

  /** What happens to a call, in whatever order. */
  datatype Action =
    | ConnectDone(code: int)                   // 0 for success
    | WriteDone
    | ReplyArrives(parses: bool, errCode: int) // a reply with the id of the call
    | TimerFires                               // on_timer takes the event off the queue

  function Next(c: Call, a: Action): Call {
    match a
    case ConnectDone(code) =>
      if c.phase != Connecting then c
      else if code != 0 then c.(phase := Unreachable, status := c.status.WithError(code))
      else c.(phase := Writing)
    case WriteDone => if c.phase == Writing then c.(phase := Waiting) else c
    case ReplyArrives(parses, code) =>
      if c.phase != Waiting then c else
      var d := c.(timerCancelled := true);
      if !parses then d.(status := c.status.WithError(ERROR_FAILED_SERIALIZE))
      else if code != 0 then d.(status := c.status.WithError(code))
      else if !c.status.cancelled && c.hasClosure then d.(runs := c.runs + [ClosureRun(ByReply, c.status.errCode)])
      else d
    case TimerFires =>
      if !c.timerPending then c else
      var d := c.(timerPending := false);
      if c.timerCancelled then d else
      var e := d.(status := Status(ERROR_RPC_CALL_TIMEOUT, true, true));
      if c.hasClosure then e.(runs := c.runs + [ClosureRun(ByTimeout, e.status.errCode)]) else e
  }

  function After(c: Call, trace: seq<Action>): Call {
    if trace == [] then c else Next(After(c, trace[..|trace| - 1]), trace[|trace| - 1])
  }

  /* ----- The race, told by the trace alone ----- */

  type Trace = seq<Action>

  /** Some step satisfies q, given the steps before it. */
  ghost predicate Somewhere(trace: Trace, q: (Action, Trace) -> bool) {
    exists k :: 0 <= k < |trace| && q(trace[k], trace[..k])
  }

  lemma SomewhereInLonger(trace: Trace, a: Action, q: (Action, Trace) -> bool)
    ensures Somewhere(trace + [a], q) <==> Somewhere(trace, q) || q(a, trace)
  {
    var longer := trace + [a];
    assert longer[|trace|] == a && longer[..|trace|] == trace;
    forall k | 0 <= k < |trace| ensures longer[k] == trace[k] && longer[..k] == trace[..k] {
    }
  }

  ghost predicate IsConnectDone(a: Action, before: Trace) { a.ConnectDone? }

  /** The first connect to complete succeeds. */
  ghost predicate Establishes(a: Action, before: Trace) {
    a == ConnectDone(0) && !Somewhere(before, IsConnectDone)
  }

  /** A write on the established connection completes, which registers the reply callback. */
  ghost predicate Registers(a: Action, before: Trace) {
    a.WriteDone? && Somewhere(before, Establishes)
  }

  ghost predicate IsReply(a: Action, before: Trace) { a.ReplyArrives? }

  /** A reply reaches the callback. */
  ghost predicate IsAnswer(a: Action, before: Trace) {
    a.ReplyArrives? && Somewhere(before, Registers)
  }

  ghost predicate IsFiring(a: Action, before: Trace) { a.TimerFires? }

  /** The timer fires before any answer. */
  ghost predicate WinsByTimeout(a: Action, before: Trace) {
    a.TimerFires? && !Somewhere(before, IsFiring) && !Somewhere(before, IsAnswer)
  }

  /** An answer that parses and carries no error comes before the timer fires. */
  ghost predicate WinsByReply(a: Action, before: Trace) {
    IsAnswer(a, before) && a.parses && a.errCode == 0 && !Somewhere(before, IsFiring)
  }

  /** An answer that does not parse or carries an error comes before the timer fires. */
  ghost predicate LosesByReply(a: Action, before: Trace) {
    IsAnswer(a, before) && !(a.parses && a.errCode == 0) && !Somewhere(before, IsFiring)
  }

  /** A second reply for the same id. */
  ghost predicate IsSecondReply(a: Action, before: Trace) {
    a.ReplyArrives? && Somewhere(before, IsReply)
  }

  /* ----- What the controller shows, told by the trace alone ----- */

  /** The first connect to complete fails. */
  ghost predicate FailsToConnect(a: Action, before: Trace) {
    a.ConnectDone? && a.code != 0 && !Somewhere(before, IsConnectDone)
  }

  /** The error that a step reports, given the steps before it: a failed connect its own code, an
      answer "failed to serialise" or the code it carries, and a timeout that wins "call timeout". */
  ghost function Reports(a: Action, before: Trace): Option<int> {
    if FailsToConnect(a, before) then Some(a.code)
    else if IsAnswer(a, before) && !a.parses then Some(10000004)
    else if IsAnswer(a, before) && a.errCode != 0 then Some(a.errCode)
    else if WinsByTimeout(a, before) then Some(10000007)
    else None
  }

  /** The error reported last. */
  ghost function LastError(trace: Trace): Option<int> {
    if trace == [] then None
    else
      var before, a := trace[..|trace| - 1], trace[|trace| - 1];
      if Reports(a, before).Some? then Reports(a, before) else LastError(before)
  }

  /** The phase, the timer and the controller say what has happened in the trace. */
  ghost predicate TellsErrors(c: Call, trace: Trace) {
    && (c.phase == Connecting <==> !Somewhere(trace, IsConnectDone))
    && (c.phase == Writing || c.phase == Waiting <==> Somewhere(trace, Establishes))
    && (c.phase == Waiting <==> Somewhere(trace, Registers))
    && (c.timerCancelled <==> Somewhere(trace, IsAnswer))
    && (c.timerPending <==> !Somewhere(trace, IsFiring))
    && c.status.errCode == (if LastError(trace).Some? then LastError(trace).value else 0)
    && (c.status.failed <==> LastError(trace).Some?)
    && (c.status.cancelled <==> Somewhere(trace, WinsByTimeout))
  }

  lemma LastErrorOfLonger(trace: Trace, a: Action)
    ensures LastError(trace + [a]) == if Reports(a, trace).Some? then Reports(a, trace) else LastError(trace)
  {
    var longer := trace + [a];
    assert longer[..|longer| - 1] == trace && longer[|longer| - 1] == a;
  }

  lemma NextTellsErrors(c: Call, trace: Trace, a: Action)
    requires TellsErrors(c, trace)
    ensures TellsErrors(Next(c, a), trace + [a])
  {
    hide Somewhere, LastError;
    SomewhereInLonger(trace, a, IsConnectDone);
    SomewhereInLonger(trace, a, Establishes);
    SomewhereInLonger(trace, a, Registers);
    SomewhereInLonger(trace, a, IsAnswer);
    SomewhereInLonger(trace, a, IsFiring);
    SomewhereInLonger(trace, a, WinsByTimeout);
    LastErrorOfLonger(trace, a);
  }

  /** After every trace, with any number of replies, the controller shows the error reported last, and
      none if there is none; it is cancelled if and only if the timeout has won. */
  lemma {:induction false} ControllerShowsLastError(trace: Trace, hasClosure: bool)
    ensures var s, e := After(Start(true, true, hasClosure), trace).status, LastError(trace);
            && s.errCode == (if e.Some? then e.value else 0)
            && (s.failed <==> e.Some?)
            && (s.cancelled <==> Somewhere(trace, WinsByTimeout))
    ensures TellsErrors(After(Start(true, true, hasClosure), trace), trace)
    decreases |trace|
  {
    if trace != [] {
      var before, last := trace[..|trace| - 1], trace[|trace| - 1];
      assert trace == before + [last];
      ControllerShowsLastError(before, hasClosure);
      NextTellsErrors(After(Start(true, true, hasClosure), before), before, last);
    }
  }

  /* ----- Who runs the closure ----- */

  /** How the closure runs, read off the trace. */
  ghost function ExpectedRuns(trace: Trace, hasClosure: bool): seq<ClosureRun> {
    if !hasClosure then []
    else if Somewhere(trace, WinsByTimeout) then [ClosureRun(ByTimeout, ERROR_RPC_CALL_TIMEOUT)]
    else if Somewhere(trace, WinsByReply) then [ClosureRun(ByReply, 0)]
    else []
  }

  /** So does the closure. */
  ghost predicate Tells(c: Call, trace: Trace) {
    && TellsErrors(c, trace)
    && (c.phase == Waiting && !c.timerCancelled && !c.status.cancelled ==> c.status.errCode == 0)
    && (c.phase == Writing && !c.status.cancelled ==> c.status.errCode == 0)
    && (c.phase == Connecting && !c.status.cancelled ==> c.status.errCode == 0)
    && c.runs == ExpectedRuns(trace, c.hasClosure)
  }

  /** The race has at most one winner, and exactly one ending once the timer has fired. */
  ghost predicate OneEnding(trace: Trace) {
    var timeout, reply := Somewhere(trace, WinsByTimeout), Somewhere(trace, WinsByReply);
    var lost := Somewhere(trace, LosesByReply);
    && !(timeout && reply) && !(timeout && lost) && !(reply && lost)
    && (timeout ==> Somewhere(trace, IsFiring))
    && (reply || lost ==> Somewhere(trace, IsAnswer))
    && (Somewhere(trace, IsAnswer) ==> Somewhere(trace, IsReply) && (timeout || reply || lost))
    && (Somewhere(trace, IsFiring) ==> timeout || reply || lost)
  }

  lemma NextTells(c: Call, trace: Trace, a: Action)
    requires Tells(c, trace) && OneEnding(trace) && !IsSecondReply(a, trace)
    ensures Tells(Next(c, a), trace + [a]) && OneEnding(trace + [a]) && Next(c, a).hasClosure == c.hasClosure
  {
    hide Somewhere, LastError;
    NextTellsErrors(c, trace, a);
    SomewhereInLonger(trace, a, IsConnectDone);
    SomewhereInLonger(trace, a, Establishes);
    SomewhereInLonger(trace, a, Registers);
    SomewhereInLonger(trace, a, IsReply);
    SomewhereInLonger(trace, a, IsAnswer);
    SomewhereInLonger(trace, a, IsFiring);
    SomewhereInLonger(trace, a, WinsByTimeout);
    SomewhereInLonger(trace, a, WinsByReply);
    SomewhereInLonger(trace, a, LosesByReply);
  }

  lemma {:induction false} AfterTells(trace: Trace, hasClosure: bool)
    requires !Somewhere(trace, IsSecondReply)
    ensures var c := After(Start(true, true, hasClosure), trace);
            Tells(c, trace) && OneEnding(trace) && c.hasClosure == hasClosure
    decreases |trace|
  {
    if trace != [] {
      var before, last := trace[..|trace| - 1], trace[|trace| - 1];
      assert trace == before + [last];
      SomewhereInLonger(before, last, IsSecondReply);
      AfterTells(before, hasClosure);
      NextTells(After(Start(true, true, hasClosure), before), before, last);
    }
  }

  /** Call outcome safety, over every interleaving with at most one reply: the closure runs at most
      once; it runs with the timeout code exactly if the timer fired before any answer, and with
      code 0 exactly if a good answer came before the timer; never both. */
  lemma CallOutcome(trace: Trace, hasClosure: bool)
    requires !Somewhere(trace, IsSecondReply)
    ensures var runs := After(Start(true, true, hasClosure), trace).runs;
            && |runs| <= 1
            && runs == ExpectedRuns(trace, hasClosure)
            && !(Somewhere(trace, WinsByTimeout) && Somewhere(trace, WinsByReply))
            && (forall r :: r in runs ==> (r.errCode == 0 <==> r.winner == ByReply))
            && (forall r :: r in runs ==> (r.errCode == ERROR_RPC_CALL_TIMEOUT <==> r.winner == ByTimeout))
  {
    AfterTells(trace, hasClosure);
  }

  /** Once the timer has left the queue the caller has been told, except exactly if an answer that
      does not parse or carries an error came first: then the closure never runs. */
  lemma ClosureLostIff(trace: Trace)
    requires !Somewhere(trace, IsSecondReply) && Somewhere(trace, IsFiring)
    ensures After(Start(true, true, true), trace).runs == [] <==> Somewhere(trace, LosesByReply)
  {
    AfterTells(trace, true);
  }

  /** CallMethod that returns early leaves its error in the controller and runs nothing, ever. */
  lemma {:induction false} RefusedCallStaysRefused(isInit: bool, serializes: bool, hasClosure: bool, trace: Trace)
    requires !isInit || !serializes
    ensures After(Start(isInit, serializes, hasClosure), trace)
            == Call(Refused, Status(if isInit then 10000004 else 10000011, true, false), hasClosure, false, false, [])
    decreases |trace|
  {
    if trace != [] {
      RefusedCallStaysRefused(isInit, serializes, hasClosure, trace[..|trace| - 1]);
    }
  }

  /* ----- The controller and the channel ----- */

  class RpcController {
    var errorCode: int
    var isFailed: bool
    var isCancelled: bool

    constructor ()
      ensures View() == FRESH
    {
      errorCode, isFailed, isCancelled := 0, false, false;
    }

    function View(): Status
      reads this
    {
      Status(errorCode, isFailed, isCancelled)
    }

    method Reset()
      modifies this
      ensures View() == FRESH
    {
      errorCode, isFailed, isCancelled := 0, false, false;
    }

    method StartCancel()
      modifies this
      ensures View() == old(View()).(cancelled := true)
    {
      isCancelled := true;
    }

    method SetError(code: int)
      modifies this
      ensures View() == old(View()).WithError(code)
    {
      errorCode := code;
      isFailed := true;
    }
  }

  /** RpcChannel during one call; every callback of CallMethod is a method. */
  class RpcChannel {
    const controller: RpcController
    const hasClosure: bool
    var phase: Phase
    var timerPending: bool
    var timerCancelled: bool
    var runs: seq<ClosureRun>

    function View(): Call
      reads this, controller
    {
      Call(phase, controller.View(), hasClosure, timerPending, timerCancelled, runs)
    }

    /** CallMethod with a controller that has not been used. */
    constructor (controller: RpcController, isInit: bool, serializes: bool, hasClosure: bool)
      requires controller.View() == FRESH
      modifies controller
      ensures View() == Start(isInit, serializes, hasClosure) && this.controller == controller
    {
      this.controller, this.hasClosure := controller, hasClosure;
      phase, timerPending, timerCancelled, runs := Refused, false, false, [];
      new;
      if !isInit {
        controller.SetError(ERROR_RPC_CHANNEL_NOT_INIT);
        return;
      }
      if !serializes {
        controller.SetError(ERROR_FAILED_SERIALIZE);
        return;
      }
      timerPending := true;
      phase := Connecting;
    }

    method OnConnectDone(code: int)
      requires phase == Connecting
      modifies this, controller
      ensures View() == Next(old(View()), ConnectDone(code))
      ensures code != 0 ==> phase == Unreachable && controller.isFailed && controller.errorCode == code
    {
      if code != 0 {
        controller.SetError(code);
        phase := Unreachable;
        return;
      }
      phase := Writing;
    }

    method OnWriteDone()
      requires phase == Writing
      modifies this
      ensures View() == Next(old(View()), WriteDone)
    {
      phase := Waiting;
    }

    /** The callback registered with read_message. */
    method OnReply(parses: bool, code: int)
      requires phase == Waiting
      modifies this, controller
      ensures View() == Next(old(View()), ReplyArrives(parses, code))
      ensures timerCancelled && controller.isCancelled == old(controller.isCancelled)
      ensures parses && code == 0 ==> controller.View() == old(controller.View())
      ensures !parses || code != 0 ==>
                controller.isFailed && controller.errorCode == (if parses then code else 10000004) && runs == old(runs)
    {
      timerCancelled := true;
      if !parses {
        controller.SetError(ERROR_FAILED_SERIALIZE);
        return;
      }
      if code != 0 {
        controller.SetError(code);
        return;
      }
      if !controller.isCancelled && hasClosure {
        runs := runs + [ClosureRun(ByReply, controller.errorCode)];
      }
    }

    /** on_timer comes to the event of this call: it leaves the queue, and its task runs unless the
        event was cancelled. */
    method OnTimerFires()
      requires timerPending
      modifies this, controller
      ensures View() == Next(old(View()), TimerFires)
    {
      timerPending := false;
      if timerCancelled {
        return;
      }
      controller.StartCancel();
      controller.SetError(ERROR_RPC_CALL_TIMEOUT);
      if hasClosure {
        runs := runs + [ClosureRun(ByTimeout, controller.errorCode)];
      }
    }
  }
}
