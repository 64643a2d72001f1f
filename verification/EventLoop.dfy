/** The event loop: tasks queued by any thread and drained in swapped batches, and the set of
    listened descriptors that mirrors the interest set of epoll. */
module EventLoops {

  /** A queued callback: a deferred registration, or anything else. */
  datatype Task =
    | Register(fd: int, events: int)
    | Unregister(fd: int)
    | Work(name: int)

  /** The iteration of the loop during which a task was enqueued is a history variable. */
  datatype Item = Item(task: Task, enqueuedIn: nat)

  datatype Taken = Taken(item: Item, takenIn: nat)

  /** The calls of epoll_ctl. */
  datatype Ctl = CtlAdd(fd: int, events: int) | CtlMod(fd: int, events: int) | CtlDel(fd: int)

  /** The loop, the kernel's interest set, and the history of the run. Iteration 0 is before the
      loop takes its first batch. */
  datatype Loop = Loop(
    pending: seq<Item>, batch: seq<Item>, iteration: nat, stopped: bool,
    listening: set<int>, kernel: map<int, int>, failures: nat,
    log: seq<Item>, taken: seq<Taken>, applied: seq<Task>)

  /** epoll_ctl: ADD fails for a descriptor that is there, MOD and DEL for one that is not. */
  predicate Accepted(kernel: map<int, int>, c: Ctl) {
    match c
    case CtlAdd(fd, _) => fd !in kernel
    case CtlMod(fd, _) => fd in kernel
    case CtlDel(fd) => fd in kernel
  }

  function KernelCtl(l: Loop, c: Ctl): Loop {
    if !Accepted(l.kernel, c) then l.(failures := l.failures + 1)
    else match c
      case CtlAdd(fd, events) => l.(kernel := l.kernel[fd := events])
      case CtlMod(fd, events) => l.(kernel := l.kernel[fd := events])
      case CtlDel(fd) => l.(kernel := l.kernel - {fd})
  }

  /** add_to_epoll */
  function Listen(l: Loop, fd: int, events: int): Loop {
    var c := if fd in l.listening then CtlMod(fd, events) else CtlAdd(fd, events);
    KernelCtl(l, c).(listening := l.listening + {fd}, applied := l.applied + [Register(fd, events)])
  }

  /** delete_from_epoll */
  function Unlisten(l: Loop, fd: int): Loop {
    if fd !in l.listening then l.(applied := l.applied + [Unregister(fd)])
    else KernelCtl(l, CtlDel(fd)).(listening := l.listening - {fd}, applied := l.applied + [Unregister(fd)])
  }

  function Perform(l: Loop, t: Task): Loop {
    match t
    case Register(fd, events) => Listen(l, fd, events)
    case Unregister(fd) => Unlisten(l, fd)
    case Work(_) => l
  }

  function Enqueue(l: Loop, t: Task): Loop {
    var item := Item(t, l.iteration);
    l.(pending := l.pending + [item], log := l.log + [item])
  }

  /** What any thread and the loop can do next. A request from the loop's own thread is performed at
      once, and one from another thread is queued. */
  datatype Action =
    | AddTask(task: Task)
    | Request(task: Task, inLoopThread: bool)
    | Swap       // the loop begins an iteration
    | RunFront   // the loop takes the next task of its batch
    | Stop

  predicate Enabled(l: Loop, a: Action) {
    match a
    case Swap => l.batch == [] && !l.stopped
    case RunFront => l.batch != []
    case _ => true
  }

  function Next(l: Loop, a: Action): Loop
    requires Enabled(l, a)
  {
    match a
    case AddTask(t) => Enqueue(l, t)
    case Request(t, inLoopThread) => if inLoopThread then Perform(l, t) else Enqueue(l, t)
    case Swap => l.(batch := l.pending, pending := [], iteration := l.iteration + 1)
    case RunFront => Perform(FrontTaken(l), l.batch[0].task)
    case Stop => l.(stopped := true)
  }

  predicate Runs(l: Loop, actions: seq<Action>)
    decreases |actions|
  {
    actions == [] || (Enabled(l, actions[0]) && Runs(Next(l, actions[0]), actions[1..]))
  }

  function Run(l: Loop, actions: seq<Action>): Loop
    requires Runs(l, actions)
    decreases |actions|
  {
    if actions == [] then l else Run(Next(l, actions[0]), actions[1..])
  }

  const INITIAL: Loop := Loop([], [], 0, false, {}, map[], 0, [], [], [])

  /* ----- The history, told by the actions alone ----- */

  /** What the actions enqueue, in order: every task added and every request from another thread, each
      with the number of the iteration it falls into. */
  function Enqueued(actions: seq<Action>, iteration: nat): (items: seq<Item>)
    decreases |actions|
  {
    if actions == [] then []
    else match actions[0]
      case AddTask(t) => [Item(t, iteration)] + Enqueued(actions[1..], iteration)
      case Request(t, inLoopThread) =>
        (if inLoopThread then [] else [Item(t, iteration)]) + Enqueued(actions[1..], iteration)
      case Swap => Enqueued(actions[1..], iteration + 1)
      case _ => Enqueued(actions[1..], iteration)
  }

  /** A registration leaves a trace in epoll, and other work does not. */
  function Registrations(t: Task): seq<Task> {
    if t.Work? then [] else [t]
  }

  /** The registrations the actions perform, in order: a request of the loop's own thread at once, and
      with every task taken the next one of the queue. */
  function Performed(actions: seq<Action>, queue: seq<Item>): (requests: seq<Task>)
    decreases |actions|
  {
    if actions == [] then []
    else match actions[0]
      case Request(t, inLoopThread) =>
        (if inLoopThread then Registrations(t) else []) + Performed(actions[1..], queue)
      case RunFront =>
        if queue == [] then Performed(actions[1..], queue)
        else Registrations(queue[0].task) + Performed(actions[1..], queue[1..])
      case _ => Performed(actions[1..], queue)
  }

  /** The log of every run is what its actions enqueue. */
  lemma {:induction false} LogIsWhatWasEnqueued(l: Loop, actions: seq<Action>)
    requires Runs(l, actions)
    ensures Run(l, actions).log == l.log + Enqueued(actions, l.iteration)
    decreases |actions|
  {
    hide Next, Enqueued;
    if actions == [] {
      NothingIsEnqueued(l.iteration);
    } else {
      LogMoves(l, actions);
      LogIsWhatWasEnqueued(Next(l, actions[0]), actions[1..]);
    }
  }

  lemma NothingIsEnqueued(iteration: nat)
    ensures Enqueued([], iteration) == []
  {
  }

  /** An action moves what it enqueues from the actions into the log. */
  lemma LogMoves(l: Loop, actions: seq<Action>)
    requires actions != [] && Enabled(l, actions[0])
    ensures var r := Next(l, actions[0]);
            l.log + Enqueued(actions, l.iteration) == r.log + Enqueued(actions[1..], r.iteration)
  {
    hide Perform;
    var a := actions[0];
    if a.RunFront? {
      PerformKeepsQueue(FrontTaken(l), l.batch[0].task);
    } else if a.Request? {
      PerformKeepsQueue(l, a.task);
    }
  }

  /** All tasks that are still to be taken, and those to come. */
  function Ahead(l: Loop, actions: seq<Action>): seq<Item> {
    l.batch + l.pending + Enqueued(actions, l.iteration)
  }

  /** Only taking a task changes what is ahead. */
  lemma AheadMoves(l: Loop, actions: seq<Action>)
    requires actions != [] && Enabled(l, actions[0])
    ensures actions[0].RunFront? ==>
              Ahead(l, actions) == [l.batch[0]] + Ahead(Next(l, actions[0]), actions[1..])
    ensures !actions[0].RunFront? ==> Ahead(l, actions) == Ahead(Next(l, actions[0]), actions[1..])
  {
    hide Perform;
    var a := actions[0];
    if a.RunFront? {
      PerformKeepsQueue(FrontTaken(l), l.batch[0].task);
    } else if a.Request? {
      PerformKeepsQueue(l, a.task);
    }
  }

  /** What every run has applied to epoll is what its actions perform. */
  lemma {:induction false} AppliedIsWhatWasPerformed(l: Loop, actions: seq<Action>)
    requires Runs(l, actions)
    ensures Run(l, actions).applied == l.applied + Performed(actions, Ahead(l, actions))
    decreases |actions|
  {
    hide Perform, Ahead, Enqueued;
    if actions != [] {
      var a, rest := actions[0], actions[1..];
      AheadMoves(l, actions);
      if a.RunFront? {
        PerformApplies(FrontTaken(l), l.batch[0].task);
        assert Ahead(l, actions)[1..] == Ahead(Next(l, a), rest);
      } else if a.Request? {
        PerformApplies(l, a.task);
      }
      AppliedIsWhatWasPerformed(Next(l, a), rest);
    }
  }

  /** The loop once the front task has been taken and before it runs. */
  function FrontTaken(l: Loop): Loop
    requires l.batch != []
  {
    l.(batch := l.batch[1..], taken := l.taken + [Taken(l.batch[0], l.iteration)])
  }

  lemma PerformIs(l: Loop, t: Task)
    ensures t.Register? ==> Perform(l, t) == Listen(l, t.fd, t.events)
    ensures t.Unregister? ==> Perform(l, t) == Unlisten(l, t.fd)
    ensures t.Work? ==> Perform(l, t) == l
  {
  }

  lemma PerformApplies(l: Loop, t: Task)
    ensures Perform(l, t).applied == l.applied + Registrations(t)
  {
  }

  /** Once it has been told to stop, the loop begins no further iteration. */
  lemma {:induction false} NoIterationAfterStop(l: Loop, actions: seq<Action>, i: nat, j: nat)
    requires Runs(l, actions) && i < j < |actions| && actions[i].Stop?
    ensures !actions[j].Swap?
    decreases |actions|
  {
    if i > 0 {
      NoIterationAfterStop(Next(l, actions[0]), actions[1..], i - 1, j - 1);
    } else {
      StoppedLoopsOnlyFinish(Next(l, actions[0]), actions[1..], j - 1);
    }
  }

  lemma {:induction false} StoppedLoopsOnlyFinish(l: Loop, actions: seq<Action>, j: nat)
    requires l.stopped && Runs(l, actions) && j < |actions|
    ensures !actions[j].Swap?
    decreases |actions|
  {
    hide Perform;
    if j > 0 {
      if actions[0].RunFront? {
        PerformKeepsQueue(FrontTaken(l), l.batch[0].task);
      } else if actions[0].Request? {
        PerformKeepsQueue(l, actions[0].task);
      }
      StoppedLoopsOnlyFinish(Next(l, actions[0]), actions[1..], j - 1);
    }
  }

  /* ----- The task queue ----- */

  function ItemsOf(taken: seq<Taken>): (items: seq<Item>)
    ensures |items| == |taken| && forall i :: 0 <= i < |taken| ==> items[i] == taken[i].item
  {
    seq(|taken|, i requires 0 <= i < |taken| => taken[i].item)
  }

  /** Taken, current batch and pending are the enqueue log, cut in two places; and every task is
      taken in the iteration after the one it was enqueued in. */
  predicate InQueueOrder(l: Loop) {
    && ItemsOf(l.taken) + l.batch + l.pending == l.log
    && (forall i :: 0 <= i < |l.pending| ==> l.pending[i].enqueuedIn == l.iteration)
    && (forall i :: 0 <= i < |l.batch| ==> l.batch[i].enqueuedIn + 1 == l.iteration)
    && (forall i :: 0 <= i < |l.taken| ==> l.taken[i].takenIn == l.taken[i].item.enqueuedIn + 1)
  }

  lemma PerformKeepsQueue(l: Loop, t: Task)
    ensures var r := Perform(l, t);
            && r.pending == l.pending && r.batch == l.batch && r.log == l.log && r.taken == l.taken
            && r.iteration == l.iteration && r.stopped == l.stopped
  {
  }

  lemma NextKeepsQueueOrder(l: Loop, a: Action)
    requires InQueueOrder(l) && Enabled(l, a)
    ensures InQueueOrder(Next(l, a))
  {
    match a
    case RunFront =>
      var l1 := FrontTaken(l);
      PerformKeepsQueue(l1, l.batch[0].task);
      assert ItemsOf(l1.taken) == ItemsOf(l.taken) + [l.batch[0]];
      assert l.batch == [l.batch[0]] + l1.batch;
    case Request(t, inLoopThread) =>
      if inLoopThread {
        PerformKeepsQueue(l, t);
      }
    case _ =>
  }

  /** Over every interleaving of producers with the loop, tasks are taken at most once each, in the
      global order of enqueueing, and each in the iteration after the one it was enqueued in. */
  lemma {:induction false} TasksRunInOrder(l: Loop, actions: seq<Action>)
    requires InQueueOrder(l) && Runs(l, actions)
    ensures InQueueOrder(Run(l, actions))
    ensures ItemsOf(Run(l, actions).taken) <= Run(l, actions).log
    decreases |actions|
  {
    hide Next;
    if actions != [] {
      NextKeepsQueueOrder(l, actions[0]);
      TasksRunInOrder(Next(l, actions[0]), actions[1..]);
    }
  }

  /** What is pending when an iteration begins has been taken, all of it, when the next one begins:
      the batch is empty then, and the log up to the end of the batch is what has been taken. */
  lemma NothingIsLeftBehind(l: Loop, actions: seq<Action>)
    requires InQueueOrder(l) && l.batch == [] && !l.stopped
    requires Runs(Next(l, Swap), actions)
    requires Run(Next(l, Swap), actions).batch == []
    requires forall i :: 0 <= i < |actions| ==> !actions[i].Swap?
    ensures var e := Run(Next(l, Swap), actions);
            ItemsOf(e.taken) == l.log && l.log <= e.log
  {
    var b := Next(l, Swap);
    NextKeepsQueueOrder(l, Swap);
    TakenAndBatchAreFixed(b, actions);
  }

  /** Between two swaps, taken and batch together do not change, and the log only grows. */
  lemma {:induction false} TakenAndBatchAreFixed(l: Loop, actions: seq<Action>)
    requires Runs(l, actions) && forall i :: 0 <= i < |actions| ==> !actions[i].Swap?
    ensures var e := Run(l, actions);
            ItemsOf(e.taken) + e.batch == ItemsOf(l.taken) + l.batch && l.log <= e.log
    decreases |actions|
  {
    if actions != [] {
      var a := actions[0];
      if a.RunFront? {
        var l1 := FrontTaken(l);
        PerformKeepsQueue(l1, l.batch[0].task);
        assert ItemsOf(l1.taken) == ItemsOf(l.taken) + [l.batch[0]];
        assert ItemsOf(l1.taken) + l1.batch == ItemsOf(l.taken) + l.batch;
      } else if a.Request? && a.inLoopThread {
        PerformKeepsQueue(l, a.task);
      }
      TakenAndBatchAreFixed(Next(l, a), actions[1..]);
    }
  }

  /* ----- The registration mirror ----- */

  /** The reference: what the requests, in the order they were applied, leave registered. */
  function Fold(requests: seq<Task>): map<int, int> {
    if requests == [] then map[]
    else
      var before := Fold(requests[..|requests| - 1]);
      match requests[|requests| - 1]
      case Register(fd, events) => before[fd := events]
      case Unregister(fd) => before - {fd}
      case Work(_) => before
  }

  /** The loop's set is the kernel's, both are what the requests say, and no call has failed. */
  predicate Mirrors(l: Loop) {
    l.listening == l.kernel.Keys && l.kernel == Fold(l.applied) && l.failures == 0
  }

  lemma PerformKeepsMirror(l: Loop, t: Task)
    requires Mirrors(l)
    ensures Mirrors(Perform(l, t))
  {
    if !t.Work? {
      var requests := l.applied + [t];
      assert requests[..|requests| - 1] == l.applied;
      if t.Unregister? && t.fd !in l.listening {
        assert l.kernel - {t.fd} == l.kernel;
      }
    }
  }

  /** For every interleaving of direct and deferred requests, ADD is issued only for absent
      descriptors, MOD and DEL only for present ones, and the two sets agree. */
  lemma {:induction false} RegistrationMirrorsKernel(l: Loop, actions: seq<Action>)
    requires Mirrors(l) && Runs(l, actions)
    ensures Mirrors(Run(l, actions))
    decreases |actions|
  {
    if actions != [] {
      var a := actions[0];
      match a {
        case RunFront =>
          var l1 := FrontTaken(l);
          PerformKeepsMirror(l1, l.batch[0].task);
        case Request(t, inLoopThread) =>
          if inLoopThread {
            PerformKeepsMirror(l, t);
          }
        case _ =>
      }
      RegistrationMirrorsKernel(Next(l, a), actions[1..]);
    }
  }

  lemma InitialIsSound()
    ensures InQueueOrder(INITIAL) && Mirrors(INITIAL)
  {
  }

  /** Every state a new loop can reach, told by the actions: the tasks taken, the batch and what is
      pending are what was enqueued, in order; and what is listened to is what the performed requests
      leave registered. */
  lemma EveryLoopIsSound(actions: seq<Action>)
    requires Runs(INITIAL, actions)
    ensures InQueueOrder(Run(INITIAL, actions)) && Mirrors(Run(INITIAL, actions))
    ensures var l, queue := Run(INITIAL, actions), Enqueued(actions, 0);
            && ItemsOf(l.taken) + l.batch + l.pending == queue
            && l.kernel == Fold(Performed(actions, queue)) && l.listening == l.kernel.Keys
  {
    InitialIsSound();
    TasksRunInOrder(INITIAL, actions);
    RegistrationMirrorsKernel(INITIAL, actions);
    LogIsWhatWasEnqueued(INITIAL, actions);
    AppliedIsWhatWasPerformed(INITIAL, actions);
    var queue := Enqueued(actions, 0);
    assert [] + [] + queue == queue && [] + Performed(actions, queue) == Performed(actions, queue);
  }

  /* ----- One iteration ----- */

  function Adds(tasks: seq<Task>): (actions: seq<Action>)
    ensures |actions| == |tasks| && forall i :: 0 <= i < |tasks| ==> actions[i] == AddTask(tasks[i])
  {
    seq(|tasks|, i requires 0 <= i < |tasks| => AddTask(tasks[i]))
  }

  /** The loop takes one task after the other, and arrivals[k] is added while the k-th one runs. */
  function Drain(arrivals: seq<seq<Task>>): seq<Action> {
    if arrivals == [] then [] else [RunFront] + (Adds(arrivals[0]) + Drain(arrivals[1..]))
  }

  function Iteration(arrivals: seq<seq<Task>>): seq<Action> {
    [Swap] + Drain(arrivals)
  }

  lemma {:induction false} AddsRun(l: Loop, tasks: seq<Task>, rest: seq<Action>)
    requires forall r: Loop :: r.batch == l.batch ==> Runs(r, rest)
    ensures Runs(l, Adds(tasks) + rest)
    decreases |tasks|
  {
    var all := Adds(tasks) + rest;
    if tasks == [] {
      assert all == rest;
    } else {
      assert all[0] == AddTask(tasks[0]) && all[1..] == Adds(tasks[1..]) + rest;
      AddsRun(Next(l, all[0]), tasks[1..], rest);
    }
  }

  lemma {:induction false} DrainRuns(l: Loop, arrivals: seq<seq<Task>>)
    requires |l.batch| == |arrivals|
    ensures Runs(l, Drain(arrivals))
    decreases |arrivals|
  {
    hide Perform;
    if arrivals != [] {
      var r := Next(l, RunFront);
      PerformKeepsQueue(FrontTaken(l), l.batch[0].task);
      var rest := Drain(arrivals[1..]);
      forall q: Loop | q.batch == r.batch ensures Runs(q, rest) {
        DrainRuns(q, arrivals[1..]);
      }
      AddsRun(r, arrivals[0], rest);
      assert Drain(arrivals)[1..] == Adds(arrivals[0]) + rest;
    }
  }

  lemma IterationRuns(l: Loop, arrivals: seq<seq<Task>>)
    requires l.batch == [] && !l.stopped && |arrivals| == |l.pending|
    ensures Runs(l, Iteration(arrivals)) && Runs(Next(l, Swap), Drain(arrivals))
    ensures Run(l, Iteration(arrivals)) == Run(Next(l, Swap), Drain(arrivals))
  {
    DrainRuns(Next(l, Swap), arrivals);
    assert Iteration(arrivals)[1..] == Drain(arrivals);
  }

  lemma DrainStep(l: Loop, arrivals: seq<seq<Task>>)
    requires arrivals != [] && Runs(l, Drain(arrivals))
    ensures l.batch != [] && Runs(Next(l, RunFront), Adds(arrivals[0]) + Drain(arrivals[1..]))
    ensures Run(l, Drain(arrivals)) == Run(Next(l, RunFront), Adds(arrivals[0]) + Drain(arrivals[1..]))
  {
    hide Next;
    assert Drain(arrivals)[1..] == Adds(arrivals[0]) + Drain(arrivals[1..]);
  }

  /** What a drained iteration leaves: all that was enqueued before it has been taken, and what has
      arrived meanwhile is pending. */
  lemma IterationIsSound(l: Loop, arrivals: seq<seq<Task>>)
    requires l.batch == [] && !l.stopped && |arrivals| == |l.pending| && InQueueOrder(l) && Mirrors(l)
    ensures Runs(l, Iteration(arrivals))
    ensures var e := Run(l, Iteration(arrivals));
            && InQueueOrder(e) && Mirrors(e)
            && e.batch == [] && !e.stopped && e.iteration == l.iteration + 1
            && ItemsOf(e.taken) == l.log && e.log == l.log + e.pending
            && e.pending == Enqueued(Drain(arrivals), l.iteration + 1)
  {
    hide ItemsOf, Next;
    IterationRuns(l, arrivals);
    var b, e := Next(l, Swap), Run(l, Iteration(arrivals));
    TasksRunInOrder(l, Iteration(arrivals));
    RegistrationMirrorsKernel(l, Iteration(arrivals));
    SwapIs(l);
    DrainEmpties(b, arrivals);
    DrainHasNoSwap(arrivals);
    NothingIsLeftBehind(l, Drain(arrivals));
    LogIsWhatWasEnqueued(b, Drain(arrivals));
    assert l.log + [] + e.pending == e.log;
    assert e.pending == e.log[|l.log|..] == Enqueued(Drain(arrivals), l.iteration + 1);
  }

  lemma SwapIs(l: Loop)
    requires Enabled(l, Swap)
    ensures Next(l, Swap) == l.(batch := l.pending, pending := [], iteration := l.iteration + 1)
  {
  }

  lemma {:induction false} DrainHasNoSwap(arrivals: seq<seq<Task>>)
    ensures forall i :: 0 <= i < |Drain(arrivals)| ==> !Drain(arrivals)[i].Swap?
    decreases |arrivals|
  {
    if arrivals != [] {
      DrainHasNoSwap(arrivals[1..]);
    }
  }

  lemma {:induction false} DrainEmpties(l: Loop, arrivals: seq<seq<Task>>)
    requires |l.batch| == |arrivals|
    ensures Runs(l, Drain(arrivals))
    ensures var e := Run(l, Drain(arrivals)); e.batch == [] && e.stopped == l.stopped && e.iteration == l.iteration
    decreases |arrivals|
  {
    hide Perform;
    DrainRuns(l, arrivals);
    if arrivals != [] {
      DrainStep(l, arrivals);
      PerformKeepsQueue(FrontTaken(l), l.batch[0].task);
      var r := AfterAdds(Next(l, RunFront), arrivals[0], Drain(arrivals[1..]));
      DrainEmpties(r, arrivals[1..]);
    }
  }

  lemma {:induction false} AfterAdds(l: Loop, tasks: seq<Task>, rest: seq<Action>) returns (r: Loop)
    requires Runs(l, Adds(tasks) + rest)
    ensures r.batch == l.batch && r.stopped == l.stopped && r.iteration == l.iteration
    ensures Runs(r, rest) && Run(l, Adds(tasks) + rest) == Run(r, rest)
    decreases |tasks|
  {
    var all := Adds(tasks) + rest;
    if tasks == [] {
      assert all == rest;
      r := l;
    } else {
      assert all[0] == AddTask(tasks[0]) && all[1..] == Adds(tasks[1..]) + rest;
      r := AfterAdds(Next(l, all[0]), tasks[1..], rest);
    }
  }

  /* ----- The loop object ----- */

  class EventLoop {
    var pendingTasks: seq<Item>
    var tempTasks: seq<Item>
    var stopFlag: bool
    var listenFds: set<int>
    var iteration: nat
    ghost var kernel: map<int, int>
    ghost var failures: nat
    ghost var log: seq<Item>
    ghost var taken: seq<Taken>
    ghost var applied: seq<Task>

    ghost function View(): Loop
      reads this
    {
      Loop(pendingTasks, tempTasks, iteration, stopFlag, listenFds, kernel, failures, log, taken, applied)
    }

    constructor ()
      ensures View() == INITIAL
    {
      pendingTasks, tempTasks, stopFlag, listenFds, iteration := [], [], false, {}, 0;
      kernel, failures, log, taken, applied := map[], 0, [], [], [];
    }

    method AddTask(task: Task)
      modifies this
      ensures View() == Enqueue(old(View()), task)
      ensures pendingTasks == old(pendingTasks) + [Item(task, iteration)] && iteration == old(iteration)
    {
      var item := Item(task, iteration);
      pendingTasks := pendingTasks + [item];
      log := log + [item];
    }

    /** The system call, as far as it changes the interest set. */
    ghost method EpollCtl(c: Ctl)
      modifies this
      ensures View() == KernelCtl(old(View()), c)
    {
      var l := KernelCtl(View(), c);
      kernel, failures := l.kernel, l.failures;
    }

    method AddToEpoll(fd: int, events: int)
      modifies this
      ensures View() == Listen(old(View()), fd, events)
    {
      var op := if fd in listenFds then CtlMod(fd, events) else CtlAdd(fd, events);
      EpollCtl(op);
      listenFds := listenFds + {fd};
      applied := applied + [Register(fd, events)];
    }

    method DeleteFromEpoll(fd: int)
      modifies this
      ensures View() == Unlisten(old(View()), fd)
    {
      applied := applied + [Unregister(fd)];
      if fd !in listenFds {
        return;
      }
      EpollCtl(CtlDel(fd));
      listenFds := listenFds - {fd};
    }

    method AddEpollEvent(fd: int, events: int, inLoopThread: bool)
      modifies this
      ensures View() == Next(old(View()), Request(Register(fd, events), inLoopThread))
    {
      if inLoopThread {
        AddToEpoll(fd, events);
      } else {
        AddTask(Register(fd, events));
      }
    }

    method DeleteEpollEvent(fd: int, inLoopThread: bool)
      modifies this
      ensures View() == Next(old(View()), Request(Unregister(fd), inLoopThread))
    {
      if inLoopThread {
        DeleteFromEpoll(fd);
      } else {
        AddTask(Unregister(fd));
      }
    }

    method Stop()
      modifies this
      ensures View() == Next(old(View()), Action.Stop)
    {
      stopFlag := true;
    }

    /** One iteration of loop up to epoll_wait. While the k-th task of the batch runs, arrivals[k]
        is enqueued, by the task itself or by other threads. The iteration is a run of the actions it
        consists of. Everything that was enqueued before it has been taken when it ends, and what is
        pending then is what has arrived meanwhile. */
    method DrainBatch(arrivals: seq<seq<Task>>)
      requires InQueueOrder(View()) && Mirrors(View())
      requires tempTasks == [] && !stopFlag && |arrivals| == |pendingTasks|
      modifies this
      ensures Runs(old(View()), Iteration(arrivals)) && View() == Run(old(View()), Iteration(arrivals))
      ensures InQueueOrder(View()) && Mirrors(View())
      ensures tempTasks == [] && !stopFlag && iteration == old(iteration) + 1
      ensures ItemsOf(taken) == old(log) && log == old(log) + pendingTasks
      ensures pendingTasks == Enqueued(Drain(arrivals), iteration)
    {
      hide InQueueOrder, Mirrors, Next, ItemsOf;
      IterationRuns(View(), arrivals);
      IterationIsSound(View(), arrivals);
      BeginIteration();
      for k := 0 to |arrivals|
        invariant |tempTasks| == |arrivals| - k
        invariant Runs(View(), Drain(arrivals[k..]))
        invariant Run(View(), Drain(arrivals[k..])) == Run(old(View()), Iteration(arrivals))
      {
        DrainStep(View(), arrivals[k..]);
        assert arrivals[k..][1..] == arrivals[k + 1..];
        RunFrontTask();
        EnqueueAll(arrivals[k], Drain(arrivals[k + 1..]));
      }
      assert arrivals[|arrivals|..] == [];
    }

    method BeginIteration()
      requires tempTasks == [] && !stopFlag
      modifies this
      ensures View() == Next(old(View()), Swap) && tempTasks == old(pendingTasks)
    {
      tempTasks, pendingTasks := pendingTasks, [];
      iteration := iteration + 1;
    }

    method RunFrontTask()
      requires tempTasks != []
      modifies this
      ensures View() == Next(old(View()), RunFront) && tempTasks == old(tempTasks)[1..]
    {
      hide Perform;
      var front := tempTasks[0];
      PerformKeepsQueue(FrontTaken(View()), front.task);
      PerformIs(FrontTaken(View()), front.task);
      tempTasks := tempTasks[1..];
      taken := taken + [Taken(front, iteration)];
      match front.task {
        case Register(fd, events) => AddToEpoll(fd, events);
        case Unregister(fd) => DeleteFromEpoll(fd);
        case Work(_) =>
      }
    }

    method EnqueueAll(tasks: seq<Task>, ghost rest: seq<Action>)
      requires Runs(View(), Adds(tasks) + rest)
      modifies this
      ensures Runs(View(), rest) && Run(View(), rest) == Run(old(View()), Adds(tasks) + rest)
      ensures tempTasks == old(tempTasks)
    {
      for i := 0 to |tasks|
        invariant Runs(View(), Adds(tasks[i..]) + rest) && tempTasks == old(tempTasks)
        invariant Run(View(), Adds(tasks[i..]) + rest) == Run(old(View()), Adds(tasks) + rest)
      {
        var left := Adds(tasks[i..]) + rest;
        assert left[0] == Action.AddTask(tasks[i]) && left[1..] == Adds(tasks[i + 1..]) + rest;
        AddTask(tasks[i]);
      }
      assert Adds(tasks[|tasks|..]) + rest == rest;
    }
  }
}
