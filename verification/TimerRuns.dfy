/** Whole runs of a timer: events are created, added, deleted and cancelled, time passes, and the
    callback runs, in any order. */
module TimerRuns {
  import opened TimerQueue

  /** A timer, the clock, and what has been added and run so far. */
  datatype World = World(timer: TimerState, now: int, added: multiset<EventId>, ran: multiset<EventId>)

  datatype Action =
    | Create(id: EventId, interval: int, repeats: bool, time: int)
    | AddEvent(id: EventId, time: int)
    | DeleteEvent(id: EventId)
    | SetCancel(id: EventId)
    | TimePasses(time: int)
    | TimerCallback(clock: nat -> int)

  /** The kernel: an armed timer whose deadline has come has fired. */
  function Pass(t: TimerState, now: int): TimerState {
    if t.fd.Armed? && t.fd.deadline <= now then t.(fd := Fired) else t
  }

  /** Only the clock restricts a run: it does not go backwards. */
  ghost predicate Enabled(w: World, a: Action) {
    match a
    case Create(id, _, _, time) => id !in w.timer.events && w.now <= time
    case AddEvent(id, time) => id in w.timer.events && w.now <= time
    case DeleteEvent(id) => id in w.timer.events
    case SetCancel(id) => id in w.timer.events
    case TimePasses(time) => w.now <= time
    case TimerCallback(clock) => Monotone(clock) && w.now <= clock(0)
  }

  ghost function Next(w: World, a: Action): World
    requires w.timer.Known() && Enabled(w, a)
  {
    match a
    case Create(id, interval, repeats, time) =>
      var e := Event(time + interval, interval, repeats, false);
      w.(timer := Pass(w.timer, time).(events := w.timer.events[id := e]), now := time)
    case AddEvent(id, time) =>
      w.(timer := Add(Pass(w.timer, time), id, time), now := time, added := w.added + multiset{id})
    case DeleteEvent(id) => w.(timer := Delete(w.timer, id))
    case SetCancel(id) => w.(timer := Cancel(w.timer, id))
    case TimePasses(time) => w.(timer := Pass(w.timer, time), now := time)
    case TimerCallback(clock) =>
      var b := OnTimer(Pass(w.timer, clock(0)), clock);
      var last := clock(2 * |b.ran| + 1);
      w.(timer := Pass(b.timer, last), now := last, ran := w.ran + multiset(b.ran))
  }

  ghost predicate Runs(w: World, actions: seq<Action>)
    decreases |actions|
  {
    actions == [] || (w.timer.Known() && Enabled(w, actions[0]) && Runs(Next(w, actions[0]), actions[1..]))
  }

  ghost function Run(w: World, actions: seq<Action>): World
    requires Runs(w, actions)
    decreases |actions|
  {
    if actions == [] then w else Run(Next(w, actions[0]), actions[1..])
  }

  /** No action of the run adds a repeating event that is pending. */
  ghost predicate Careful(w: World, actions: seq<Action>)
    requires Runs(w, actions)
    decreases |actions|
  {
    actions == []
    || ((actions[0].AddEvent? ==> CanAdd(w.timer, actions[0].id)) && Careful(Next(w, actions[0]), actions[1..]))
  }

  /** What holds in every state of such a run: the queue is sound, so that keys are arrival times;
      nothing pending is forgotten; an armed timer has its deadline ahead; and a one-shot event
      has run, together with its pending entry, at most as often as it was added. */
  ghost predicate Safe(w: World) {
    w.timer.Sound() && Watched(w.timer)
    && (w.timer.fd.Armed? ==> w.now < w.timer.fd.deadline)
    && (w.timer.fd.Armed? && w.timer.pending != [] ==> w.timer.fd.at <= w.now)
    && OncePerAdd(w)
  }

  ghost predicate OncePerAdd(w: World) {
    (forall id :: id in w.ran ==> id in w.timer.events)
    && forall id :: id in w.timer.events && !w.timer.events[id].repeats ==>
         w.ran[id] + w.timer.Bag()[id] <= w.added[id]
  }

  lemma PassKeepsSafe(w: World, time: int)
    requires Safe(w) && w.now <= time
    ensures Safe(w.(timer := Pass(w.timer, time), now := time))
  {
    hide InOrder;
    SameQueueIsSound(w.timer, Pass(w.timer, time));
  }

  /** Soundness depends on the entries and on the arrival times of their events only. */
  lemma SameQueueIsSound(t: TimerState, r: TimerState)
    requires t.Sound() && r.pending == t.pending && r.serial == t.serial
    requires forall e :: e in t.pending ==>
               && e.id in r.events
               && r.events[e.id].arrive == t.events[e.id].arrive && r.events[e.id].repeats == t.events[e.id].repeats
    ensures r.Sound() && r.Bag() == t.Bag()
  {
    hide InOrder;
    assert r.Bag() == t.Bag();
    assert forall id :: r.Bag()[id] == t.Bag()[id];
  }

  lemma CreateKeepsSafe(w: World, id: EventId, e: Event)
    requires Safe(w) && id !in w.timer.events
    ensures Safe(w.(timer := w.timer.(events := w.timer.events[id := e])))
  {
    hide InOrder, Watched, OncePerAdd;
    var t := w.timer;
    SameQueueIsSound(t, t.(events := t.events[id := e]));
    StoreKeepsWatch(t, id, e);
    CreateKeepsOncePerAdd(w, id, e);
  }

  lemma CreateKeepsOncePerAdd(w: World, id: EventId, e: Event)
    requires w.timer.Known() && OncePerAdd(w) && id !in w.timer.events
    ensures OncePerAdd(w.(timer := w.timer.(events := w.timer.events[id := e])))
  {
    hide Ids;
    NotPending(w.timer, id);
  }

  lemma NotPending(t: TimerState, id: EventId)
    requires t.Known() && id !in t.events
    ensures t.Bag()[id] == 0
  {
    assert forall i :: 0 <= i < |t.pending| ==> t.pending[i] in t.pending;
    assert id !in Ids(t.pending);
  }

  lemma StoreKeepsWatch(t: TimerState, id: EventId, e: Event)
    requires Watched(t) && id !in t.events
    ensures Watched(t.(events := t.events[id := e]))
  {
  }

  lemma AddKeepsSafe(w: World, id: EventId)
    requires Safe(w) && CanAdd(w.timer, id)
    ensures Safe(w.(timer := Add(w.timer, id, w.now), added := w.added + multiset{id}))
  {
    hide InOrder, Insert, Watched;
    AddIsSound(w.timer, id, w.now);
    AddKeepsWatch(w.timer, id, w.now);
    AddArms(w.timer, id, w.now);
  }

  lemma AddArms(t: TimerState, id: EventId, now: int)
    requires t.Known() && id in t.events
    ensures var fd := Add(t, id, now).fd;
            (fd == t.fd && t.pending != []) || (fd.Armed? && fd.at == now < fd.deadline)
  {
    var e := Entry(t.events[id].arrive, id, t.serial);
    var t1 := t.(pending := Insert(t.pending, e), serial := t.serial + 1);
    ArmingIsExact(now, Wait(t1.events[t1.pending[0].id].arrive, now));
  }

  lemma DeleteKeepsSafe(w: World, id: EventId)
    requires Safe(w) && id in w.timer.events
    ensures Safe(w.(timer := Delete(w.timer, id)))
  {
    hide InOrder, Watched, OncePerAdd, FindEntry, Ids;
    DeleteIsSound(w.timer, id);
    DeleteKeepsWatch(w.timer, id);
    DeleteKeepsOncePerAdd(w, id);
  }

  lemma DeleteKeepsOncePerAdd(w: World, id: EventId)
    requires w.timer.Known() && OncePerAdd(w) && id in w.timer.events
    ensures OncePerAdd(w.(timer := Delete(w.timer, id)))
  {
    hide Ids, FindEntry;
    DeleteShrinksBag(w.timer, id);
  }

  lemma CancelKeepsSafe(w: World, id: EventId)
    requires Safe(w) && id in w.timer.events
    ensures Safe(w.(timer := Cancel(w.timer, id)))
  {
    hide InOrder;
    SameQueueIsSound(w.timer, Cancel(w.timer, id));
  }

  /** Of every one-shot event, a batch runs no more entries than it takes out of the queue. */
  lemma BatchRunsWhatItTakes(t: TimerState, clock: nat -> int, id: EventId)
    requires t.Known() && id in t.events && !t.events[id].repeats
    ensures multiset(OnTimer(t, clock).ran)[id] + OnTimer(t, clock).timer.Bag()[id] <= t.Bag()[id]
  {
    hide Readd, Collect, UpTo, Ids;
    var now := clock(0);
    var ran := Collect(t.pending, t.events, now);
    CollectedAreDue(t.pending, t.events, now);
    BagInTwoParts(t.pending, UpTo(t.pending, now));
    ReaddKeepsOneShots(RestOf(t, now), ran, clock, 1, id);
  }

  /** Re-inserting the repeating events changes nothing about the entries of another one. */
  lemma {:induction false} ReaddKeepsOneShots(t: TimerState, ids: seq<EventId>, clock: nat -> int, k: nat, id: EventId)
    requires t.Known() && forall i :: 0 <= i < |ids| ==> ids[i] in t.events
    requires id in t.events && !t.events[id].repeats
    ensures Readd(t, ids, clock, k).Bag()[id] == t.Bag()[id]
    decreases |ids|
  {
    hide Insert, Ids;
    if ids != [] {
      var x, rest := ids[0], ids[1..];
      if t.events[x].repeats {
        var t1 := Reschedule(t, x, clock(k));
        InsertKeepsIds(t1.pending, Entry(t1.events[x].arrive, x, t1.serial));
        ReaddKeepsOneShots(Add(t1, x, clock(k + 1)), rest, clock, k + 2, id);
      } else {
        ReaddKeepsOneShots(t, rest, clock, k + 2, id);
      }
    }
  }

  lemma BagInTwoParts(p: seq<Entry>, k: nat)
    requires k <= |p|
    ensures multiset(Ids(p)) == multiset(Ids(p[..k])) + multiset(Ids(p[k..]))
  {
    assert p == p[..k] + p[k..];
    IdsSplit(p[..k], p[k..]);
  }

  lemma BatchKeepsSafe(w: World, clock: nat -> int)
    requires Safe(w) && Monotone(clock) && w.now <= clock(0)
    ensures var b := OnTimer(w.timer, clock);
            var last := clock(2 * |b.ran| + 1);
            Safe(w.(timer := Pass(b.timer, last), now := last, ran := w.ran + multiset(b.ran)))
  {
    hide InOrder, OnTimer, Due, Undue, Repeating, Rescheduled, OncePerAdd;
    BatchIsCorrect(w.timer, clock);
    BatchRunsOncePerAdd(w, clock);
  }

  lemma BatchRunsOncePerAdd(w: World, clock: nat -> int)
    requires w.timer.Known() && OncePerAdd(w)
    ensures var b := OnTimer(w.timer, clock);
            forall last :: OncePerAdd(w.(timer := Pass(b.timer, last), now := last, ran := w.ran + multiset(b.ran)))
  {
    hide InOrder, OnTimer, Ids;
    var b := OnTimer(w.timer, clock);
    forall id | id in w.timer.events && !w.timer.events[id].repeats
      ensures w.ran[id] + multiset(b.ran)[id] + b.timer.Bag()[id] <= w.added[id]
    {
      BatchRunsWhatItTakes(w.timer, clock, id);
    }
    BatchKeepsFlags(w.timer, clock);
  }

  /** A batch runs only events of the store, none of them cancelled, and changes no flag. */
  lemma BatchKeepsFlags(t: TimerState, clock: nat -> int)
    requires t.Known()
    ensures var b := OnTimer(t, clock);
            && b.timer.events.Keys == t.events.Keys
            && (forall id :: id in t.events ==>
                  b.timer.events[id].repeats == t.events[id].repeats
                  && b.timer.events[id].cancelled == t.events[id].cancelled)
            && (forall id :: id in b.ran ==> id in t.events && !t.events[id].cancelled)
  {
    hide Readd, Collect, UpTo;
    var ran := Collect(t.pending, t.events, clock(0));
    CollectedAreLive(t.pending, t.events, clock(0));
    assert forall id :: id in ran ==> id in t.events;
    ReaddKeepsFlags(RestOf(t, clock(0)), ran, clock, 1);
  }

  lemma {:induction false} ReaddKeepsFlags(t: TimerState, ids: seq<EventId>, clock: nat -> int, k: nat)
    requires t.Known() && forall i :: 0 <= i < |ids| ==> ids[i] in t.events
    ensures var r := Readd(t, ids, clock, k);
            forall id :: id in t.events ==>
              && id in r.events && r.events[id].repeats == t.events[id].repeats
              && r.events[id].cancelled == t.events[id].cancelled
    decreases |ids|
  {
    hide Add;
    if ids != [] {
      var x, rest := ids[0], ids[1..];
      var t1 := if t.events[x].repeats then Add(Reschedule(t, x, clock(k)), x, clock(k + 1)) else t;
      ReaddKeepsFlags(t1, rest, clock, k + 2);
    }
  }

  lemma NextKeepsSafe(w: World, a: Action)
    requires Safe(w) && Enabled(w, a) && (a.AddEvent? ==> CanAdd(w.timer, a.id))
    ensures Safe(Next(w, a))
  {
    hide Safe, OnTimer, Add, Delete, Cancel;
    match a
    case Create(id, interval, repeats, time) =>
      PassKeepsSafe(w, time);
      var e := Event(time + interval, interval, repeats, false);
      CreateKeepsSafe(w.(timer := Pass(w.timer, time), now := time), id, e);
    case AddEvent(id, time) =>
      PassKeepsSafe(w, time);
      AddKeepsSafe(w.(timer := Pass(w.timer, time), now := time), id);
    case DeleteEvent(id) => DeleteKeepsSafe(w, id);
    case SetCancel(id) => CancelKeepsSafe(w, id);
    case TimePasses(time) => PassKeepsSafe(w, time);
    case TimerCallback(clock) =>
      PassKeepsSafe(w, clock(0));
      BatchKeepsSafe(w.(timer := Pass(w.timer, clock(0)), now := clock(0)), clock);
  }

  /** Whole-run safety: every state of a run is safe, if no repeating event is added while it is
      pending. */
  lemma {:induction false} RunIsSafe(w: World, actions: seq<Action>)
    requires Safe(w) && Runs(w, actions) && Careful(w, actions)
    ensures Safe(Run(w, actions))
    decreases |actions|
  {
    hide Safe, Next, Enabled;
    if actions != [] {
      NextKeepsSafe(w, actions[0]);
      RunIsSafe(Next(w, actions[0]), actions[1..]);
    }
  }

  /** Nothing pending waits behind a timer that is still armed for more than its own arrival time,
      or 100 ms after the arming. */
  lemma NothingIsForgotten(actions: seq<Action>, start: int, e: Entry)
    requires Runs(World(EMPTY, start, multiset{}, multiset{}), actions)
    requires Careful(World(EMPTY, start, multiset{}, multiset{}), actions)
    requires e in Run(World(EMPTY, start, multiset{}, multiset{}), actions).timer.pending
    ensures var w := Run(World(EMPTY, start, multiset{}, multiset{}), actions);
            && e.id in w.timer.events && e.key == w.timer.events[e.id].arrive
            && (w.timer.fd.Fired?
                || (w.timer.fd.Armed?
                    && w.timer.fd.at <= w.now < w.timer.fd.deadline <= Max(e.key, w.timer.fd.at + 100)))
  {
    hide Run, Runs, Careful;
    RunIsSafe(World(EMPTY, start, multiset{}, multiset{}), actions);
  }

  /** Without that restriction an entry can keep a key that is no longer the arrival time of its
      event: a repeating event that is pending twice is rescheduled twice in one batch. */
  lemma RepeatingTwiceLosesKey()
    ensures var e := Event(10, 10, true, false);
            var t := Add(Add(EMPTY.(events := map[0 := e]), 0, 0), 0, 0);
            t.KeysMatch() && !OnTimer(t, i => 10 + i).timer.KeysMatch()
  {
    hide Add, Rearm, Readd, Collect, UpTo;
    var t := AddedTwice();
    CollectedTwice(t.events);
    RescheduledTwice(RestOf(t, 10), i => 10 + i);
  }

  lemma AddedTwice() returns (t: TimerState)
    ensures t == Add(Add(EMPTY.(events := map[0 := Event(10, 10, true, false)]), 0, 0), 0, 0)
    ensures t.pending == [Entry(10, 0, 0), Entry(10, 0, 1)] && t.events == map[0 := Event(10, 10, true, false)]
    ensures t.KeysMatch()
  {
    hide Rearm;
    var t0 := EMPTY.(events := map[0 := Event(10, 10, true, false)]);
    var a, b := Entry(10, 0, 0), Entry(10, 0, 1);
    assert Insert([], a) == [a];
    RearmKeepsQueue(t0.(pending := [a], serial := 1), 0);
    var t1 := Add(t0, 0, 0);
    assert t1.pending == [a] && t1.serial == 1;
    assert UpTo([], 10) == 0 && [a][1..] == [];
    assert Insert([a], b) == [a, b];
    t := Add(t1, 0, 0);
  }

  lemma CollectedTwice(events: map<EventId, Event>)
    requires events == map[0 := Event(10, 10, true, false)]
    ensures var p := [Entry(10, 0, 0), Entry(10, 0, 1)];
            UpTo(p, 10) == 2 && Collect(p, events, 10) == [0, 0]
  {
    var a, b := Entry(10, 0, 0), Entry(10, 0, 1);
    assert [a, b][1..] == [b] && [b][1..] == [];
    assert UpTo([b], 10) == 1;
    assert Collect([], events, 10) == [] && Collect([b], events, 10) == [0];
  }

  lemma RescheduledTwice(t: TimerState, clock: nat -> int)
    requires t.pending == [] && t.events == map[0 := Event(10, 10, true, false)] && clock == (i => 10 + i)
    ensures t.Known()
    ensures forall now :: Rearm(Readd(t, [0, 0], clock, 1), now).Known()
    ensures forall now :: !Rearm(Readd(t, [0, 0], clock, 1), now).KeysMatch()
  {
  }

  lemma RearmKeepsQueue(t: TimerState, now: int)
    requires t.Known()
    ensures var r := Rearm(t, now); r.pending == t.pending && r.events == t.events && r.serial == t.serial
  {
  }

  /** What survives it, in every run: a one-shot event has run, together with its pending entries, at
      most as often as it was added. */
  lemma {:induction false} OneShotsRunOncePerAdd(w: World, actions: seq<Action>)
    requires OncePerAdd(w) && Runs(w, actions)
    ensures OncePerAdd(Run(w, actions))
    decreases |actions|
  {
    hide OncePerAdd, Next, Enabled;
    if actions != [] {
      NextKeepsOncePerAdd(w, actions[0]);
      OneShotsRunOncePerAdd(Next(w, actions[0]), actions[1..]);
    }
  }

  lemma NextKeepsOncePerAdd(w: World, a: Action)
    requires OncePerAdd(w) && w.timer.Known() && Enabled(w, a)
    ensures OncePerAdd(Next(w, a))
  {
    hide OnTimer, Ids, Insert, Delete;
    match a
    case Create(id, interval, repeats, time) =>
      CreateKeepsOncePerAdd(w, id, Event(time + interval, interval, repeats, false));
    case AddEvent(id, time) => InsertKeepsIds(w.timer.pending, Entry(w.timer.events[id].arrive, id, w.timer.serial));
    case DeleteEvent(id) => DeleteKeepsOncePerAdd(w, id);
    case SetCancel(_) =>
    case TimePasses(_) =>
    case TimerCallback(clock) => BatchRunsOncePerAdd(w.(timer := Pass(w.timer, clock(0))), clock);
  }

  lemma DeleteShrinksBag(t: TimerState, id: EventId)
    requires t.Known() && id in t.events
    ensures Delete(t, id).Bag() <= t.Bag()
  {
    hide Ids, FindEntry;
    var k := FindEntry(t.pending, t.events[id].arrive, id);
    if k < |t.pending| {
      BagWithoutRange(t.pending, k, k + 1);
      SumIsLarger(multiset(Ids(t.pending[..k] + t.pending[k + 1..])), multiset(Ids(t.pending[k..k + 1])));
    }
  }

  lemma SumIsLarger(a: multiset<EventId>, b: multiset<EventId>)
    ensures a <= a + b
  {
  }

  /** An event cancelled before a batch begins is run neither by it nor by any later one, in every
      run. */
  lemma {:induction false} CancelledNeverRuns(w: World, actions: seq<Action>, id: EventId)
    requires Runs(w, actions)
    requires id in w.timer.events && w.timer.events[id].cancelled
    ensures Run(w, actions).ran[id] == w.ran[id]
    decreases |actions|
  {
    hide OnTimer, Add;
    if actions != [] {
      var a := actions[0];
      if a.TimerCallback? {
        BatchKeepsFlags(Pass(w.timer, a.clock(0)), a.clock);
        assert multiset(OnTimer(Pass(w.timer, a.clock(0)), a.clock).ran)[id] == 0;
      }
      CancelledNeverRuns(Next(w, a), actions[1..], id);
    }
  }

  /** Cancelling or deleting an event stops it for good: whatever the run does next, no batch runs it. */
  lemma CancelStopsEvent(w: World, actions: seq<Action>, id: EventId)
    requires Runs(w, actions) && actions != [] && (actions[0] == SetCancel(id) || actions[0] == DeleteEvent(id))
    ensures Run(w, actions).ran[id] == w.ran[id]
    ensures RunsOf(w, actions, id) == 0
  {
    CancelledNeverRuns(Next(w, actions[0]), actions[1..], id);
    HistoryIsTheTrace(w, actions, id);
  }

  /* ----- The history is the trace ----- */

  /** How often an event is added, read off the actions. */
  function AddsOf(actions: seq<Action>, id: EventId): nat {
    if actions == [] then 0
    else (if actions[0].AddEvent? && actions[0].id == id then 1 else 0) + AddsOf(actions[1..], id)
  }

  /** How often the batches of a run contain an event. */
  ghost function RunsOf(w: World, actions: seq<Action>, id: EventId): nat
    requires Runs(w, actions)
    decreases |actions|
  {
    if actions == [] then 0
    else
      var a := actions[0];
      var now := if a.TimerCallback? then multiset(OnTimer(Pass(w.timer, a.clock(0)), a.clock).ran)[id] else 0;
      now + RunsOf(Next(w, a), actions[1..], id)
  }

  lemma {:induction false} HistoryIsTheTrace(w: World, actions: seq<Action>, id: EventId)
    requires Runs(w, actions)
    ensures Run(w, actions).added[id] == w.added[id] + AddsOf(actions, id)
    ensures Run(w, actions).ran[id] == w.ran[id] + RunsOf(w, actions, id)
    decreases |actions|
  {
    hide OnTimer, Add, Delete, Cancel;
    if actions != [] {
      HistoryIsTheTrace(Next(w, actions[0]), actions[1..], id);
    }
  }

  /** From an empty timer, whatever the run does: a one-shot event is in the batches of a run at most
      as often as the run adds it. */
  lemma OneShotsRunAtMostOncePerAdd(actions: seq<Action>, start: int, id: EventId)
    requires Runs(World(EMPTY, start, multiset{}, multiset{}), actions)
    requires var w := Run(World(EMPTY, start, multiset{}, multiset{}), actions);
             id in w.timer.events && !w.timer.events[id].repeats
    ensures RunsOf(World(EMPTY, start, multiset{}, multiset{}), actions, id) <= AddsOf(actions, id)
  {
    hide Run, Runs, RunsOf;
    var w := World(EMPTY, start, multiset{}, multiset{});
    OneShotsRunOncePerAdd(w, actions);
    HistoryIsTheTrace(w, actions, id);
  }

  /** Nor is it lost: as long as it is neither cancelled nor deleted, it is in the batches of a run and
      still pending exactly as often as it was pending before and has been added. */
  lemma {:induction false} NoEventIsLost(w: World, actions: seq<Action>, id: EventId)
    requires Runs(w, actions) && id in w.timer.events
    requires !w.timer.events[id].repeats && !w.timer.events[id].cancelled
    requires forall i :: 0 <= i < |actions| ==> actions[i] != SetCancel(id) && actions[i] != DeleteEvent(id)
    ensures RunsOf(w, actions, id) + Run(w, actions).timer.Bag()[id] == w.timer.Bag()[id] + AddsOf(actions, id)
    decreases |actions|
  {
    hide Next, Enabled;
    if actions != [] {
      NextLosesNothing(w, actions[0], id);
      NoEventIsLost(Next(w, actions[0]), actions[1..], id);
    }
  }

  lemma NextLosesNothing(w: World, a: Action, id: EventId)
    requires w.timer.Known() && Enabled(w, a) && id in w.timer.events
    requires !w.timer.events[id].repeats && !w.timer.events[id].cancelled
    requires a != SetCancel(id) && a != DeleteEvent(id)
    ensures var t := Next(w, a).timer;
            && id in t.events && !t.events[id].repeats && !t.events[id].cancelled
            && RunsOf(w, [a], id) + t.Bag()[id] == w.timer.Bag()[id] + AddsOf([a], id)
  {
    hide OnTimer, Ids, Add, Delete;
    assert [a][1..] == [] && RunsOf(Next(w, a), [], id) == 0 && AddsOf([a][1..], id) == 0;
    match a
    case AddEvent(x, time) => AddCounts(Pass(w.timer, time), x, time);
    case DeleteEvent(x) => DeleteKeepsOthers(w.timer, x, id);
    case TimerCallback(clock) =>
      BatchLosesNothing(Pass(w.timer, clock(0)), clock, id);
      BatchKeepsFlags(Pass(w.timer, clock(0)), clock);
    case _ =>
  }

  lemma AddCounts(t: TimerState, x: EventId, now: int)
    requires t.Known() && x in t.events
    ensures Add(t, x, now).Bag() == t.Bag() + multiset{x}
  {
    hide Ids, Insert;
    InsertKeepsIds(t.pending, Entry(t.events[x].arrive, x, t.serial));
  }

  lemma DeleteKeepsOthers(t: TimerState, x: EventId, id: EventId)
    requires t.Known() && x in t.events && x != id
    ensures Delete(t, x).Bag()[id] == t.Bag()[id] && Delete(t, x).events.Keys == t.events.Keys
    ensures id in t.events ==> Delete(t, x).events[id] == t.events[id]
  {
    hide Ids, FindEntry;
    var k := FindEntry(t.pending, t.events[x].arrive, x);
    if k < |t.pending| {
      BagWithoutRange(t.pending, k, k + 1);
      OneId(t.pending, k);
    }
  }

  lemma BatchLosesNothing(t: TimerState, clock: nat -> int, id: EventId)
    requires t.Known() && id in t.events && !t.events[id].repeats && !t.events[id].cancelled
    ensures multiset(OnTimer(t, clock).ran)[id] + OnTimer(t, clock).timer.Bag()[id] == t.Bag()[id]
  {
    hide Readd, Collect, UpTo, Ids;
    var now := clock(0);
    var ran := Collect(t.pending, t.events, now);
    assert FrontIds(t.pending, now) == Ids(t.pending[..UpTo(t.pending, now)]);
    CollectedInFull(t.pending, t.events, now, id);
    BagInTwoParts(t.pending, UpTo(t.pending, now));
    ReaddKeepsOneShots(RestOf(t, now), ran, clock, 1, id);
  }

  /** All entries of an event at the front are taken, unless it is cancelled. */
  lemma {:induction false} CollectedInFull(p: seq<Entry>, events: map<EventId, Event>, now: int, id: EventId)
    requires (forall e :: e in p ==> e.id in events) && id in events && !events[id].cancelled
    ensures multiset(Collect(p, events, now))[id] == multiset(FrontIds(p, now))[id]
    decreases |p|
  {
    hide Collect, FrontIds;
    FrontStep(p, events, now);
    if p != [] && p[0].key <= now {
      CollectedInFull(p[1..], events, now, id);
      CountCons(p[0].id, FrontIds(p[1..], now), id);
      CountCons(p[0].id, Collect(p[1..], events, now), id);
    }
  }

  function FrontIds(p: seq<Entry>, now: int): seq<EventId> {
    Ids(p[..UpTo(p, now)])
  }

  lemma FrontStep(p: seq<Entry>, events: map<EventId, Event>, now: int)
    requires forall e :: e in p ==> e.id in events
    ensures p == [] || p[0].key > now ==> FrontIds(p, now) == [] && Collect(p, events, now) == []
    ensures p != [] && p[0].key <= now ==>
              && p[0] in p
              && FrontIds(p, now) == [p[0].id] + FrontIds(p[1..], now)
              && Collect(p, events, now)
                 == (if events[p[0].id].cancelled then [] else [p[0].id]) + Collect(p[1..], events, now)
  {
    hide UpTo, Collect;
    CollectNext(p, 0, events, now);
    assert p[0..] == p;
    if p != [] && p[0].key <= now {
      IdsOfPrefix(p, UpTo(p, now));
    }
  }

  lemma CountCons(x: EventId, s: seq<EventId>, id: EventId)
    ensures multiset([x] + s)[id] == (if x == id then 1 else 0) + multiset(s)[id]
  {
    assert multiset([x] + s) == multiset{x} + multiset(s);
  }

  /* ----- Nothing runs early ----- */

  /** The event was made at a time, with an interval, and neither it nor an entry of it arrives
      before that time is over. */
  predicate NotBefore(t: TimerState, id: EventId, made: int, interval: int) {
    && id in t.events && t.events[id].interval == interval && made + interval <= t.events[id].arrive
    && forall e :: e in t.pending && e.id == id ==> made + interval <= e.key
  }

  /** An event created during a run is in no batch that begins before its interval has passed. */
  lemma NothingRunsEarly(w: World, actions: seq<Action>, k: nat, j: nat)
    requires Runs(w, actions) && k < j < |actions| && actions[k].Create? && actions[j].TimerCallback?
    ensures Runs(w, actions[..j]) && Run(w, actions[..j]).timer.Known()
    ensures var b := OnTimer(Pass(Run(w, actions[..j]).timer, actions[j].clock(0)), actions[j].clock);
            actions[k].id in b.ran ==> actions[k].time + actions[k].interval <= actions[j].clock(0)
  {
    hide OnTimer;
    RunsSplit(w, actions, j);
    var front := actions[..j];
    RunsSplit(w, front, k);
    var a := actions[k];
    assert front[k..][0] == a && front[k..][1..] == front[k + 1..];
    var made := Next(Run(w, front[..k]), a);
    CreatedIsNotBefore(Run(w, front[..k]), a);
    RunKeepsNotBefore(made, front[k + 1..], a.id, a.time, a.interval);
    assert actions[j..][0] == actions[j];
    CollectedAreNotEarly(Pass(Run(w, front).timer, actions[j].clock(0)), actions[j].clock, a.id, a.time, a.interval);
  }

  lemma {:induction false} RunsSplit(w: World, actions: seq<Action>, k: nat)
    requires Runs(w, actions) && k <= |actions|
    ensures Runs(w, actions[..k]) && Runs(Run(w, actions[..k]), actions[k..])
    ensures Run(w, actions) == Run(Run(w, actions[..k]), actions[k..])
    decreases k
  {
    hide Next, Enabled;
    if k > 0 {
      RunsSplit(Next(w, actions[0]), actions[1..], k - 1);
      assert actions[..k][0] == actions[0] && actions[..k][1..] == actions[1..][..k - 1];
      assert actions[1..][k - 1..] == actions[k..];
    }
  }

  lemma CreatedIsNotBefore(w: World, a: Action)
    requires w.timer.Known() && Enabled(w, a) && a.Create?
    ensures NotBefore(Next(w, a).timer, a.id, a.time, a.interval) && Next(w, a).now == a.time
  {
  }

  lemma {:induction false} RunKeepsNotBefore(w: World, actions: seq<Action>, id: EventId, made: int, interval: int)
    requires Runs(w, actions) && NotBefore(w.timer, id, made, interval) && made <= w.now
    ensures NotBefore(Run(w, actions).timer, id, made, interval)
    decreases |actions|
  {
    hide Next, Enabled, NotBefore;
    if actions != [] {
      NextKeepsNotBefore(w, actions[0], id, made, interval);
      RunKeepsNotBefore(Next(w, actions[0]), actions[1..], id, made, interval);
    }
  }

  lemma NextKeepsNotBefore(w: World, a: Action, id: EventId, made: int, interval: int)
    requires w.timer.Known() && Enabled(w, a) && NotBefore(w.timer, id, made, interval) && made <= w.now
    ensures NotBefore(Next(w, a).timer, id, made, interval) && made <= Next(w, a).now
  {
    hide OnTimer, Insert, Rearm;
    match a
    case AddEvent(x, time) => AddKeepsNotBefore(Pass(w.timer, time), x, time, id, made, interval);
    case TimerCallback(clock) => BatchKeepsNotBefore(Pass(w.timer, clock(0)), clock, id, made, interval);
    case _ =>
  }

  lemma AddKeepsNotBefore(t: TimerState, x: EventId, now: int, id: EventId, made: int, interval: int)
    requires t.Known() && x in t.events && NotBefore(t, id, made, interval)
    ensures NotBefore(Add(t, x, now), id, made, interval)
  {
    hide Insert;
    InsertMembers(t.pending, Entry(t.events[x].arrive, x, t.serial));
  }

  lemma BatchKeepsNotBefore(t: TimerState, clock: nat -> int, id: EventId, made: int, interval: int)
    requires t.Known() && NotBefore(t, id, made, interval) && Monotone(clock) && made <= clock(0)
    ensures NotBefore(OnTimer(t, clock).timer, id, made, interval)
  {
    hide Readd, Collect, UpTo, Rearm;
    var ran := Collect(t.pending, t.events, clock(0));
    var rest := RestOf(t, clock(0));
    ReaddKeepsNotBefore(rest, ran, clock, 1, id, made, interval);
    RearmKeepsQueue(Readd(rest, ran, clock, 1), clock(2 * |ran| + 1));
  }

  lemma {:induction false} ReaddKeepsNotBefore(t: TimerState, ids: seq<EventId>, clock: nat -> int, k: nat,
                                               id: EventId, made: int, interval: int)
    requires t.Known() && forall i :: 0 <= i < |ids| ==> ids[i] in t.events
    requires NotBefore(t, id, made, interval) && forall j: nat :: made <= clock(j)
    ensures NotBefore(Readd(t, ids, clock, k), id, made, interval)
    decreases |ids|
  {
    hide Add;
    if ids != [] {
      if t.events[ids[0]].repeats {
        var t1 := Reschedule(t, ids[0], clock(k));
        AddKeepsNotBefore(t1, ids[0], clock(k + 1), id, made, interval);
        ReaddKeepsNotBefore(Add(t1, ids[0], clock(k + 1)), ids[1..], clock, k + 2, id, made, interval);
      } else {
        ReaddKeepsNotBefore(t, ids[1..], clock, k + 2, id, made, interval);
      }
    }
  }

  lemma CollectedAreNotEarly(t: TimerState, clock: nat -> int, id: EventId, made: int, interval: int)
    requires t.Known() && NotBefore(t, id, made, interval)
    ensures id in OnTimer(t, clock).ran ==> made + interval <= clock(0)
  {
    hide Readd;
    CollectedHaveEntries(t.pending, t.events, clock(0), id);
  }

  lemma {:induction false} CollectedHaveEntries(p: seq<Entry>, events: map<EventId, Event>, now: int, id: EventId)
    requires forall e :: e in p ==> e.id in events
    ensures id in Collect(p, events, now) ==> exists e :: e in p && e.id == id && e.key <= now
    decreases |p|
  {
    if p != [] && p[0].key <= now {
      CollectedHaveEntries(p[1..], events, now, id);
      assert p[0] in p;
    }
  }
}
